/** The schema registry as the manager sees it through its client: a listing of groups,
    each holding the versions of the schemas added to it. A Presto schema is a registry
    group; a Presto table is a schema type inside that group. */
module RegistryState {
  import opened Results
  import opened Errors
  import opened TableDecoding

  /** One stored version: its schema type (the table name), its version number and the
      data it was stored with. */
  datatype SchemaVersion = SchemaVersion(typeName: string, version: nat, payload: Payload)

  datatype Group = Group(name: string, schemas: seq<SchemaVersion>)

  /** What listing the groups yields: the registry is down (the iterator's first `hasNext`
      throws ProcessingException), or the groups in listing order. */
  datatype Listing = Unreachable | Groups(groups: seq<Group>)

  /** The position of the group registered under exactly `name`. */
  function FindGroup(gs: seq<Group>, name: string): (r: Option<nat>)
    ensures r.None? <==> forall i :: 0 <= i < |gs| ==> gs[i].name != name
    ensures r.Some? ==> r.value < |gs| && gs[r.value].name == name &&
                        forall j :: 0 <= j < r.value ==> gs[j].name != name
  {
    if |gs| == 0 then None
    else if gs[0].name == name then Some(0)
    else
      match FindGroup(gs[1..], name)
      case None => None
      case Some(i) =>
        assert forall j :: 1 <= j < i + 1 ==> gs[j] == gs[1..][j - 1];
        Some(i + 1)
  }

  /** Versions within a group grow in the order they were added. */
  predicate Increasing(ss: seq<SchemaVersion>) {
    forall i, j :: 0 <= i < j < |ss| ==> ss[i].version < ss[j].version
  }

  predicate DistinctNames(gs: seq<Group>) {
    forall i, j :: 0 <= i < j < |gs| ==> gs[i].name != gs[j].name
  }

  /** The registry's own invariant: group names are unique and versions within each group
      grow, all of them below the next version to hand out. */
  predicate WellFormed(l: Listing, nextVersion: nat) {
    l.Groups? ==>
      && DistinctNames(l.groups)
      && (forall i :: 0 <= i < |l.groups| ==> Increasing(l.groups[i].schemas))
      && (forall i, k :: 0 <= i < |l.groups| && 0 <= k < |l.groups[i].schemas| ==>
            l.groups[i].schemas[k].version < nextVersion)
  }

  lemma {:induction false} FindDistinct(gs: seq<Group>, i: nat)
    requires DistinctNames(gs) && i < |gs|
    ensures FindGroup(gs, gs[i].name) == Some(i)
  {
  }

  /** The position of the latest version of the type of `ss[k]`, that is the last version
      with that type. */
  function LatestIndex(ss: seq<SchemaVersion>, k: nat): (j: nat)
    requires k < |ss|
    ensures k <= j < |ss| && ss[j].typeName == ss[k].typeName
    ensures forall m :: j < m < |ss| ==> ss[m].typeName != ss[k].typeName
  {
    LastOfType(ss, k, |ss|)
  }

  function LastOfType(ss: seq<SchemaVersion>, k: nat, n: nat): (j: nat)
    requires k < n <= |ss|
    ensures k <= j < n && ss[j].typeName == ss[k].typeName
    ensures forall m :: j < m < n ==> ss[m].typeName != ss[k].typeName
    decreases n
  {
    if ss[n - 1].typeName == ss[k].typeName then n - 1 else LastOfType(ss, k, n - 1)
  }

  /** In a group whose versions grow, the last version of a type is its highest one. */
  lemma {:induction false} LatestIsHighest(ss: seq<SchemaVersion>, k: nat, m: nat)
    requires Increasing(ss) && k < |ss| && m < |ss| && ss[m].typeName == ss[k].typeName
    ensures ss[m].version <= ss[LatestIndex(ss, k)].version
  {
  }

  /** The versions of `ss` other than `v`, in their order. */
  function RemoveVersion(ss: seq<SchemaVersion>, v: nat): (r: seq<SchemaVersion>)
    ensures |r| <= |ss|
  {
    if |ss| == 0 then []
    else (if ss[0].version == v then [] else [ss[0]]) + RemoveVersion(ss[1..], v)
  }

  /** Deleting a version keeps exactly the versions with another number. */
  lemma {:induction false} RemoveVersionMembers(ss: seq<SchemaVersion>, v: nat)
    ensures forall x :: x in RemoveVersion(ss, v) <==> x in ss && x.version != v
  {
    if |ss| > 0 {
      RemoveVersionMembers(ss[1..], v);
      assert ss == [ss[0]] + ss[1..];
    }
  }

  /** Deleting a version keeps every remaining version number below a bound. */
  lemma {:induction false} RemoveVersionBelow(ss: seq<SchemaVersion>, v: nat, n: nat)
    requires forall k :: 0 <= k < |ss| ==> ss[k].version < n
    ensures forall k :: 0 <= k < |RemoveVersion(ss, v)| ==> RemoveVersion(ss, v)[k].version < n
  {
    if |ss| > 0 {
      RemoveVersionBelow(ss[1..], v, n);
      var h := if ss[0].version == v then [] else [ss[0]];
      var t := RemoveVersion(ss[1..], v);
      var r := RemoveVersion(ss, v);
      assert r == h + t;
      forall k | 0 <= k < |r| ensures r[k].version < n {
        if k >= |h| {
          assert r[k] == t[k - |h|];
        }
      }
    }
  }

  lemma {:induction false} RemoveVersionAppend(a: seq<SchemaVersion>, b: seq<SchemaVersion>, v: nat)
    ensures RemoveVersion(a + b, v) == RemoveVersion(a, v) + RemoveVersion(b, v)
  {
    if |a| > 0 {
      assert (a + b)[1..] == a[1..] + b;
      RemoveVersionAppend(a[1..], b, v);
    } else {
      assert a + b == b;
    }
  }

  /** Deleting a version that is not there changes nothing. */
  lemma {:induction false} RemoveAbsentVersion(ss: seq<SchemaVersion>, v: nat)
    requires forall k :: 0 <= k < |ss| ==> ss[k].version != v
    ensures RemoveVersion(ss, v) == ss
  {
    if |ss| > 0 {
      RemoveAbsentVersion(ss[1..], v);
      assert ss == [ss[0]] + ss[1..];
    }
  }

  /** A subsequence of a growing sequence grows. */
  lemma {:induction false} RemoveVersionIncreasing(ss: seq<SchemaVersion>, v: nat)
    requires Increasing(ss)
    ensures Increasing(RemoveVersion(ss, v))
    decreases |ss|
  {
    if |ss| > 0 {
      RemoveVersionIncreasing(ss[1..], v);
      RemoveVersionMembers(ss[1..], v);
      var rest := RemoveVersion(ss[1..], v);
      forall x | x in rest ensures ss[0].version < x.version {
        var k :| 0 <= k < |ss[1..]| && ss[1..][k] == x;
        assert ss[k + 1] == x;
      }
    }
  }

  /** Adding a group: an existing name leaves the listing as it is. */
  function WithGroup(l: Listing, name: string): Listing {
    match l
    case Unreachable => Unreachable
    case Groups(gs) =>
      if FindGroup(gs, name).Some? then l else Groups(gs + [Group(name, [])])
  }

  /** The groups other than `name`. */
  function RemoveNamed(gs: seq<Group>, name: string): (r: seq<Group>)
    ensures forall g :: g in r <==> g in gs && g.name != name
    ensures |r| <= |gs|
  {
    if |gs| == 0 then []
    else (if gs[0].name == name then [] else [gs[0]]) + RemoveNamed(gs[1..], name)
  }

  function WithoutGroup(l: Listing, name: string): Listing {
    match l
    case Unreachable => Unreachable
    case Groups(gs) => Groups(RemoveNamed(gs, name))
  }

  /** Replaces the versions of the group registered as `name`, when there is one. */
  function WithSchemas(l: Listing, name: string, ss: seq<SchemaVersion>): Listing {
    match l
    case Unreachable => Unreachable
    case Groups(gs) =>
      match FindGroup(gs, name)
      case None => l
      case Some(i) => Groups(gs[i := Group(name, ss)])
  }

  /** The listing after a version is added to the group `name`. */
  function WithVersion(l: Listing, name: string, sv: SchemaVersion): Listing {
    match l
    case Unreachable => Unreachable
    case Groups(gs) =>
      match FindGroup(gs, name)
      case None => l
      case Some(i) => WithSchemas(l, name, gs[i].schemas + [sv])
  }

  /** The listing after version `v` is deleted from the group `name`. */
  function WithoutVersion(l: Listing, name: string, v: nat): Listing {
    match l
    case Unreachable => Unreachable
    case Groups(gs) =>
      match FindGroup(gs, name)
      case None => l
      case Some(i) => WithSchemas(l, name, RemoveVersion(gs[i].schemas, v))
  }

  lemma {:induction false} WithGroupWellFormed(l: Listing, n: nat, name: string)
    requires WellFormed(l, n)
    ensures WellFormed(WithGroup(l, name), n)
  {
  }

  lemma {:induction false} WithoutGroupWellFormed(l: Listing, n: nat, name: string)
    requires WellFormed(l, n)
    ensures WellFormed(WithoutGroup(l, name), n)
  {
    if l.Groups? {
      var r := RemoveNamed(l.groups, name);
      RemoveNamedSubsequence(l.groups, name);
    }
  }

  /** The groups kept by `RemoveNamed` appear in their original order. */
  lemma {:induction false} RemoveNamedSubsequence(gs: seq<Group>, name: string)
    ensures var r := RemoveNamed(gs, name);
      DistinctNames(gs) ==> DistinctNames(r)
  {
    if |gs| > 0 {
      RemoveNamedSubsequence(gs[1..], name);
      var rest := RemoveNamed(gs[1..], name);
      if DistinctNames(gs) {
        assert DistinctNames(gs[1..]);
        forall g | g in rest ensures g.name != gs[0].name {
          var k :| 0 <= k < |gs[1..]| && gs[1..][k] == g;
          assert gs[k + 1] == g;
        }
      }
    }
  }

  lemma {:induction false} WithSchemasWellFormed(l: Listing, n: nat, name: string, ss: seq<SchemaVersion>)
    requires WellFormed(l, n) && Increasing(ss)
    requires forall k :: 0 <= k < |ss| ==> ss[k].version < n
    ensures WellFormed(WithSchemas(l, name, ss), n)
  {
  }

  /**
   * The registry behind the client. Group and schema operations change its listing; the
   * manager never holds it, so every operation of the manager only sees it through the
   * members below.
   */
  class SchemaRegistry {
    var listing: Listing
    var nextVersion: nat

    ghost predicate Valid()
      reads this
    {
      WellFormed(listing, nextVersion)
    }

    /** An empty registry, reachable or down. */
    constructor (reachable: bool)
      ensures Valid()
      ensures listing == (if reachable then Groups([]) else Unreachable) && nextVersion == 0
    {
      listing := if reachable then Groups([]) else Unreachable;
      nextVersion := 0;
    }

    /** `listGroups`: the group names in listing order, or nothing when the registry is
        down. */
    function GroupNames(): (r: Option<seq<string>>)
      reads this
      ensures r.None? <==> listing.Unreachable?
      ensures r.Some? ==> |r.value| == |listing.groups| &&
                          forall i :: 0 <= i < |r.value| ==> r.value[i] == listing.groups[i].name
    {
      match listing
      case Unreachable => None
      case Groups(gs) => Some(seq(|gs|, i requires 0 <= i < |gs| => gs[i].name))
    }

    /** `getSchemas`: the versions of the group registered as `group`. */
    function Schemas(group: string): (r: Result<seq<SchemaVersion>, Error>)
      reads this
      ensures listing.Unreachable? ==> r == Failure(RegistryUnreachable)
      ensures listing.Groups? && FindGroup(listing.groups, group).None? ==>
                r == Failure(ResourceNotFound(group))
      ensures listing.Groups? && FindGroup(listing.groups, group).Some? ==>
                r == Success(listing.groups[FindGroup(listing.groups, group).value].schemas)
    {
      match listing
      case Unreachable => Failure(RegistryUnreachable)
      case Groups(gs) =>
        match FindGroup(gs, group)
        case None => Failure(ResourceNotFound(group))
        case Some(i) => Success(gs[i].schemas)
    }

    /** `getLatestSchemaVersion` for a type listed in `group`: its last version there. */
    function LatestVersion(group: string, ss: seq<SchemaVersion>, k: nat): (r: SchemaVersion)
      reads this
      requires k < |ss| && Schemas(group) == Success(ss)
      ensures r.typeName == ss[k].typeName && r in ss
      ensures Valid() ==> forall m :: 0 <= m < |ss| && ss[m].typeName == ss[k].typeName ==>
                                      ss[m].version <= r.version
    {
      assert Valid() ==> Increasing(ss);
      forall m | 0 <= m < |ss| && ss[m].typeName == ss[k].typeName && Valid()
        ensures ss[m].version <= ss[LatestIndex(ss, k)].version
      {
        LatestIsHighest(ss, k, m);
      }
      ss[LatestIndex(ss, k)]
    }

    /** `addGroup`: true when the group was added, false when the name was taken. */
    method AddGroup(name: string) returns (r: Result<bool, Error>)
      requires Valid()
      modifies this
      ensures Valid()
      ensures listing == WithGroup(old(listing), name) && nextVersion == old(nextVersion)
      ensures old(listing).Unreachable? ==> r == Failure(RegistryUnreachable)
      ensures old(listing).Groups? ==> r == Success(FindGroup(old(listing).groups, name).None?)
    {
      WithGroupWellFormed(listing, nextVersion, name);
      match listing
      case Unreachable =>
        return Failure(RegistryUnreachable);
      case Groups(gs) =>
        if FindGroup(gs, name).Some? {
          return Success(false);
        }
        listing := Groups(gs + [Group(name, [])]);
        return Success(true);
    }

    /** `removeGroup`. */
    method RemoveGroup(name: string) returns (r: Result<bool, Error>)
      requires Valid()
      modifies this
      ensures Valid()
      ensures listing == WithoutGroup(old(listing), name) && nextVersion == old(nextVersion)
      ensures old(listing).Unreachable? ==> r == Failure(RegistryUnreachable)
      ensures old(listing).Groups? ==> r == Success(FindGroup(old(listing).groups, name).Some?)
    {
      WithoutGroupWellFormed(listing, nextVersion, name);
      match listing
      case Unreachable =>
        return Failure(RegistryUnreachable);
      case Groups(gs) =>
        var found := FindGroup(gs, name).Some?;
        listing := Groups(RemoveNamed(gs, name));
        return Success(found);
    }

    /** `addSchema`: appends a new version of type `typeName` to the group and returns
        its version number. */
    method AddSchema(group: string, typeName: string, payload: Payload) returns (r: Result<nat, Error>)
      requires Valid()
      modifies this
      ensures Valid()
      ensures old(listing).Unreachable? ==> r == Failure(RegistryUnreachable) && unchanged(this)
      ensures old(listing).Groups? && FindGroup(old(listing).groups, group).None? ==>
                r == Failure(ResourceNotFound(group)) && unchanged(this)
      ensures old(listing).Groups? && FindGroup(old(listing).groups, group).Some? ==>
                && r == Success(old(nextVersion))
                && listing == WithVersion(old(listing), group,
                                          SchemaVersion(typeName, old(nextVersion), payload))
                && nextVersion == old(nextVersion) + 1
    {
      match listing
      case Unreachable =>
        return Failure(RegistryUnreachable);
      case Groups(gs) =>
        match FindGroup(gs, group)
        case None =>
          return Failure(ResourceNotFound(group));
        case Some(i) =>
          var v := nextVersion;
          var ss := gs[i].schemas + [SchemaVersion(typeName, v, payload)];
          WithSchemasWellFormed(listing, v + 1, group, ss);
          listing := Groups(gs[i := Group(group, ss)]);
          nextVersion := v + 1;
          return Success(v);
    }

    /** `deleteSchemaVersion`. */
    method DeleteSchemaVersion(group: string, v: nat) returns (r: Result<bool, Error>)
      requires Valid()
      modifies this
      ensures Valid()
      ensures listing == WithoutVersion(old(listing), group, v) && nextVersion == old(nextVersion)
      ensures old(listing).Unreachable? ==> r == Failure(RegistryUnreachable)
      ensures old(listing).Groups? && FindGroup(old(listing).groups, group).None? ==>
                r == Failure(ResourceNotFound(group))
      ensures old(listing).Groups? && FindGroup(old(listing).groups, group).Some? ==> r == Success(true)
    {
      match listing
      case Unreachable =>
        return Failure(RegistryUnreachable);
      case Groups(gs) =>
        match FindGroup(gs, group)
        case None =>
          return Failure(ResourceNotFound(group));
        case Some(i) =>
          var ss := RemoveVersion(gs[i].schemas, v);
          RemoveVersionIncreasing(gs[i].schemas, v);
          RemoveVersionBelow(gs[i].schemas, v, nextVersion);
          WithSchemasWellFormed(listing, nextVersion, group, ss);
          listing := Groups(gs[i := Group(group, ss)]);
          return Success(true);
    }
  }
}
