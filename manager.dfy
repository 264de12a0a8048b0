/** The operations of `S3SchemaRegistryManager`, each over the registry its client talks
    to. The manager keeps no state of its own between calls, so the operations are
    methods of the module that read or change a `SchemaRegistry`. */
module Manager {
  import opened Results
  import opened Errors
  import opened Text
  import opened JsonModel
  import opened Catalog
  import opened TableEncoding
  import opened TableDecoding
  import opened RegistryState
  import opened Snapshot

  // ---------------------------------------------------------------------------------
  // What the existence checks look for

  /** Some listed group carries `name`, ignoring case. */
  predicate SchemaListed(l: Listing, name: string) {
    l.Groups? && exists i :: 0 <= i < |l.groups| && EqualsIgnoreCase(l.groups[i].name, name)
  }

  /** The first listed group whose name is `name` ignoring case. */
  function FirstMatching(gs: seq<Group>, name: string): (r: Option<nat>)
    ensures r.None? <==> forall i :: 0 <= i < |gs| ==> !EqualsIgnoreCase(gs[i].name, name)
    ensures r.Some? ==> r.value < |gs| && EqualsIgnoreCase(gs[r.value].name, name) &&
                        forall j :: 0 <= j < r.value ==> !EqualsIgnoreCase(gs[j].name, name)
  {
    if |gs| == 0 then None
    else if EqualsIgnoreCase(gs[0].name, name) then Some(0)
    else
      match FirstMatching(gs[1..], name)
      case None => None
      case Some(i) =>
        assert forall j :: 1 <= j < i + 1 ==> gs[j] == gs[1..][j - 1];
        Some(i + 1)
  }

  /** Some version of the group has type `table`, ignoring case. */
  predicate HasTable(g: Group, table: string) {
    exists k :: 0 <= k < |g.schemas| && EqualsIgnoreCase(g.schemas[k].typeName, table)
  }

  /** The first group matching `schema` ignoring case holds a type matching `table`;
      later groups matching `schema` are never looked at. */
  predicate TableListed(l: Listing, schema: string, table: string) {
    l.Groups? && FirstMatching(l.groups, schema).Some? &&
    HasTable(l.groups[FirstMatching(l.groups, schema).value], table)
  }

  /** `getSchemas` on the name of the first case-insensitive match finds that group: a
      group before it with the same exact name would have matched first. */
  lemma {:induction false} FirstMatchingFound(gs: seq<Group>, name: string)
    requires FirstMatching(gs, name).Some?
    ensures FindGroup(gs, gs[FirstMatching(gs, name).value].name) == FirstMatching(gs, name)
  {
  }

  // ---------------------------------------------------------------------------------
  // createGroup and dropGroup

  /** `createGroup`: adds the group; an unreachable registry makes `addGroup` throw. */
  method CreateGroup(reg: SchemaRegistry, name: string) returns (r: Result<(), Error>)
    requires reg.Valid()
    modifies reg
    ensures reg.Valid()
    ensures reg.listing == WithGroup(old(reg.listing), name) && reg.nextVersion == old(reg.nextVersion)
    ensures r.Failure? <==> old(reg.listing).Unreachable?
    ensures r.Failure? ==> r.error == RegistryUnreachable
  {
    var added := reg.AddGroup(name);
    if added.Failure? {
      return Failure(added.error);
    }
    return Success(());
  }

  /** `dropGroup`: removes the group; an unreachable registry makes `removeGroup` throw. */
  method DropGroup(reg: SchemaRegistry, name: string) returns (r: Result<(), Error>)
    requires reg.Valid()
    modifies reg
    ensures reg.Valid()
    ensures reg.listing == WithoutGroup(old(reg.listing), name) && reg.nextVersion == old(reg.nextVersion)
    ensures r.Failure? <==> old(reg.listing).Unreachable?
    ensures r.Failure? ==> r.error == RegistryUnreachable
  {
    var removed := reg.RemoveGroup(name);
    if removed.Failure? {
      return Failure(removed.error);
    }
    return Success(());
  }

  /** After `createGroup` on a reachable registry the schema exists. */
  lemma {:induction false} CreatedGroupListed(l: Listing, name: string)
    requires l.Groups?
    ensures SchemaListed(WithGroup(l, name), name)
  {
    var gs := WithGroup(l, name).groups;
    match FindGroup(l.groups, name)
    case Some(i) =>
      assert gs[i].name == name;
      assert EqualsIgnoreCase(gs[i].name, name);
    case None =>
      assert gs[|gs| - 1].name == name;
      assert EqualsIgnoreCase(gs[|gs| - 1].name, name);
  }

  /** After `dropGroup` no group carries the exact name, every other group is kept, and the
      schema still exists only through a group whose name differs from it in case. */
  lemma {:induction false} DroppedGroupGone(l: Listing, name: string)
    requires l.Groups?
    ensures var gs := WithoutGroup(l, name).groups;
      && (forall g :: g in gs <==> g in l.groups && g.name != name)
      && (SchemaListed(WithoutGroup(l, name), name) <==>
            exists i :: 0 <= i < |l.groups| && l.groups[i].name != name &&
                        EqualsIgnoreCase(l.groups[i].name, name))
  {
    var gs := WithoutGroup(l, name).groups;
    if SchemaListed(WithoutGroup(l, name), name) {
      var i :| 0 <= i < |gs| && EqualsIgnoreCase(gs[i].name, name);
      assert gs[i] in gs;
      var j :| 0 <= j < |l.groups| && l.groups[j] == gs[i];
    }
    if exists i :: 0 <= i < |l.groups| && l.groups[i].name != name &&
                   EqualsIgnoreCase(l.groups[i].name, name) {
      var i :| 0 <= i < |l.groups| && l.groups[i].name != name &&
               EqualsIgnoreCase(l.groups[i].name, name);
      assert l.groups[i] in l.groups;
      var j :| 0 <= j < |gs| && gs[j] == l.groups[i];
    }
  }

  // ---------------------------------------------------------------------------------
  // createTable

  /** `createTable`: builds the document and stores it as a new version of the type named
      after the table in the group named after the schema. Every exception of the document
      building comes first, since the client only talks to the registry in `addSchema`. */
  method CreateTable(cfg: Config, reg: SchemaRegistry, t: TableMetadata) returns (r: Result<(), Error>)
    requires reg.Valid()
    modifies reg
    ensures reg.Valid()
    ensures Encode(cfg, t).Failure? ==> r == Failure(Encode(cfg, t).error) && unchanged(reg)
    ensures Encode(cfg, t).Success? && old(reg.listing).Unreachable? ==>
              r == Failure(RegistryUnreachable) && unchanged(reg)
    ensures Encode(cfg, t).Success? && old(reg.listing).Groups? &&
            FindGroup(old(reg.listing).groups, t.schemaName).None? ==>
              r == Failure(ResourceNotFound(t.schemaName)) && unchanged(reg)
    ensures Encode(cfg, t).Success? && old(reg.listing).Groups? &&
            FindGroup(old(reg.listing).groups, t.schemaName).Some? ==>
              && r == Success(())
              && reg.listing == WithVersion(old(reg.listing), t.schemaName,
                   SchemaVersion(t.tableName, old(reg.nextVersion), Doc(Encode(cfg, t).value)))
              && reg.nextVersion == old(reg.nextVersion) + 1
  {
    var doc :- EncodeTable(cfg, t);
    var added :- reg.AddSchema(t.schemaName, t.tableName, Doc(doc));
    return Success(());
  }

  /** After a table is stored in a group that is the first case-insensitive match of its
      schema name, `tableSchemaExists` finds it. */
  lemma {:induction false} CreatedTableListed(l: Listing, schema: string, sv: SchemaVersion)
    requires l.Groups? && FindGroup(l.groups, schema).Some?
    requires FirstMatching(l.groups, schema) == FindGroup(l.groups, schema)
    ensures TableListed(WithVersion(l, schema, sv), schema, sv.typeName)
  {
    var i := FindGroup(l.groups, schema).value;
    var gs := WithVersion(l, schema, sv).groups;
    assert forall j :: 0 <= j < |gs| ==> gs[j].name == l.groups[j].name;
    assert FirstMatching(gs, schema) == Some(i);
    var ss := gs[i].schemas;
    assert ss[|ss| - 1] == sv;
    assert EqualsIgnoreCase(sv.typeName, sv.typeName);
  }

  /** After a table is stored, the new version is the latest of every version listed in
      its group under the same type, so those entries of the snapshot all decode it. */
  lemma {:induction false} CreatedTableIsLatest(l: Listing, schema: string, sv: SchemaVersion, k: nat)
    requires l.Groups? && FindGroup(l.groups, schema).Some?
    requires var ss := WithVersion(l, schema, sv).groups[FindGroup(l.groups, schema).value].schemas;
      k < |ss| && ss[k].typeName == sv.typeName
    ensures var ss := WithVersion(l, schema, sv).groups[FindGroup(l.groups, schema).value].schemas;
      ss[LatestIndex(ss, k)] == sv
  {
    var ss := WithVersion(l, schema, sv).groups[FindGroup(l.groups, schema).value].schemas;
    assert ss[|ss| - 1] == sv;
  }

  // ---------------------------------------------------------------------------------
  // dropTable

  /** The versions whose type differs from `table` ignoring case, in their order. */
  function Unmatched(ss: seq<SchemaVersion>, table: string): (r: seq<SchemaVersion>)
    ensures |r| <= |ss|
  {
    if |ss| == 0 then []
    else
      Unmatched(ss[..|ss| - 1], table) +
      (if EqualsIgnoreCase(ss[|ss| - 1].typeName, table) then [] else [ss[|ss| - 1]])
  }

  /** The versions kept are exactly those of other types. */
  lemma {:induction false} UnmatchedMembers(ss: seq<SchemaVersion>, table: string)
    ensures forall x :: x in Unmatched(ss, table) <==> x in ss && !EqualsIgnoreCase(x.typeName, table)
  {
    if |ss| > 0 {
      UnmatchedMembers(ss[..|ss| - 1], table);
      assert ss == ss[..|ss| - 1] + [ss[|ss| - 1]];
    }
  }

  /** The listing after `dropTable`: nothing changes when the registry is down or the group
      is missing; otherwise the group keeps only the versions of other types. */
  function DroppedTable(l: Listing, schema: string, table: string): Listing {
    match l
    case Unreachable => l
    case Groups(gs) =>
      match FindGroup(gs, schema)
      case None => l
      case Some(i) => WithSchemas(l, schema, Unmatched(gs[i].schemas, table))
  }

  /** In a group whose versions grow, the version at `i` is neither among the kept
      versions before it nor among the versions after it. */
  lemma {:induction false} OtherVersions(ss: seq<SchemaVersion>, i: nat, table: string)
    requires Increasing(ss) && i < |ss|
    ensures forall k :: 0 <= k < |Unmatched(ss[..i], table)| ==>
      Unmatched(ss[..i], table)[k].version != ss[i].version
    ensures forall k :: i + 1 <= k < |ss| ==> ss[k].version != ss[i].version
  {
    var a := Unmatched(ss[..i], table);
    UnmatchedMembers(ss[..i], table);
    forall k | 0 <= k < |a| ensures a[k].version != ss[i].version {
      assert a[k] in ss[..i];
      var j :| 0 <= j < i && ss[..i][j] == a[k];
      assert ss[j] == a[k];
    }
  }

  /** Deleting one of the matching versions, in listing order, from a group whose versions
      grow. */
  lemma {:induction false} DeleteNextMatch(ss: seq<SchemaVersion>, i: nat, table: string)
    requires Increasing(ss) && i < |ss| && EqualsIgnoreCase(ss[i].typeName, table)
    ensures RemoveVersion(Unmatched(ss[..i], table) + ss[i..], ss[i].version) ==
            Unmatched(ss[..i + 1], table) + ss[i + 1..]
  {
    var a := Unmatched(ss[..i], table);
    var b := ss[i + 1..];
    OtherVersions(ss, i, table);
    assert ss[i..] == [ss[i]] + b;
    assert Unmatched(ss[..i + 1], table) == a by {
      assert ss[..i + 1][..i] == ss[..i];
    }
    RemoveMiddle(a, ss[i], b);
  }

  /** Deleting the version of `x` between versions of other numbers. */
  lemma {:induction false} RemoveMiddle(a: seq<SchemaVersion>, x: SchemaVersion, b: seq<SchemaVersion>)
    requires forall k :: 0 <= k < |a| ==> a[k].version != x.version
    requires forall k :: 0 <= k < |b| ==> b[k].version != x.version
    ensures RemoveVersion(a + ([x] + b), x.version) == a + b
  {
    RemoveVersionAppend(a, [x] + b, x.version);
    RemoveVersionAppend([x], b, x.version);
    RemoveAbsentVersion(a, x.version);
    RemoveAbsentVersion(b, x.version);
    assert RemoveVersion([x], x.version) == [];
  }

  /** Passing over a version of another type. */
  lemma {:induction false} SkipNextVersion(ss: seq<SchemaVersion>, i: nat, table: string)
    requires i < |ss| && !EqualsIgnoreCase(ss[i].typeName, table)
    ensures Unmatched(ss[..i], table) + ss[i..] == Unmatched(ss[..i + 1], table) + ss[i + 1..]
  {
    assert ss[..i + 1][..i] == ss[..i];
    assert ss[..i + 1][i] == ss[i];
    assert ss[i..] == [ss[i]] + ss[i + 1..];
  }

  /** Replacing the versions of a group keeps every group name, so it keeps the position
      at which a name is found. */
  lemma {:induction false} FindAfterUpdate(gs: seq<Group>, gi: nat, ss: seq<SchemaVersion>, name: string)
    requires gi < |gs|
    ensures FindGroup(gs[gi := Group(gs[gi].name, ss)], name) == FindGroup(gs, name)
  {
    var hs := gs[gi := Group(gs[gi].name, ss)];
    assert forall j :: 0 <= j < |gs| ==> hs[j].name == gs[j].name;
  }

  /** Deleting a version from the group at `gi`, whose versions are `ss`. */
  lemma {:induction false} DeleteAt(gs: seq<Group>, gi: nat, ss: seq<SchemaVersion>, v: nat)
    requires gi < |gs|
    requires FindGroup(gs, gs[gi].name) == Some(gi)
    ensures var name := gs[gi].name;
      WithoutVersion(Groups(gs[gi := Group(name, ss)]), name, v) ==
      Groups(gs[gi := Group(name, RemoveVersion(ss, v))])
  {
    FindAfterUpdate(gs, gi, ss, gs[gi].name);
  }

  /** The listing after `dropTable` on a group that is listed. */
  lemma {:induction false} DroppedTableAt(gs: seq<Group>, schema: string, table: string)
    requires FindGroup(gs, schema).Some?
    ensures var gi := FindGroup(gs, schema).value;
      DroppedTable(Groups(gs), schema, table) ==
      Groups(gs[gi := Group(schema, Unmatched(gs[gi].schemas, table))])
  {
  }

  /** `dropTable`: deletes every version of the group whose type matches the table name
      ignoring case; an unreachable registry or a missing group ends it without a trace. */
  method DropTable(reg: SchemaRegistry, schema: string, table: string)
    requires reg.Valid()
    modifies reg
    ensures reg.Valid()
    ensures reg.listing == DroppedTable(old(reg.listing), schema, table)
    ensures reg.nextVersion == old(reg.nextVersion)
  {
    var listed := reg.Schemas(schema);
    if listed.Failure? {
      return;
    }
    ghost var gs := reg.listing.groups;
    DroppedTableAt(gs, schema, table);
    DeleteMatching(reg, schema, table, listed.value, gs, FindGroup(gs, schema).value);
  }

  /** The loop of `dropTable` over the versions `ss` listed for the group at `gi`. */
  method DeleteMatching(reg: SchemaRegistry, schema: string, table: string,
                        ss: seq<SchemaVersion>, ghost gs: seq<Group>, ghost gi: nat)
    requires reg.Valid() && reg.listing == Groups(gs)
    requires FindGroup(gs, schema) == Some(gi) && gs[gi].schemas == ss
    modifies reg
    ensures reg.Valid() && reg.nextVersion == old(reg.nextVersion)
    ensures reg.listing == Groups(gs[gi := Group(schema, Unmatched(ss, table))])
  {
    assert Increasing(ss);
    PendingBounds(ss, table);
    assert gs[gi := Group(schema, ss)] == gs;
    var i := 0;
    while i < |ss|
      invariant 0 <= i <= |ss|
      invariant reg.Valid() && reg.nextVersion == old(reg.nextVersion)
      invariant reg.listing == Groups(gs[gi := Group(schema, Unmatched(ss[..i], table) + ss[i..])])
    {
      DeleteIfMatching(reg, schema, table, ss, i, gs, gi);
      i := i + 1;
    }
  }

  /** One turn of the loop of `dropTable`: the version at `i` is deleted when its type
      matches the table name. */
  method DeleteIfMatching(reg: SchemaRegistry, schema: string, table: string,
                          ss: seq<SchemaVersion>, i: nat, ghost gs: seq<Group>, ghost gi: nat)
    requires reg.Valid() && FindGroup(gs, schema) == Some(gi) && gs[gi].schemas == ss && i < |ss|
    requires Increasing(ss)
    requires reg.listing == Groups(gs[gi := Group(schema, Unmatched(ss[..i], table) + ss[i..])])
    modifies reg
    ensures reg.Valid() && reg.nextVersion == old(reg.nextVersion)
    ensures reg.listing == Groups(gs[gi := Group(schema, Unmatched(ss[..i + 1], table) + ss[i + 1..])])
  {
    if EqualsIgnoreCase(ss[i].typeName, table) {
      DeleteNextMatch(ss, i, table);
      DeleteAt(gs, gi, Unmatched(ss[..i], table) + ss[i..], ss[i].version);
      var _ := reg.DeleteSchemaVersion(schema, ss[i].version);
    } else {
      SkipNextVersion(ss, i, table);
    }
  }

  /** Before the loop of `dropTable` every version is pending; after it, the versions of
      other types are. */
  lemma {:induction false} PendingBounds(ss: seq<SchemaVersion>, table: string)
    ensures Unmatched(ss[..0], table) + ss[0..] == ss
    ensures Unmatched(ss[..|ss|], table) + ss[|ss|..] == Unmatched(ss, table)
  {
    assert ss[..0] == [] && ss[0..] == ss;
    assert ss[..|ss|] == ss && ss[|ss|..] == [];
  }

  /** `dropTable` removes exactly the versions of the table: what is left of the group is
      its versions of other types, and every other group is untouched. */
  lemma {:induction false} DroppedTableContents(l: Listing, schema: string, table: string)
    requires l.Groups? && FindGroup(l.groups, schema).Some?
    ensures var i := FindGroup(l.groups, schema).value;
      var after := DroppedTable(l, schema, table);
      && after.Groups? && |after.groups| == |l.groups|
      && after.groups[i].name == l.groups[i].name
      && (forall x :: x in after.groups[i].schemas <==>
            x in l.groups[i].schemas && !EqualsIgnoreCase(x.typeName, table))
      && (forall j :: 0 <= j < |l.groups| && j != i ==> after.groups[j] == l.groups[j])
  {
    UnmatchedMembers(l.groups[FindGroup(l.groups, schema).value].schemas, table);
  }

  /** After `dropTable` on the group `tableSchemaExists` consults, the table is gone. */
  lemma {:induction false} DroppedTableNotListed(l: Listing, schema: string, table: string)
    requires l.Groups? && FindGroup(l.groups, schema).Some?
    requires FirstMatching(l.groups, schema) == FindGroup(l.groups, schema)
    ensures !TableListed(DroppedTable(l, schema, table), schema, table)
  {
    var i := FindGroup(l.groups, schema).value;
    var gs := DroppedTable(l, schema, table).groups;
    assert forall j :: 0 <= j < |gs| ==> gs[j].name == l.groups[j].name;
    assert FirstMatching(gs, schema) == Some(i);
    var ss := gs[i].schemas;
    UnmatchedMembers(l.groups[i].schemas, table);
    forall k | 0 <= k < |ss| ensures !EqualsIgnoreCase(ss[k].typeName, table) {
      assert ss[k] in ss;
    }
  }

  // ---------------------------------------------------------------------------------
  // schemaExists and tableSchemaExists

  /** `schemaExists`: false when the registry is down or lists no group, otherwise whether
      some group name matches ignoring case. */
  method SchemaExists(reg: SchemaRegistry, name: string) returns (b: bool)
    ensures b <==> SchemaListed(reg.listing, name)
  {
    var listed := reg.GroupNames();
    if listed.None? || |listed.value| == 0 {
      return false;
    }
    var names := listed.value;
    var i := 0;
    while i < |names|
      invariant 0 <= i <= |names|
      invariant forall j :: 0 <= j < i ==> !EqualsIgnoreCase(reg.listing.groups[j].name, name)
    {
      if EqualsIgnoreCase(names[i], name) {
        return true;
      }
      i := i + 1;
    }
    return false;
  }

  /** `tableSchemaExists`: false when the registry is down or lists no group; otherwise
      the first group matching the schema name decides, by whether one of its types
      matches the table name, both ignoring case. */
  method TableSchemaExists(reg: SchemaRegistry, schema: string, table: string) returns (b: bool)
    ensures b <==> TableListed(reg.listing, schema, table)
  {
    var listed := reg.GroupNames();
    if listed.None? || |listed.value| == 0 {
      return false;
    }
    var names := listed.value;
    ghost var gs := reg.listing.groups;
    var i := 0;
    while i < |names|
      invariant 0 <= i <= |names|
      invariant forall j :: 0 <= j < i ==> !EqualsIgnoreCase(gs[j].name, schema)
    {
      if !EqualsIgnoreCase(names[i], schema) {
        i := i + 1;
        continue;
      }
      assert FirstMatching(gs, schema) == Some(i);
      FirstMatchingFound(gs, schema);
      var types := reg.Schemas(names[i]).value;
      assert types == gs[i].schemas;
      b := AnyTypeMatches(types, table);
      return;
    }
    return false;
  }

  /** The inner loop of `tableSchemaExists`: whether one of the versions has the table's
      type name ignoring case. */
  method AnyTypeMatches(types: seq<SchemaVersion>, table: string) returns (b: bool)
    ensures b <==> exists k :: 0 <= k < |types| && EqualsIgnoreCase(types[k].typeName, table)
  {
    var k := 0;
    while k < |types|
      invariant 0 <= k <= |types|
      invariant forall m :: 0 <= m < k ==> !EqualsIgnoreCase(types[m].typeName, table)
    {
      if EqualsIgnoreCase(types[k].typeName, table) {
        return true;
      }
      k := k + 1;
    }
    return false;
  }

  /** `schemaExists` holds whenever `tableSchemaExists` does. */
  lemma {:induction false} TableListedSchemaListed(l: Listing, schema: string, table: string)
    requires TableListed(l, schema, table)
    ensures SchemaListed(l, schema)
  {
    var i := FirstMatching(l.groups, schema).value;
    assert EqualsIgnoreCase(l.groups[i].name, schema);
  }

  // ---------------------------------------------------------------------------------
  // getSchemaRegistryConfig

  /** The body of the group loop of `getSchemaRegistryConfig` for the group `name`: the
      latest version of each listed type is decoded and its entry appended, stopping at
      the first document that does not decode; a group without schemas contributes its
      bare entry. */
  method ReadGroup(reg: SchemaRegistry, name: string, entries: seq<Json>) returns (w: Walk)
    requires reg.Valid() && reg.Schemas(name).Success?
    ensures w == Continue(DecodeDocument, Collected(entries), Block(Group(name, reg.Schemas(name).value)))
  {
    var ss := reg.Schemas(name).value;
    ghost var block := Block(Group(name, ss));
    var collected := entries;
    var groupHasSchemas := false;
    var k := 0;
    while k < |ss|
      invariant 0 <= k <= |ss|
      invariant groupHasSchemas <==> k > 0
      invariant Walked(DecodeDocument, Collected(entries), block, k) == Collected(collected)
    {
      groupHasSchemas := true;
      var latest := reg.LatestVersion(name, ss, k);
      BlockStep(DecodeDocument, Collected(entries), name, ss, k);
      var d := DecodePayload(latest.payload);
      if !d.Entry? {
        WalkedStopped(DecodeDocument, Collected(entries), block, k + 1, |block|);
        return if d.Unreadable? then Abandoned else Raised(d.error);
      }
      collected := collected + [d.entry];
      k := k + 1;
    }
    if !groupHasSchemas {
      BlockBare(DecodeDocument, entries, name);
      return Collected(collected + [GroupOnlyEntry(name)]);
    }
    return Collected(collected);
  }

  /** `getSchemas` on the `gi`-th listed name finds the `gi`-th group, names being unique. */
  lemma {:induction false} NamedGroup(reg: SchemaRegistry, names: seq<string>, gi: nat)
    requires reg.Valid() && reg.listing.Groups? && gi < |names| == |reg.listing.groups|
    requires forall i :: 0 <= i < |names| ==> names[i] == reg.listing.groups[i].name
    ensures reg.Schemas(names[gi]).Success?
    ensures Group(names[gi], reg.Schemas(names[gi]).value) == reg.listing.groups[gi]
  {
    FindDistinct(reg.listing.groups, gi);
  }

  /** `getSchemaRegistryConfig`: walks the groups in listing order and, in each, the listed
      versions, decoding the latest version of each listed type; see `RegistryConfig`. */
  method GetSchemaRegistryConfig(reg: SchemaRegistry) returns (r: Result<Json, Error>)
    requires reg.Valid()
    ensures r == RegistryConfig(reg.listing)
  {
    var listed := reg.GroupNames();
    if listed.None? || |listed.value| == 0 {
      return Success(JObject([]));
    }
    ConfigByGroups(DecodeDocument, reg.listing.groups);
    var w := ReadGroups(reg, listed.value);
    match w
    case Abandoned =>
      return Success(JObject([]));
    case Raised(err) =>
      return Failure(err);
    case Collected(entries) =>
      if |entries| > 0 {
        return Success(JObject([("schemas", JArray(entries))]));
      }
      return Success(JObject([]));
  }

  /** The loop of `getSchemaRegistryConfig` over the group names: it reads group after
      group and stops at the first one that ends the walk. */
  method ReadGroups(reg: SchemaRegistry, names: seq<string>) returns (w: Walk)
    requires reg.Valid() && reg.listing.Groups? && |names| == |reg.listing.groups|
    requires forall i :: 0 <= i < |names| ==> names[i] == reg.listing.groups[i].name
    ensures w == WalkGroups(DecodeDocument, reg.listing.groups, |reg.listing.groups|)
  {
    ghost var gs := reg.listing.groups;
    var entries: seq<Json> := [];
    var gi := 0;
    while gi < |names|
      invariant 0 <= gi <= |names|
      invariant WalkGroups(DecodeDocument, gs, gi) == Collected(entries)
    {
      NamedGroup(reg, names, gi);
      w := ReadGroup(reg, names[gi], entries);
      if !w.Collected? {
        WalkGroupsStopped(DecodeDocument, gs, gi + 1, |gs|);
        return;
      }
      entries := w.entries;
      gi := gi + 1;
    }
    return Collected(entries);
  }
}

