/** What `getSchemaRegistryConfig` returns for a registry listing: the catalog in the
    layout of the static schema configuration file, with one entry per listed schema
    version and one bare entry per group without schemas. */
module Snapshot {
  import opened Results
  import opened Errors
  import opened JsonModel
  import opened TableDecoding
  import opened RegistryState

  /** The walk through the listing: entries gathered so far, abandoned on an unparsable
      document, or left by an exception. */
  datatype Walk = Collected(entries: seq<Json>) | Abandoned | Raised(error: Error)

  /** The entry for a group that holds no schemas: only its name, as `schema_name`. */
  function GroupOnlyEntry(name: string): Json {
    JObject([("schemaTableName", JObject([("schema_name", JString(name))]))])
  }

  /** What one listed position stands for: a group without schemas, or the latest
      version of the type listed there. */
  datatype Item = Bare(group: string) | Stored(payload: Payload)

  /** What an item contributes under a decoding of documents: the bare entry, or the
      decoding of the document. */
  function Read(decode: Payload -> Decoded, it: Item): Decoded {
    match it
    case Bare(name) => Entry(GroupOnlyEntry(name))
    case Stored(p) => decode(p)
  }

  /** What the listing yields for a group, in order: the latest version of each listed
      version's type, or the bare entry when the group is empty. */
  function Block(g: Group): (b: seq<Item>)
    ensures |b| == if |g.schemas| == 0 then 1 else |g.schemas|
  {
    if |g.schemas| == 0 then [Bare(g.name)] else Latests(g.schemas, |g.schemas|)
  }

  /** The latest version of the type of each of the first `n` listed versions. */
  function Latests(ss: seq<SchemaVersion>, n: nat): (r: seq<Item>)
    requires n <= |ss|
    ensures |r| == n
  {
    if n == 0 then [] else Latests(ss, n - 1) + [Stored(ss[LatestIndex(ss, n - 1)].payload)]
  }

  lemma {:induction false} LatestsAt(ss: seq<SchemaVersion>, n: nat, k: nat)
    requires k < n <= |ss|
    ensures Latests(ss, n)[k] == Stored(ss[LatestIndex(ss, k)].payload)
  {
    if k < n - 1 {
      LatestsAt(ss, n - 1, k);
    }
  }

  /** The blocks of the first `n` groups, one after the other. */
  function Items(gs: seq<Group>, n: nat): (its: seq<Item>)
    requires n <= |gs|
    ensures |its| >= n
  {
    if n == 0 then [] else Items(gs, n - 1) + Block(gs[n - 1])
  }

  /** One more document: an entry is appended, anything else ends the walk. */
  function Step(w: Walk, d: Decoded): Walk {
    match w
    case Collected(es) =>
      (match d
       case Entry(e) => Collected(es + [e])
       case Unreadable => Abandoned
       case Throws(err) => Raised(err))
    case _ => w
  }

  /** The walk from `w` over the first `n` items. */
  function Walked(decode: Payload -> Decoded, w: Walk, its: seq<Item>, n: nat): Walk
    requires n <= |its|
  {
    if n == 0 then w else Step(Walked(decode, w, its, n - 1), Read(decode, its[n - 1]))
  }

  /** The walk continued from `w` over all of `its`. */
  function Continue(decode: Payload -> Decoded, w: Walk, its: seq<Item>): Walk {
    Walked(decode, w, its, |its|)
  }

  /** The walk over `its` from nothing collected. */
  function WalkOf(decode: Payload -> Decoded, its: seq<Item>): Walk {
    Continue(decode, Collected([]), its)
  }

  /** The walk over a prefix depends only on the items of that prefix. */
  lemma {:induction false} WalkedAgree(decode: Payload -> Decoded, w: Walk, a: seq<Item>, b: seq<Item>, n: nat)
    requires n <= |a| && n <= |b| && forall i :: 0 <= i < n ==> a[i] == b[i]
    ensures Walked(decode, w, a, n) == Walked(decode, w, b, n)
  {
    if n > 0 {
      WalkedAgree(decode, w, a, b, n - 1);
    }
  }

  lemma {:induction false} WalkedAppend(decode: Payload -> Decoded, w: Walk, a: seq<Item>, b: seq<Item>, j: nat)
    requires j <= |b|
    ensures Walked(decode, w, a + b, |a| + j) == Walked(decode, Continue(decode, w, a), b, j)
  {
    if j == 0 {
      WalkedAgree(decode, w, a + b, a, |a|);
    } else {
      WalkedAppend(decode, w, a, b, j - 1);
      assert (a + b)[|a| + j - 1] == b[j - 1];
    }
  }

  /** Walking two runs of items is walking the first, then continuing over the second. */
  lemma {:induction false} ContinueAppend(decode: Payload -> Decoded, w: Walk, a: seq<Item>, b: seq<Item>)
    ensures Continue(decode, w, a + b) == Continue(decode, Continue(decode, w, a), b)
  {
    WalkedAppend(decode, w, a, b, |b|);
  }

  /** A walk that has stopped stays stopped, whatever follows. */
  lemma {:induction false} WalkedStopped(decode: Payload -> Decoded, w: Walk, its: seq<Item>, k: nat, n: nat)
    requires k <= n <= |its| && !Walked(decode, w, its, k).Collected?
    ensures Walked(decode, w, its, n) == Walked(decode, w, its, k)
  {
    if k < n {
      WalkedStopped(decode, w, its, k, n - 1);
    }
  }

  /** Walking the block of a group one listed version further decodes the latest version
      of that version's type. */
  lemma {:induction false} BlockStep(decode: Payload -> Decoded, w: Walk, name: string, ss: seq<SchemaVersion>, k: nat)
    requires k < |ss|
    ensures Walked(decode, w, Block(Group(name, ss)), k + 1) ==
            Step(Walked(decode, w, Block(Group(name, ss)), k), decode(ss[LatestIndex(ss, k)].payload))
  {
    LatestsAt(ss, |ss|, k);
  }

  /** Walking the block of a group without schemas appends its bare entry. */
  lemma {:induction false} BlockBare(decode: Payload -> Decoded, es: seq<Json>, name: string)
    ensures Continue(decode, Collected(es), Block(Group(name, []))) == Collected(es + [GroupOnlyEntry(name)])
  {
    var b := Block(Group(name, []));
    assert b == [Bare(name)];
    assert Walked(decode, Collected(es), b, 0) == Collected(es);
  }

  /** The walk over the first `n` groups, group by group. */
  function WalkGroups(decode: Payload -> Decoded, gs: seq<Group>, n: nat): Walk
    requires n <= |gs|
  {
    if n == 0 then Collected([]) else Continue(decode, WalkGroups(decode, gs, n - 1), Block(gs[n - 1]))
  }

  /** Walking group by group is walking the items of the groups. */
  lemma {:induction false} WalkGroupsItems(decode: Payload -> Decoded, gs: seq<Group>, n: nat)
    requires n <= |gs|
    ensures WalkGroups(decode, gs, n) == WalkOf(decode, Items(gs, n))
  {
    if n > 0 {
      WalkGroupsItems(decode, gs, n - 1);
      ContinueAppend(decode, Collected([]), Items(gs, n - 1), Block(gs[n - 1]));
    }
  }

  /** Once the walk over the first `m` groups has stopped, later groups change nothing. */
  lemma {:induction false} WalkGroupsStopped(decode: Payload -> Decoded, gs: seq<Group>, m: nat, n: nat)
    requires m <= n <= |gs| && !WalkGroups(decode, gs, m).Collected?
    ensures WalkGroups(decode, gs, n) == WalkGroups(decode, gs, m)
  {
    if m < n {
      var w := WalkGroups(decode, gs, m);
      WalkGroupsStopped(decode, gs, m, n - 1);
      WalkedStopped(decode, w, Block(gs[n - 1]), 0, |Block(gs[n - 1])|);
    }
  }

  /** The result of `getSchemaRegistryConfig`: the configuration under the decoding the
      manager applies to each document. */
  function RegistryConfig(l: Listing): Result<Json, Error> {
    ConfigBy(DecodeDocument, l)
  }

  /** The configuration for a listing, under any decoding of documents. */
  function ConfigBy(decode: Payload -> Decoded, l: Listing): Result<Json, Error> {
    match l
    case Unreachable => Success(JObject([]))
    case Groups(gs) =>
      if |gs| == 0 then Success(JObject([]))
      else
        ResultOf(WalkOf(decode, Items(gs, |gs|)))
  }

  /** What the call returns once the walk is over: `{}` after an unparsable document, the
      exception of a throwing one, and otherwise the `schemas` array of the entries, left
      out when there are none. */
  function ResultOf(w: Walk): Result<Json, Error> {
    match w
    case Abandoned => Success(JObject([]))
    case Raised(err) => Failure(err)
    case Collected(es) =>
      if |es| > 0 then Success(JObject([("schemas", JArray(es))])) else Success(JObject([]))
  }

  /** The configuration of a non-empty listing, from its walk group by group. */
  lemma {:induction false} ConfigByGroups(decode: Payload -> Decoded, gs: seq<Group>)
    requires |gs| > 0
    ensures ConfigBy(decode, Groups(gs)) == ResultOf(WalkGroups(decode, gs, |gs|))
  {
    WalkGroupsItems(decode, gs, |gs|);
  }

  // ---------------------------------------------------------------------------------
  // Properties of the walk

  /** Every item yields an entry. */
  predicate AllEntries(decode: Payload -> Decoded, its: seq<Item>) {
    forall i :: 0 <= i < |its| ==> Read(decode, its[i]).Entry?
  }

  /** The entries of items that all yield one. */
  function EntriesOf(decode: Payload -> Decoded, its: seq<Item>): (es: seq<Json>)
    requires AllEntries(decode, its)
    ensures |es| == |its| && forall i :: 0 <= i < |its| ==> es[i] == Read(decode, its[i]).entry
  {
    seq(|its|, i requires 0 <= i < |its| => Read(decode, its[i]).entry)
  }

  /** The walk over the first `n` items collects exactly when each of them yields an
      entry, and then holds their entries in order. */
  lemma {:induction false} WalkedCollects(decode: Payload -> Decoded, its: seq<Item>, n: nat)
    requires n <= |its|
    ensures var w := Walked(decode, Collected([]), its, n);
      (w.Collected? <==> forall i :: 0 <= i < n ==> Read(decode, its[i]).Entry?) &&
      (w.Collected? ==> |w.entries| == n &&
                        forall i :: 0 <= i < n ==> w.entries[i] == Read(decode, its[i]).entry)
  {
    if n > 0 {
      WalkedCollects(decode, its, n - 1);
    }
  }

  /** The walk collects every entry exactly when every item yields one. */
  lemma {:induction false} WalkCollects(decode: Payload -> Decoded, its: seq<Item>)
    ensures WalkOf(decode, its).Collected? <==> AllEntries(decode, its)
    ensures WalkOf(decode, its).Collected? ==> WalkOf(decode, its).entries == EntriesOf(decode, its)
  {
    WalkedCollects(decode, its, |its|);
  }

  /** The first item that yields no entry decides the walk: an unparsable document
      abandons it and a throwing one raises its error. */
  lemma {:induction false} WalkStopsAtFirst(decode: Payload -> Decoded, its: seq<Item>, k: nat)
    requires k < |its| && !Read(decode, its[k]).Entry? && AllEntries(decode, its[..k])
    ensures Read(decode, its[k]).Unreadable? ==> WalkOf(decode, its) == Abandoned
    ensures Read(decode, its[k]).Throws? ==> WalkOf(decode, its) == Raised(Read(decode, its[k]).error)
  {
    assert forall i :: 0 <= i < k ==> its[..k][i] == its[i];
    WalkedCollects(decode, its, k);
    WalkedStopped(decode, Collected([]), its, k + 1, |its|);
  }

  /** The runs `f(xs[0])`, ..., `f(xs[n - 1])`, one after the other. */
  function Concat<X, T>(f: X -> seq<T>, xs: seq<X>, n: nat): seq<T>
    requires n <= |xs|
  {
    if n == 0 then [] else Concat(f, xs, n - 1) + f(xs[n - 1])
  }

  /** The run of `xs[i]` follows the runs of the elements before it. */
  lemma {:induction false} ConcatAt<X, T>(f: X -> seq<T>, xs: seq<X>, n: nat, i: nat, k: nat)
    requires i < n <= |xs| && k < |f(xs[i])|
    ensures |Concat(f, xs, i)| + k < |Concat(f, xs, n)|
    ensures Concat(f, xs, n)[|Concat(f, xs, i)| + k] == f(xs[i])[k]
  {
    var a := Concat(f, xs, n - 1);
    assert Concat(f, xs, n) == a + f(xs[n - 1]);
    if i < n - 1 {
      ConcatAt(f, xs, n - 1, i, k);
    }
  }

  /** The items are the blocks of the groups, one after the other. */
  lemma {:induction false} ItemsConcat(gs: seq<Group>, n: nat)
    requires n <= |gs|
    ensures Items(gs, n) == Concat(Block, gs, n)
  {
    if n > 0 {
      ItemsConcat(gs, n - 1);
    }
  }

  /** The items of group `i` follow those of the groups before it. */
  lemma {:induction false} ItemsBlock(gs: seq<Group>, n: nat, i: nat, k: nat)
    requires i < n <= |gs| && k < |Block(gs[i])|
    ensures |Items(gs, i)| + k < |Items(gs, n)|
    ensures Items(gs, n)[|Items(gs, i)| + k] == Block(gs[i])[k]
  {
    ItemsConcat(gs, n);
    ItemsConcat(gs, i);
    ConcatAt(Block, gs, n, i, k);
  }

  // ---------------------------------------------------------------------------------
  // Properties of the result

  /** The result is `{}` exactly when the registry is down, lists no group, or the walk
      reaches an unparsable document before anything throws. */
  lemma {:induction false} ConfigEmptyIff(decode: Payload -> Decoded, l: Listing)
    ensures ConfigBy(decode, l) == Success(JObject([])) <==>
      l.Unreachable? || |l.groups| == 0 || WalkOf(decode, Items(l.groups, |l.groups|)) == Abandoned
  {
    if l.Groups? && |l.groups| > 0 {
      var its := Items(l.groups, |l.groups|);
      WalkCollects(decode, its);
      if WalkOf(decode, its).Collected? {
        assert |WalkOf(decode, its).entries| == |its| > 0;
      }
    }
  }

  /** When every listed document decodes, the result holds a `schemas` array with one
      entry per item, in group-then-listing order. */
  lemma {:induction false} ConfigEntries(decode: Payload -> Decoded, gs: seq<Group>)
    requires |gs| > 0 && AllEntries(decode, Items(gs, |gs|))
    ensures ConfigBy(decode, Groups(gs)) == Success(JObject([("schemas", JArray(EntriesOf(decode, Items(gs, |gs|))))]))
  {
    var its := Items(gs, |gs|);
    WalkCollects(decode, its);
    assert WalkOf(decode, its) == Collected(EntriesOf(decode, its));
  }

  /** An unparsable document met before any throwing one turns the whole result into
      `{}`: the entries gathered until then are dropped, since `schemas` is attached only
      at the end. */
  lemma {:induction false} ConfigDiscards(decode: Payload -> Decoded, gs: seq<Group>, k: nat)
    requires var its := Items(gs, |gs|);
      k < |its| && Read(decode, its[k]).Unreadable? && AllEntries(decode, its[..k])
    ensures ConfigBy(decode, Groups(gs)) == Success(JObject([]))
  {
    WalkStopsAtFirst(decode, Items(gs, |gs|), k);
  }

  /** A document that throws before any unparsable one makes the call throw its error. */
  lemma {:induction false} ConfigThrows(decode: Payload -> Decoded, gs: seq<Group>, k: nat)
    requires var its := Items(gs, |gs|);
      k < |its| && Read(decode, its[k]).Throws? && AllEntries(decode, its[..k])
    ensures ConfigBy(decode, Groups(gs)) == Failure(Read(decode, Items(gs, |gs|)[k]).error)
  {
    WalkStopsAtFirst(decode, Items(gs, |gs|), k);
  }

  /** A group without schemas appears as its bare entry, after the entries of the groups
      listed before it. */
  lemma {:induction false} ConfigEmptyGroup(decode: Payload -> Decoded, gs: seq<Group>, i: nat)
    requires i < |gs| && |gs[i].schemas| == 0 && AllEntries(decode, Items(gs, |gs|))
    ensures var n := |Items(gs, i)|;
      && ConfigBy(decode, Groups(gs)).Success?
      && ConfigBy(decode, Groups(gs)).value.JObject? && |ConfigBy(decode, Groups(gs)).value.members| == 1
      && ConfigBy(decode, Groups(gs)).value.members[0].0 == "schemas"
      && ConfigBy(decode, Groups(gs)).value.members[0].1.JArray?
      && n < |ConfigBy(decode, Groups(gs)).value.members[0].1.items|
      && ConfigBy(decode, Groups(gs)).value.members[0].1.items[n] == GroupOnlyEntry(gs[i].name)
  {
    ItemsBlock(gs, |gs|, i, 0);
    ConfigEntries(decode, gs);
  }

  /** Group `i`'s `k`-th listed version appears as the decoding of the latest version of
      its type, after the entries of the groups listed before it. */
  lemma {:induction false} ConfigTableEntry(decode: Payload -> Decoded, gs: seq<Group>, i: nat, k: nat)
    requires i < |gs| && k < |gs[i].schemas| && AllEntries(decode, Items(gs, |gs|))
    ensures var n := |Items(gs, i)|;
      var latest := gs[i].schemas[LatestIndex(gs[i].schemas, k)];
      && ConfigBy(decode, Groups(gs)).Success?
      && ConfigBy(decode, Groups(gs)).value.JObject? && |ConfigBy(decode, Groups(gs)).value.members| == 1
      && ConfigBy(decode, Groups(gs)).value.members[0].0 == "schemas"
      && ConfigBy(decode, Groups(gs)).value.members[0].1.JArray?
      && n + k < |ConfigBy(decode, Groups(gs)).value.members[0].1.items|
      && decode(latest.payload).Entry?
      && ConfigBy(decode, Groups(gs)).value.members[0].1.items[n + k] == decode(latest.payload).entry
  {
    ItemsBlock(gs, |gs|, i, k);
    LatestsAt(gs[i].schemas, |gs[i].schemas|, k);
    ConfigEntries(decode, gs);
  }
}
