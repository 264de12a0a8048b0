/** JSON documents as values. Objects keep their members in insertion order, which is
    the order Jackson's ObjectNode keeps and the order the manager relies on for columns. */
module JsonModel {
  import opened Results
  import opened Errors

  datatype Json =
    | JNull
    | JBool(b: bool)
    | JNumber(n: int)
    | JString(s: string)
    /** A JSON string whose text is the compact serialisation of `inner`; the `$comment`
        member of a schema document holds its metadata block this way. */
    | JEmbedded(inner: Json)
    | JArray(items: seq<Json>)
    | JObject(members: seq<(string, Json)>)

  /** The value of the first member called `key`. */
  function Lookup(members: seq<(string, Json)>, key: string): (r: Option<Json>)
    ensures r.None? <==> forall i :: 0 <= i < |members| ==> members[i].0 != key
  {
    if |members| == 0 then None
    else if members[0].0 == key then Some(members[0].1)
    else Lookup(members[1..], key)
  }

  /** A value found is that of the first member carrying the key. */
  lemma {:induction false} LookupFound(members: seq<(string, Json)>, key: string)
    requires Lookup(members, key).Some?
    ensures exists i :: 0 <= i < |members| && members[i] == (key, Lookup(members, key).value) &&
                        forall j :: 0 <= j < i ==> members[j].0 != key
  {
    if members[0].0 != key {
      LookupFound(members[1..], key);
      var r := Lookup(members, key).value;
      var i :| 0 <= i < |members| - 1 && members[1..][i] == (key, r) &&
               forall j :: 0 <= j < i ==> members[1..][j].0 != key;
      assert members[i + 1] == (key, r);
      assert forall j :: 1 <= j < i + 1 ==> members[j].0 == members[1..][j - 1].0;
    } else {
      assert members[0] == (key, Lookup(members, key).value);
    }
  }

  predicate Has(members: seq<(string, Json)>, key: string) {
    Lookup(members, key).Some?
  }

  predicate IsStringValue(v: Json) {
    v.JString? || v.JEmbedded?
  }

  /** org.json `getString`: the member must exist and be a string. */
  function StringMember(members: seq<(string, Json)>, key: string): (r: Result<Json, Error>)
    ensures r.Success? <==> Has(members, key) && IsStringValue(Lookup(members, key).value)
    ensures r.Success? ==> r.value == Lookup(members, key).value
  {
    match Lookup(members, key)
    case Some(v) => if IsStringValue(v) then Success(v) else Failure(MalformedMember(key))
    case None => Failure(MalformedMember(key))
  }

  /** org.json `getJSONObject`: the member must exist and be an object. */
  function ObjectMember(members: seq<(string, Json)>, key: string): (r: Result<seq<(string, Json)>, Error>)
    ensures r.Success? <==> Has(members, key) && Lookup(members, key).value.JObject?
    ensures r.Success? ==> Lookup(members, key) == Some(JObject(r.value))
  {
    match Lookup(members, key)
    case Some(JObject(ms)) => Success(ms)
    case _ => Failure(MalformedMember(key))
  }

  /** `new JSONObject(obj.getString(key))`: the member must be a string holding the text of
      a JSON object. */
  function EmbeddedObjectMember(members: seq<(string, Json)>, key: string): (r: Result<seq<(string, Json)>, Error>)
    ensures r.Success? <==> Has(members, key) && Lookup(members, key).value.JEmbedded? &&
                            Lookup(members, key).value.inner.JObject?
    ensures r.Success? ==> Lookup(members, key) == Some(JEmbedded(JObject(r.value)))
  {
    match Lookup(members, key)
    case Some(JEmbedded(JObject(ms))) => Success(ms)
    case _ => Failure(MalformedMember(key))
  }

  predicate DistinctKeys(members: seq<(string, Json)>) {
    forall i, j :: 0 <= i < j < |members| ==> members[i].0 != members[j].0
  }

  /** With distinct keys, looking a key up finds the member that carries it. */
  lemma {:induction false} LookupDistinct(members: seq<(string, Json)>, k: nat)
    requires DistinctKeys(members) && k < |members|
    ensures Lookup(members, members[k].0) == Some(members[k].1)
  {
    var r := Lookup(members, members[k].0);
    LookupFound(members, members[k].0);
    var i :| 0 <= i < |members| && members[i] == (members[k].0, r.value) &&
             forall j :: 0 <= j < i ==> members[j].0 != members[k].0;
  }

  /** The member found is the first one that carries the key. */
  lemma {:induction false} LookupFirst(members: seq<(string, Json)>, k: nat)
    requires k < |members| && forall j :: 0 <= j < k ==> members[j].0 != members[k].0
    ensures Lookup(members, members[k].0) == Some(members[k].1)
  {
    var r := Lookup(members, members[k].0);
    LookupFound(members, members[k].0);
    var i :| 0 <= i < |members| && members[i] == (members[k].0, r.value) &&
             forall j :: 0 <= j < i ==> members[j].0 != members[k].0;
  }

  /** Jackson's `ObjectNode.set`: a new key is appended, and a key already present keeps
      its position and takes the new value. */
  function Put(members: seq<(string, Json)>, m: (string, Json)): (r: seq<(string, Json)>)
    ensures Lookup(members, m.0).None? ==> r == members + [m]
    ensures Lookup(members, m.0).Some? ==>
      |r| == |members| && forall i :: 0 <= i < |members| ==> r[i].0 == members[i].0
  {
    if |members| == 0 then [m]
    else if members[0].0 == m.0 then [m] + members[1..]
    else [members[0]] + Put(members[1..], m)
  }

  /** After `Put`, the key holds the new value and every other key keeps its value. */
  lemma {:induction false} PutLookup(members: seq<(string, Json)>, m: (string, Json), key: string)
    ensures Lookup(Put(members, m), key) == if key == m.0 then Some(m.1) else Lookup(members, key)
  {
    if |members| > 0 && members[0].0 != m.0 {
      PutLookup(members[1..], m, key);
      assert Put(members, m)[1..] == Put(members[1..], m);
    }
  }

  /** `Put` keeps the keys of an object distinct. */
  lemma {:induction false} PutDistinct(members: seq<(string, Json)>, m: (string, Json))
    requires DistinctKeys(members)
    ensures DistinctKeys(Put(members, m))
  {
    var r := Put(members, m);
    if Lookup(members, m.0).None? {
      forall i, j | 0 <= i < j < |r| ensures r[i].0 != r[j].0 {
        if j == |members| {
          assert r[i] == members[i];
        }
      }
    }
  }

  /** The object Jackson builds from members read in order, one `Put` after another. */
  function ObjectOf(members: seq<(string, Json)>): (r: seq<(string, Json)>)
    ensures |r| <= |members|
  {
    if |members| == 0 then []
    else Put(ObjectOf(members[..|members| - 1]), members[|members| - 1])
  }

  /** The value of the last member called `key`. */
  function LastLookup(members: seq<(string, Json)>, key: string): (r: Option<Json>)
    ensures r.None? <==> forall i :: 0 <= i < |members| ==> members[i].0 != key
  {
    if |members| == 0 then None
    else if members[|members| - 1].0 == key then Some(members[|members| - 1].1)
    else LastLookup(members[..|members| - 1], key)
  }

  /** The object built from members has one member per key, holding the value of the
      last member read with that key. */
  lemma {:induction false} ObjectOfLookup(members: seq<(string, Json)>, key: string)
    ensures DistinctKeys(ObjectOf(members))
    ensures Lookup(ObjectOf(members), key) == LastLookup(members, key)
  {
    if |members| > 0 {
      var init := members[..|members| - 1];
      ObjectOfLookup(init, key);
      PutLookup(ObjectOf(init), members[|members| - 1], key);
      PutDistinct(ObjectOf(init), members[|members| - 1]);
    }
  }

  /** Members with distinct keys build the object that lists exactly them, in order. */
  lemma {:induction false} ObjectOfDistinct(members: seq<(string, Json)>)
    requires DistinctKeys(members)
    ensures ObjectOf(members) == members
  {
    if |members| > 0 {
      var init := members[..|members| - 1];
      ObjectOfDistinct(init);
      assert Lookup(init, members[|members| - 1].0).None?;
      assert init + [members[|members| - 1]] == members;
    }
  }
}
