/** The `properties` member of a schema document, which `createTable` assembles as text
    (`{`, one `"name":{"type":t}` entry per column, `,` between entries, `}` after the last)
    and then parses with Jackson. */
module PropertyText {
  import opened Results
  import opened JsonModel
  import opened Catalog
  import opened TypeMapping

  /** The text Jackson writes for one column: `"name":{"type":"t"}`. */
  function EntryText(c: Column): string {
    "\"" + c.name + "\":{\"type\":\"" + ToJsonType(c.typeName) + "\"}"
  }

  /** Strings separated by commas. */
  function JoinComma(es: seq<string>): string {
    if |es| == 0 then ""
    else if |es| == 1 then es[0]
    else es[0] + "," + JoinComma(es[1..])
  }

  /** The entry text of every column, in column order. */
  function Entries(cols: seq<Column>): (es: seq<string>)
    ensures |es| == |cols| && forall i :: 0 <= i < |cols| ==> es[i] == EntryText(cols[i])
  {
    seq(|cols|, i requires 0 <= i < |cols| => EntryText(cols[i]))
  }

  /** The string `createTable` builds: `{` alone when there are no columns. */
  function PropertiesText(cols: seq<Column>): string {
    if |cols| == 0 then "{" else "{" + JoinComma(Entries(cols)) + "}"
  }

  /** The members of the `properties` object that the string denotes. */
  function Members(cols: seq<Column>): (ms: seq<(string, Json)>)
    ensures |ms| == |cols|
    ensures forall i :: 0 <= i < |cols| ==>
      ms[i] == (cols[i].name, JObject([("type", JString(ToJsonType(cols[i].typeName)))]))
  {
    seq(|cols|, i requires 0 <= i < |cols| =>
      (cols[i].name, JObject([("type", JString(ToJsonType(cols[i].typeName)))])))
  }

  /** Appending to a non-empty list appends a comma and the new string. */
  lemma {:induction false} JoinCommaSnoc(es: seq<string>, e: string)
    requires |es| > 0
    ensures JoinComma(es + [e]) == JoinComma(es) + "," + e
  {
    if |es| == 1 {
      assert (es + [e])[1..] == [e];
    } else {
      assert (es + [e])[1..] == es[1..] + [e];
      JoinCommaSnoc(es[1..], e);
    }
  }

  /** One more loop round: the text so far, extended by the next entry. */
  lemma {:induction false} AppendEntry(s: string, es: seq<string>, i: nat)
    requires i < |es|
    requires i == 0 ==> s == "{"
    requires 0 < i ==> s == "{" + JoinComma(es[..i]) + ","
    ensures s + es[i] == "{" + JoinComma(es[..i + 1])
  {
    if i == 0 {
      assert es[..1] == [es[0]];
    } else {
      assert es[..i + 1] == es[..i] + [es[i]];
      JoinCommaSnoc(es[..i], es[i]);
    }
  }

  /** The column loop of `createTable`: the string grows by one entry per column, followed
      by `,` or, after the last column, by `}`. */
  method BuildPropertyString(cols: seq<Column>) returns (s: string)
    ensures |cols| == 0 ==> s == "{"
    ensures |cols| > 0 ==> s == "{" + JoinComma(Entries(cols)) + "}"
  {
    ghost var es := Entries(cols);
    s := "{";
    var i := 0;
    while i <= |cols| - 1
      invariant 0 <= i <= |cols|
      invariant i == 0 ==> s == "{"
      invariant 0 < i < |cols| ==> s == "{" + JoinComma(es[..i]) + ","
      invariant 0 < i == |cols| ==> s == "{" + JoinComma(es) + "}"
    {
      AppendEntry(s, es, i);
      s := s + EntryText(cols[i]);
      if i == |cols| - 1 {
        assert es[..i + 1] == es;
        s := s + "}";
      } else {
        s := s + ",";
      }
      i := i + 1;
    }
  }

  /** Characters Jackson reads inside a string without an escape. */
  predicate PlainChar(c: char) {
    c != '"' && c != '\\' && c >= ' '
  }

  predicate IsPlain(s: string) {
    forall i :: 0 <= i < |s| ==> PlainChar(s[i])
  }

  /** The longest prefix of plain characters, and what follows it. */
  function ReadPlain(s: string): (r: (string, string))
    ensures r.0 + r.1 == s && IsPlain(r.0)
    ensures r.1 == [] || !PlainChar(r.1[0])
  {
    if |s| == 0 || !PlainChar(s[0]) then ([], s)
    else
      var (p, rest) := ReadPlain(s[1..]);
      ([s[0]] + p, rest)
  }

  lemma {:induction false} ReadPlainPrefix(p: string, t: string)
    requires IsPlain(p) && |t| > 0 && !PlainChar(t[0])
    ensures ReadPlain(p + t) == (p, t)
  {
    if |p| > 0 {
      assert (p + t)[1..] == p[1..] + t;
      ReadPlainPrefix(p[1..], t);
      assert [p[0]] + p[1..] == p;
    } else {
      assert p + t == t;
    }
  }

  const TypeOpening: string := "\":{\"type\":\""
  const TypeClosing: string := "\"}"

  /** Reads one `"name":{"type":"t"}` entry; Some carries the member and the rest. */
  function ParseEntry(s: string): (r: Option<((string, Json), string)>)
    ensures r.Some? ==> |r.value.1| < |s|
  {
    if |s| == 0 || s[0] != '"' then None
    else
      var (name, r1) := ReadPlain(s[1..]);
      if !(|r1| >= |TypeOpening| && r1[..|TypeOpening|] == TypeOpening) then None
      else
        var (t, r2) := ReadPlain(r1[|TypeOpening|..]);
        if !(|r2| >= |TypeClosing| && r2[..|TypeClosing|] == TypeClosing) then None
        else Some(((name, JObject([("type", JString(t))])), r2[|TypeClosing|..]))
  }

  /** Reads entries separated by `,` up to a final `}` that ends the text. */
  function ParseEntries(s: string): Option<seq<(string, Json)>>
    decreases |s|
  {
    match ParseEntry(s)
    case None => None
    case Some((m, rest)) =>
      if rest == "}" then Some([m])
      else if |rest| > 0 && rest[0] == ',' then
        match ParseEntries(rest[1..])
        case Some(ms) => Some([m] + ms)
        case None => None
      else None
  }

  /** Jackson's `readTree` on the built string, for the strings the builder produces: the
      entries read are set on a new object node one after another, so a repeated name keeps
      its first position and its last type. None stands for the IOException. */
  function ParseProperties(s: string): Option<seq<(string, Json)>> {
    if |s| > 0 && s[0] == '{' then
      match ParseEntries(s[1..])
      case Some(ms) => Some(ObjectOf(ms))
      case None => None
    else None
  }

  lemma {:induction false} JsonTypeIsPlain(d: string)
    ensures IsPlain(ToJsonType(d))
  {
  }

  lemma {:induction false} ParseEntryText(c: Column, rest: string)
    requires IsPlain(c.name)
    ensures ParseEntry(EntryText(c) + rest) ==
      Some(((c.name, JObject([("type", JString(ToJsonType(c.typeName)))])), rest))
  {
    var t := ToJsonType(c.typeName);
    JsonTypeIsPlain(c.typeName);
    var s := EntryText(c) + rest;
    var after := TypeOpening + t + TypeClosing + rest;
    assert s == "\"" + (c.name + after);
    assert s[1..] == c.name + after;
    ReadPlainPrefix(c.name, after);
    var r1 := after;
    assert r1[..|TypeOpening|] == TypeOpening;
    assert r1[|TypeOpening|..] == t + (TypeClosing + rest);
    ReadPlainPrefix(t, TypeClosing + rest);
    var r2 := TypeClosing + rest;
    assert r2[..|TypeClosing|] == TypeClosing;
    assert r2[|TypeClosing|..] == rest;
  }

  /** An entry followed by a comma and a list that parses, parses as one list. */
  lemma {:induction false} ParseCons(e: string, m: (string, Json), tail: string, ms: seq<(string, Json)>)
    requires ParseEntry(e + ("," + tail)) == Some((m, "," + tail))
    requires ParseEntries(tail) == Some(ms)
    ensures ParseEntries(e + "," + tail) == Some([m] + ms)
  {
    assert e + "," + tail == e + ("," + tail);
    assert ("," + tail)[1..] == tail;
  }

  lemma {:induction false} JoinCommaCons(es: seq<string>)
    requires |es| > 1
    ensures JoinComma(es) + "}" == es[0] + "," + (JoinComma(es[1..]) + "}")
  {
  }

  lemma {:induction false} ConsSlice<T>(ms: seq<T>)
    requires |ms| > 0
    ensures [ms[0]] + ms[1..] == ms
  {
  }

  /** Entries that each parse to their member, joined by commas and closed by `}`,
      parse to the members in order. */
  lemma {:induction false} ParseJoinComma(es: seq<string>, ms: seq<(string, Json)>)
    requires |es| == |ms| > 0
    requires forall k, rest :: 0 <= k < |es| ==> ParseEntry(es[k] + rest) == Some((ms[k], rest))
    ensures ParseEntries(JoinComma(es) + "}") == Some(ms)
  {
    if |es| == 1 {
      assert ParseEntry(es[0] + "}") == Some((ms[0], "}"));
      assert ms == [ms[0]];
    } else {
      var tail := JoinComma(es[1..]) + "}";
      assert ParseEntries(tail) == Some(ms[1..]) by {
        forall k, rest | 0 <= k < |es| - 1
          ensures ParseEntry(es[1..][k] + rest) == Some((ms[1..][k], rest))
        {
          assert es[1..][k] == es[k + 1] && ms[1..][k] == ms[k + 1];
        }
        ParseJoinComma(es[1..], ms[1..]);
      }
      assert ParseEntries(es[0] + "," + tail) == Some([ms[0]] + ms[1..]) by {
        assert ParseEntry(es[0] + ("," + tail)) == Some((ms[0], "," + tail));
        ParseCons(es[0], ms[0], tail, ms[1..]);
      }
      JoinCommaCons(es);
      ConsSlice(ms);
    }
  }

  predicate DistinctNames(cols: seq<Column>) {
    forall i, j :: 0 <= i < j < |cols| ==> cols[i].name != cols[j].name
  }

  /** Columns with distinct names give members with distinct keys, which Jackson's object
      keeps as they are. */
  lemma {:induction false} DistinctMembers(cols: seq<Column>)
    requires DistinctNames(cols)
    ensures DistinctKeys(Members(cols))
    ensures ObjectOf(Members(cols)) == Members(cols)
  {
    assert DistinctKeys(Members(cols));
    ObjectOfDistinct(Members(cols));
  }

  /** The built string, for columns whose names need no escape, parses to the object of
      the column members read in column order: one member per distinct name, holding the
      JSON type of the last column of that name, and exactly the members in column order
      when the names are distinct. With no columns the string stays `{` and does not
      parse. */
  lemma {:induction false} PropertiesRoundTrip(cols: seq<Column>)
    requires forall i :: 0 <= i < |cols| ==> IsPlain(cols[i].name)
    ensures |cols| == 0 ==> ParseProperties(PropertiesText(cols)).None?
    ensures |cols| > 0 ==> ParseProperties(PropertiesText(cols)) == Some(ObjectOf(Members(cols)))
    ensures |cols| > 0 && DistinctNames(cols) ==>
      ParseProperties(PropertiesText(cols)) == Some(Members(cols))
  {
    if |cols| > 0 && DistinctNames(cols) {
      DistinctMembers(cols);
    }
    if |cols| > 0 {
      var s := PropertiesText(cols);
      assert |s| > 0 && s[0] == '{' && s[1..] == JoinComma(Entries(cols)) + "}";
      assert ParseEntries(s[1..]) == Some(Members(cols)) by {
        forall k, rest | 0 <= k < |cols|
          ensures ParseEntry(Entries(cols)[k] + rest) == Some((Members(cols)[k], rest))
        {
          ParseEntryText(cols[k], rest);
        }
        ParseJoinComma(Entries(cols), Members(cols));
      }
    }
  }
}
