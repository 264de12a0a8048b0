/** The part of `getSchemaRegistryConfig` that turns one stored schema document into an
    entry of the catalog listing. */
module TableDecoding {
  import opened Results
  import opened Errors
  import opened Text
  import opened JsonModel
  import opened Catalog
  import opened TypeMapping
  import opened PropertyText
  import opened TableEncoding

  /** What the registry hands back as a schema's data: bytes Jackson cannot parse (the
      IOException path), or a JSON document. */
  datatype Payload = Unparsable | Doc(json: Json)

  /** The fate of one document: an entry, the early return on an unparsable document, or
      an exception that leaves the whole call. */
  datatype Decoded = Entry(entry: Json) | Unreadable | Throws(error: Error)

  /** `properties.getJSONObject(key).getString("type")` when it is a plain string. */
  function StoredType(props: seq<(string, Json)>, key: string): Option<string> {
    match Lookup(props, key)
    case Some(JObject(ms)) =>
      (match Lookup(ms, "type")
       case Some(JString(t)) => Some(t)
       case _ => None)
    case _ => None
  }

  /** One column of the listing, for the `properties` member `key`: its name and the
      catalog type of its stored type, or INVALID_TABLE_PROPERTY for a type with none. */
  function DecodeColumn(props: seq<(string, Json)>, key: string): (r: Result<Json, Error>)
    ensures r.Success? ==>
              StoredType(props, key).Some? && ToCatalogType(StoredType(props, key).value).Some?
    ensures StoredType(props, key).Some? ==>
      var c := ToCatalogType(StoredType(props, key).value);
      r == if c.Some? then Success(JObject([("name", JString(key)), ("type", JString(c.value))]))
           else Failure(InvalidTableProperty(key))
  {
    match Lookup(props, key)
    case Some(JObject(ms)) =>
      (match Lookup(ms, "type")
       case Some(JString(t)) =>
         (match ToCatalogType(t)
          case Some(c) => Success(JObject([("name", JString(key)), ("type", JString(c))]))
          case None => Failure(InvalidTableProperty(key)))
       case Some(JEmbedded(_)) => Failure(InvalidTableProperty(key))
       case _ => Failure(MalformedMember("type")))
    case _ => Failure(MalformedMember(key))
  }

  /** The values of a run of steps that stops at the first failure. */
  function Collect<T, E>(rs: seq<Result<T, E>>): Result<seq<T>, E> {
    if |rs| == 0 then Success([])
    else
      match Collect(rs[..|rs| - 1])
      case Failure(e) => Failure(e)
      case Success(vs) =>
        match rs[|rs| - 1]
        case Failure(e) => Failure(e)
        case Success(v) => Success(vs + [v])
  }

  lemma {:induction false} CollectFailurePersists<T, E>(rs: seq<Result<T, E>>, n: nat)
    requires n <= |rs| && Collect(rs[..n]).Failure?
    ensures Collect(rs) == Collect(rs[..n])
    decreases |rs| - n
  {
    if n < |rs| {
      assert rs[..n + 1][..n] == rs[..n];
      CollectFailurePersists(rs, n + 1);
    } else {
      assert rs[..n] == rs;
    }
  }

  /** A run succeeds exactly when every step does, with the steps' values in order. */
  lemma {:induction false} CollectAll<T, E>(rs: seq<Result<T, E>>)
    ensures Collect(rs).Success? <==> forall i :: 0 <= i < |rs| ==> rs[i].Success?
    ensures Collect(rs).Success? ==>
      |Collect(rs).value| == |rs| && forall i :: 0 <= i < |rs| ==> Collect(rs).value[i] == rs[i].value
  {
    if |rs| > 0 {
      var init := rs[..|rs| - 1];
      CollectAll(init);
      assert forall i :: 0 <= i < |init| ==> init[i] == rs[i];
    }
  }

  /** A failed run reports the failure of its first failing step. */
  lemma {:induction false} CollectFirstFailure<T, E>(rs: seq<Result<T, E>>)
    requires Collect(rs).Failure?
    ensures exists i :: 0 <= i < |rs| && rs[i].Failure? && Collect(rs).error == rs[i].error &&
                        forall j :: 0 <= j < i ==> rs[j].Success?
  {
    var init := rs[..|rs| - 1];
    assert forall i :: 0 <= i < |init| ==> init[i] == rs[i];
    if Collect(init).Failure? {
      CollectFirstFailure(init);
    } else {
      CollectAll(init);
    }
  }

  /** The column of each key of `properties`, in stored order. */
  function ColumnSteps(props: seq<(string, Json)>): (rs: seq<Result<Json, Error>>)
    ensures |rs| == |props| && forall i :: 0 <= i < |props| ==> rs[i] == DecodeColumn(props, props[i].0)
  {
    seq(|props|, i requires 0 <= i < |props| => DecodeColumn(props, props[i].0))
  }

  /** The loop over the keys of `properties`. */
  method DecodeColumns(props: seq<(string, Json)>) returns (r: Result<seq<Json>, Error>)
    ensures r == Collect(ColumnSteps(props))
  {
    ghost var steps := ColumnSteps(props);
    var columns: seq<Json> := [];
    var i := 0;
    while i < |props|
      invariant i <= |props|
      invariant Collect(steps[..i]) == Success(columns)
    {
      var key := props[i].0;
      var column := DecodeColumn(props, key);
      assert steps[..i + 1][..i] == steps[..i];
      if column.Failure? {
        CollectFailurePersists(steps, i + 1);
        return Failure(column.error);
      }
      columns := columns + [column.value];
      i := i + 1;
    }
    assert steps[..|props|] == steps;
    return Success(columns);
  }

  const StringHintKeys: seq<string> :=
    ["objectDataFormat", "hasHeaderRow", "hasFooterRow", "recordDelimiter", "fieldDelimiter"]

  /** The string hints among `keys` that the metadata has, in the order of `keys`. */
  function CopyStringHints(meta: seq<(string, Json)>, keys: seq<string>): Result<seq<(string, Json)>, Error> {
    if |keys| == 0 then Success([])
    else if Has(meta, keys[0]) then
      var v :- StringMember(meta, keys[0]);
      var rest :- CopyStringHints(meta, keys[1..]);
      Success([(keys[0], v)] + rest)
    else CopyStringHints(meta, keys[1..])
  }

  /** The format hints copied into `s3Table`: each present string hint, then `sources`
      when it is present. */
  function Hints(meta: seq<(string, Json)>): Result<seq<(string, Json)>, Error> {
    var strings :- CopyStringHints(meta, StringHintKeys);
    if Has(meta, "sources") then
      var sources :- ObjectMember(meta, "sources");
      Success(strings + [("sources", JObject(sources))])
    else Success(strings)
  }

  /** The listing entry for a table. */
  function TableEntry(database: Json, tablename: Json, columns: seq<Json>, hints: seq<(string, Json)>): Json {
    JObject([
      ("schemaTableName", JObject([("schema_name", database), ("table_name", tablename)])),
      ("s3Table", JObject([("name", tablename), ("columns", JArray(columns))] + hints))])
  }

  /** The reads of a parsed document, in the order the code makes them. */
  function DecodeFields(top: seq<(string, Json)>): Result<Json, Error> {
    var meta :- EmbeddedObjectMember(top, "$comment");
    var database :- StringMember(meta, "database");
    var tablename :- StringMember(meta, "tablename");
    var props :- ObjectMember(top, "properties");
    var columns :- Collect(ColumnSteps(props));
    var hints :- Hints(meta);
    Success(TableEntry(database, tablename, columns, hints))
  }

  /** One document of the listing. */
  function DecodeDocument(p: Payload): Decoded {
    match p
    case Unparsable => Unreadable
    case Doc(JObject(top)) =>
      (match DecodeFields(top)
       case Success(e) => Entry(e)
       case Failure(err) => Throws(err))
    case Doc(_) => Throws(MalformedMember("$comment"))
  }

  /** The decoding of one document, with the loop over its columns. */
  method DecodePayload(p: Payload) returns (r: Decoded)
    ensures r == DecodeDocument(p)
  {
    if p.Unparsable? {
      return Unreadable;
    }
    if !p.json.JObject? {
      return Throws(MalformedMember("$comment"));
    }
    var top := p.json.members;
    var meta := EmbeddedObjectMember(top, "$comment");
    if meta.Failure? { return Throws(meta.error); }
    var database := StringMember(meta.value, "database");
    if database.Failure? { return Throws(database.error); }
    var tablename := StringMember(meta.value, "tablename");
    if tablename.Failure? { return Throws(tablename.error); }
    var props := ObjectMember(top, "properties");
    if props.Failure? { return Throws(props.error); }
    var columns := DecodeColumns(props.value);
    if columns.Failure? { return Throws(columns.error); }
    var hints := Hints(meta.value);
    if hints.Failure? { return Throws(hints.error); }
    return Entry(TableEntry(database.value, tablename.value, columns.value, hints.value));
  }

  // ---------------------------------------------------------------------------------
  // Properties of decoding

  /** The hints copied are exactly those present in the metadata, with their values. */
  lemma {:induction false} StringHintsPresentOnly(meta: seq<(string, Json)>, keys: seq<string>)
    requires CopyStringHints(meta, keys).Success?
    ensures var hs := CopyStringHints(meta, keys).value;
      forall i :: 0 <= i < |hs| ==> hs[i].0 in keys && Lookup(meta, hs[i].0) == Some(hs[i].1)
    ensures var hs := CopyStringHints(meta, keys).value;
      forall k :: k in keys && Has(meta, k) ==> exists i :: 0 <= i < |hs| && hs[i].0 == k
  {
    if |keys| > 0 {
      StringHintsPresentOnly(meta, keys[1..]);
      var hs := CopyStringHints(meta, keys).value;
      if Has(meta, keys[0]) {
        var rest := CopyStringHints(meta, keys[1..]).value;
        assert hs == [(keys[0], StringMember(meta, keys[0]).value)] + rest;
        forall k | k in keys && Has(meta, k) ensures exists i :: 0 <= i < |hs| && hs[i].0 == k {
          if k == keys[0] {
            assert hs[0].0 == k;
          } else {
            assert k in keys[1..];
            var i :| 0 <= i < |rest| && rest[i].0 == k;
            assert hs[i + 1].0 == k;
          }
        }
      } else {
        forall k | k in keys && Has(meta, k) ensures k in keys[1..] {
          assert k != keys[0];
        }
      }
    }
  }

  /** `s3Table` carries a format hint exactly when the metadata has it, with the same
      value; `sources` is always last when present. */
  lemma {:induction false} HintsPresentOnly(meta: seq<(string, Json)>)
    requires Hints(meta).Success?
    ensures var hs := Hints(meta).value;
      forall i :: 0 <= i < |hs| ==> (hs[i].0 in StringHintKeys || hs[i].0 == "sources") &&
                                    Lookup(meta, hs[i].0) == Some(hs[i].1)
    ensures var hs := Hints(meta).value;
      forall k :: (k in StringHintKeys || k == "sources") && Has(meta, k) ==>
        exists i :: 0 <= i < |hs| && hs[i].0 == k
    ensures Has(meta, "sources") ==> var hs := Hints(meta).value;
      |hs| > 0 && hs[|hs| - 1].0 == "sources"
  {
    StringHintsPresentOnly(meta, StringHintKeys);
    var strings := CopyStringHints(meta, StringHintKeys).value;
    var hs := Hints(meta).value;
    if Has(meta, "sources") {
      assert hs == strings + [("sources", Lookup(meta, "sources").value)];
      forall k | (k in StringHintKeys || k == "sources") && Has(meta, k)
        ensures exists i :: 0 <= i < |hs| && hs[i].0 == k
      {
        if k == "sources" {
          assert hs[|hs| - 1].0 == k;
        } else {
          var i :| 0 <= i < |strings| && strings[i].0 == k;
          assert hs[i].0 == k;
        }
      }
    }
  }

  /** The `schema_name` and table name of an entry are the `database` and `tablename` of
      the document's own metadata, whatever group or type the document is stored under. */
  lemma {:induction false} EntryNamesFromMetadata(p: Payload)
    requires DecodeDocument(p).Entry?
    ensures p.Doc? && p.json.JObject?
    ensures var meta := EmbeddedObjectMember(p.json.members, "$comment");
      && meta.Success?
      && var e := DecodeDocument(p).entry;
      && e.JObject? && |e.members| == 2 && e.members[0].0 == "schemaTableName"
      && e.members[0].1 == JObject([("schema_name", Lookup(meta.value, "database").value),
                                  ("table_name", Lookup(meta.value, "tablename").value)])
  {
  }

  /** The listing column for a catalog column that went through the codec. */
  function ReadColumn(c: Column): Json
    requires IsSupportedTypeName(c.typeName)
  {
    JObject([("name", JString(c.name)), ("type", JString(ReadBackTypeName(c.typeName)))])
  }

  /** The listing columns for catalog columns that went through the codec, in order. */
  function ReadColumns(cols: seq<Column>): (r: seq<Json>)
    requires forall i :: 0 <= i < |cols| ==> IsSupportedTypeName(cols[i].typeName)
    ensures |r| == |cols| && forall i :: 0 <= i < |cols| ==> r[i] == ReadColumn(cols[i])
  {
    seq(|cols|, i requires 0 <= i < |cols| => ReadColumn(cols[i]))
  }


  lemma {:induction false} DecodeWrittenColumn(cols: seq<Column>, i: nat)
    requires DistinctNames(cols) && i < |cols|
    ensures IsSupportedTypeName(cols[i].typeName) ==>
      DecodeColumn(Members(cols), cols[i].name) == Success(ReadColumn(cols[i]))
    ensures !IsSupportedTypeName(cols[i].typeName) ==>
      DecodeColumn(Members(cols), cols[i].name) == Failure(InvalidTableProperty(cols[i].name))
  {
    var ms := Members(cols);
    assert DistinctKeys(ms);
    LookupDistinct(ms, i);
    assert StoredType(ms, cols[i].name) == Some(ToJsonType(cols[i].typeName));
    ReadBackWritten(cols[i].typeName);
    if IsSupportedTypeName(cols[i].typeName) {
      ReadBackAgrees(cols[i].typeName);
    }
  }

  /** The hints an encoded document yields, from the settings of its table. */
  function EncodedHints(format: string, hasHeaderRow: string, recordDelimiter: string,
                        fieldDelimiter: string, bucket: string, prefix: string): seq<(string, Json)>
  {
    [("objectDataFormat", JString(ToLower(format))),
     ("hasHeaderRow", JString(hasHeaderRow)),
     ("recordDelimiter", JString(recordDelimiter)),
     ("fieldDelimiter", JString(fieldDelimiter)),
     ("sources", JObject([(bucket, JArray([JString(prefix)]))]))]
  }

  /** The members of a metadata block, looked up by key. */
  lemma {:induction false} MetadataLookups(database: string, tablename: string, bucket: string, prefix: string,
                        hasHeaderRow: string, fieldDelimiter: string, recordDelimiter: string,
                        format: string)
    ensures var meta := MetadataBlock(database, tablename, bucket, prefix, hasHeaderRow,
                                      fieldDelimiter, recordDelimiter, format).members;
      && Lookup(meta, "database") == Some(JString(database))
      && Lookup(meta, "tablename") == Some(JString(tablename))
      && Lookup(meta, "sources") == Some(JObject([(bucket, JArray([JString(prefix)]))]))
      && Lookup(meta, "hasHeaderRow") == Some(JString(hasHeaderRow))
      && Lookup(meta, "fieldDelimiter") == Some(JString(fieldDelimiter))
      && Lookup(meta, "recordDelimiter") == Some(JString(recordDelimiter))
      && Lookup(meta, "objectDataFormat") == Some(JString(ToLower(format)))
  {
    var meta := MetadataBlock(database, tablename, bucket, prefix, hasHeaderRow,
                              fieldDelimiter, recordDelimiter, format).members;
    forall k | 0 <= k < |meta| ensures forall j :: 0 <= j < k ==> meta[j].0 != meta[k].0 {
    }
    LookupFirst(meta, 0);
    LookupFirst(meta, 1);
    LookupFirst(meta, 2);
    LookupFirst(meta, 3);
    LookupFirst(meta, 4);
    LookupFirst(meta, 5);
    LookupFirst(meta, 6);
  }

  /** A metadata block has no `hasFooterRow` member. */
  lemma {:induction false} MetadataNoFooter(database: string, tablename: string, bucket: string, prefix: string,
                         hasHeaderRow: string, fieldDelimiter: string, recordDelimiter: string,
                         format: string)
    ensures !Has(MetadataBlock(database, tablename, bucket, prefix, hasHeaderRow,
                               fieldDelimiter, recordDelimiter, format).members, "hasFooterRow")
  {
    var meta := MetadataBlock(database, tablename, bucket, prefix, hasHeaderRow,
                              fieldDelimiter, recordDelimiter, format).members;
    var key := "hasFooterRow";
    assert meta[3].0[3] != key[3];
    forall i | 0 <= i < |meta| ensures meta[i].0 != key {
      if i == 3 {
        assert meta[i].0[3] != key[3];
      } else {
        assert |meta[i].0| != |key|;
      }
    }
  }

  /** The hints copied from any metadata that carries the four string settings and
      `sources`, but no `hasFooterRow`. */
  lemma {:induction false} HintsOfSettings(meta: seq<(string, Json)>, format: Json, hasHeaderRow: Json,
                        recordDelimiter: Json, fieldDelimiter: Json, sources: seq<(string, Json)>)
    requires Lookup(meta, "objectDataFormat") == Some(format) && format.JString?
    requires Lookup(meta, "hasHeaderRow") == Some(hasHeaderRow) && hasHeaderRow.JString?
    requires !Has(meta, "hasFooterRow")
    requires Lookup(meta, "recordDelimiter") == Some(recordDelimiter) && recordDelimiter.JString?
    requires Lookup(meta, "fieldDelimiter") == Some(fieldDelimiter) && fieldDelimiter.JString?
    requires Lookup(meta, "sources") == Some(JObject(sources))
    ensures Hints(meta) == Success([("objectDataFormat", format), ("hasHeaderRow", hasHeaderRow),
                                    ("recordDelimiter", recordDelimiter),
                                    ("fieldDelimiter", fieldDelimiter),
                                    ("sources", JObject(sources))])
  {
    var fd, rd := [("fieldDelimiter", fieldDelimiter)], [("recordDelimiter", recordDelimiter)];
    assert CopyStringHints(meta, []) == Success([]);
    CopyPresent(meta, "fieldDelimiter", [], fieldDelimiter, []);
    assert ["fieldDelimiter"] == ["fieldDelimiter"] + [] && fd == fd + [];
    CopyPresent(meta, "recordDelimiter", ["fieldDelimiter"], recordDelimiter, fd);
    assert ["recordDelimiter", "fieldDelimiter"] == ["recordDelimiter"] + ["fieldDelimiter"];
    CopyAbsent(meta, "hasFooterRow", ["recordDelimiter", "fieldDelimiter"]);
    assert ["hasFooterRow", "recordDelimiter", "fieldDelimiter"] ==
           ["hasFooterRow"] + ["recordDelimiter", "fieldDelimiter"];
    CopyPresent(meta, "hasHeaderRow", ["hasFooterRow", "recordDelimiter", "fieldDelimiter"],
                hasHeaderRow, rd + fd);
    assert ["hasHeaderRow", "hasFooterRow", "recordDelimiter", "fieldDelimiter"] ==
           ["hasHeaderRow"] + ["hasFooterRow", "recordDelimiter", "fieldDelimiter"];
    CopyPresent(meta, "objectDataFormat",
                ["hasHeaderRow", "hasFooterRow", "recordDelimiter", "fieldDelimiter"],
                format, [("hasHeaderRow", hasHeaderRow)] + (rd + fd));
    assert StringHintKeys == ["objectDataFormat"] +
           ["hasHeaderRow", "hasFooterRow", "recordDelimiter", "fieldDelimiter"];
    var strings := [("objectDataFormat", format)] + ([("hasHeaderRow", hasHeaderRow)] + (rd + fd));
    assert CopyStringHints(meta, StringHintKeys) == Success(strings);
    assert ObjectMember(meta, "sources") == Success(sources);
    assert Hints(meta) == Success(strings + [("sources", JObject(sources))]);
    var all := strings + [("sources", JObject(sources))];
    assert |all| == 5 && all[0].0 == "objectDataFormat" && all[1] == ("hasHeaderRow", hasHeaderRow);
    assert all == [("objectDataFormat", format), ("hasHeaderRow", hasHeaderRow),
                   ("recordDelimiter", recordDelimiter), ("fieldDelimiter", fieldDelimiter),
                   ("sources", JObject(sources))];
  }

  /** One step of copying a hint the metadata holds as a string. */
  lemma {:induction false} CopyPresent(meta: seq<(string, Json)>, key: string, keys: seq<string>, v: Json,
                    rest: seq<(string, Json)>)
    requires Lookup(meta, key) == Some(v) && v.JString?
    requires CopyStringHints(meta, keys) == Success(rest)
    ensures CopyStringHints(meta, [key] + keys) == Success([(key, v)] + rest)
  {
    assert ([key] + keys)[1..] == keys;
  }

  /** One step past a hint the metadata does not hold. */
  lemma {:induction false} CopyAbsent(meta: seq<(string, Json)>, key: string, keys: seq<string>)
    requires !Has(meta, key)
    ensures CopyStringHints(meta, [key] + keys) == CopyStringHints(meta, keys)
  {
    assert ([key] + keys)[1..] == keys;
  }

  lemma {:induction false} MetadataHints(database: string, tablename: string, bucket: string, prefix: string,
                      hasHeaderRow: string, fieldDelimiter: string, recordDelimiter: string,
                      format: string)
    ensures var meta := MetadataBlock(database, tablename, bucket, prefix, hasHeaderRow,
                                      fieldDelimiter, recordDelimiter, format).members;
      Hints(meta) == Success(EncodedHints(format, hasHeaderRow, recordDelimiter, fieldDelimiter,
                                          bucket, prefix))
  {
    MetadataLookups(database, tablename, bucket, prefix, hasHeaderRow, fieldDelimiter,
                    recordDelimiter, format);
    MetadataNoFooter(database, tablename, bucket, prefix, hasHeaderRow, fieldDelimiter,
                     recordDelimiter, format);
    HintsOfSettings(MetadataBlock(database, tablename, bucket, prefix, hasHeaderRow,
                                  fieldDelimiter, recordDelimiter, format).members,
                    JString(ToLower(format)), JString(hasHeaderRow), JString(recordDelimiter),
                    JString(fieldDelimiter), [(bucket, JArray([JString(prefix)]))]);
  }

  /** The decoding of any document whose `$comment` names the table and whose hints read. */
  lemma {:induction false} DecodeFieldsOf(top: seq<(string, Json)>, meta: seq<(string, Json)>, database: Json,
                       tablename: Json, props: seq<(string, Json)>, hints: seq<(string, Json)>)
    requires Lookup(top, "$comment") == Some(JEmbedded(JObject(meta)))
    requires Lookup(meta, "database") == Some(database) && database.JString?
    requires Lookup(meta, "tablename") == Some(tablename) && tablename.JString?
    requires Lookup(top, "properties") == Some(JObject(props))
    requires Hints(meta) == Success(hints)
    ensures Collect(ColumnSteps(props)).Success? ==>
      DecodeFields(top) == Success(TableEntry(database, tablename, Collect(ColumnSteps(props)).value, hints))
    ensures Collect(ColumnSteps(props)).Failure? ==>
      DecodeFields(top) == Failure(Collect(ColumnSteps(props)).error)
    ensures Collect(ColumnSteps(props)).Success? ==>
      DecodeDocument(Doc(JObject(top))) ==
      Entry(TableEntry(database, tablename, Collect(ColumnSteps(props)).value, hints))
    ensures Collect(ColumnSteps(props)).Failure? ==>
      DecodeDocument(Doc(JObject(top))) == Throws(Collect(ColumnSteps(props)).error)
  {
  }

  /** The members of a schema document, looked up by key. */
  lemma {:induction false} DocumentLookups(meta: Json, props: seq<(string, Json)>)
    ensures var top := SchemaDocument(meta, props).members;
      && Lookup(top, "$comment") == Some(JEmbedded(meta))
      && Lookup(top, "properties") == Some(JObject(props))
  {
    var top := SchemaDocument(meta, props).members;
    LookupFirst(top, 0);
    LookupFirst(top, 3);
  }

  /** Decoding a document shaped as `createTable` writes it, with any `properties`. */
  lemma {:induction false} DecodeWrittenDocument(database: string, tablename: string, bucket: string, prefix: string,
                              hasHeaderRow: string, fieldDelimiter: string, recordDelimiter: string,
                              format: string, props: seq<(string, Json)>)
    ensures var d := DecodeDocument(Doc(SchemaDocument(MetadataBlock(database, tablename, bucket,
              prefix, hasHeaderRow, fieldDelimiter, recordDelimiter, format), props)));
      && (Collect(ColumnSteps(props)).Success? ==>
            d == Entry(TableEntry(JString(database), JString(tablename),
                                  Collect(ColumnSteps(props)).value,
                                  EncodedHints(format, hasHeaderRow, recordDelimiter,
                                               fieldDelimiter, bucket, prefix))))
      && (Collect(ColumnSteps(props)).Failure? ==> d == Throws(Collect(ColumnSteps(props)).error))
  {
    var meta := MetadataBlock(database, tablename, bucket, prefix, hasHeaderRow,
                              fieldDelimiter, recordDelimiter, format);
    assert SchemaDocument(meta, props) == JObject(SchemaDocument(meta, props).members);
    DocumentLookups(meta, props);
    MetadataLookups(database, tablename, bucket, prefix, hasHeaderRow, fieldDelimiter,
                    recordDelimiter, format);
    MetadataHints(database, tablename, bucket, prefix, hasHeaderRow, fieldDelimiter,
                  recordDelimiter, format);
    DecodeFieldsOf(SchemaDocument(meta, props).members, meta.members, JString(database),
                   JString(tablename), props,
                   EncodedHints(format, hasHeaderRow, recordDelimiter, fieldDelimiter, bucket, prefix));
  }

  /** Reading back a document `createTable` wrote: the entry names the table's schema and
      table, lists its columns with their names in declaration order and their types read
      back (INTEGER as BIGINT), and carries the format, header, delimiter and sources
      settings; `hasFooterRow` is never among them. */
  lemma {:induction false} DecodeEncoded(cfg: Config, t: TableMetadata)
    requires Encode(cfg, t).Success?
    requires PlainNames(t.columns) && DistinctNames(t.columns)
    requires forall i :: 0 <= i < |t.columns| ==> IsSupportedTypeName(t.columns[i].typeName)
    ensures var st := Scan(cfg, t.properties).value;
      && st.location.Some? && st.location.value.host.Some? && st.format.Some?
      && DecodeDocument(Doc(Encode(cfg, t).value)) ==
         Entry(TableEntry(JString(t.schemaName), JString(t.tableName),
                          ReadColumns(t.columns),
                          EncodedHints(st.format.value, st.hasHeaderRow, st.recordDelimiter,
                                       st.fieldDelimiter, st.location.value.host.value,
                                       st.location.value.path)))
  {
    var st := Scan(cfg, t.properties).value;
    if |t.columns| == 0 {
      NoColumnsRejected(cfg, t);
    }
    EncodeSucceeds(cfg, t);
    DistinctMembers(t.columns);
    var ms := Members(t.columns);
    ColumnsReadBack(t.columns);
    DecodeWrittenDocument(t.schemaName, t.tableName, st.location.value.host.value,
                          st.location.value.path, st.hasHeaderRow, st.fieldDelimiter,
                          st.recordDelimiter, st.format.value, ms);
  }

  /** Columns of supported types, written under distinct names, all read back. */
  lemma {:induction false} ColumnsReadBack(cols: seq<Column>)
    requires DistinctNames(cols)
    requires forall i :: 0 <= i < |cols| ==> IsSupportedTypeName(cols[i].typeName)
    ensures Collect(ColumnSteps(Members(cols))) == Success(ReadColumns(cols))
  {
    var steps := ColumnSteps(Members(cols));
    forall i | 0 <= i < |steps|
      ensures steps[i] == Success(ReadColumn(cols[i]))
    {
      DecodeWrittenColumn(cols, i);
    }
    CollectAll(steps);
    assert Collect(steps).value == ReadColumns(cols);
  }

  /** A column whose type is none of the five is written with type "" without complaint,
      and reading the document back then throws INVALID_TABLE_PROPERTY for the first such
      column. */
  lemma {:induction false} UnsupportedTypeFailsRead(cfg: Config, t: TableMetadata)
    requires Encode(cfg, t).Success?
    requires PlainNames(t.columns) && DistinctNames(t.columns)
    requires exists i :: 0 <= i < |t.columns| && !IsSupportedTypeName(t.columns[i].typeName)
    ensures exists k :: && 0 <= k < |t.columns|
                        && !IsSupportedTypeName(t.columns[k].typeName)
                        && (forall j :: 0 <= j < k ==> IsSupportedTypeName(t.columns[j].typeName))
                        && DecodeDocument(Doc(Encode(cfg, t).value)) ==
                           Throws(InvalidTableProperty(t.columns[k].name))
  {
    var ms := Members(t.columns);
    var steps := ColumnSteps(ms);
    assert DecodeDocument(Doc(Encode(cfg, t).value)) == Throws(Collect(steps).error) by {
      var st := Scan(cfg, t.properties).value;
      EncodeSucceeds(cfg, t);
      DistinctMembers(t.columns);
      DecodeWrittenDocument(t.schemaName, t.tableName, st.location.value.host.value,
                            st.location.value.path, st.hasHeaderRow, st.fieldDelimiter,
                            st.recordDelimiter, st.format.value, ms);
      assert Collect(steps).Failure? by {
        var i :| 0 <= i < |t.columns| && !IsSupportedTypeName(t.columns[i].typeName);
        DecodeWrittenColumn(t.columns, i);
        CollectAll(steps);
      }
    }
    forall i | 0 <= i < |steps|
      ensures steps[i].Success? <==> IsSupportedTypeName(t.columns[i].typeName)
      ensures steps[i].Failure? ==> steps[i].error == InvalidTableProperty(t.columns[i].name)
    {
      DecodeWrittenColumn(t.columns, i);
    }
    CollectFirstFailure(steps);
  }
}
