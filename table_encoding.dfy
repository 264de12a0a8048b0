/** `createTable`'s translation of table metadata into a schema document: the scan of the
    table properties, the split of the location into bucket and prefix, the metadata block
    embedded in `$comment`, and the `properties` object. */
module TableEncoding {
  import opened Results
  import opened Errors
  import opened Text
  import opened JsonModel
  import opened Catalog
  import opened TypeMapping
  import opened PropertyText
  import opened Locations

  /** What the manager takes from `S3Const`: the formats a query can read and the default
      header and delimiter settings. */
  datatype Config = Config(
    isValidFormatForQuery: string -> bool,
    defaultHasHeaderRow: string,
    defaultRecordDelimiter: string,
    defaultFieldDelimiter: string)

  // ---------------------------------------------------------------------------------
  // The property scan

  /** The locals of `createTable` that the property loop assigns. */
  datatype ScanState = ScanState(
    format: Option<string>,
    location: Option<Location>,
    hasHeaderRow: string,
    recordDelimiter: string,
    fieldDelimiter: string)

  function InitialScan(cfg: Config): ScanState {
    ScanState(None, None, cfg.defaultHasHeaderRow, cfg.defaultRecordDelimiter,
              cfg.defaultFieldDelimiter)
  }

  /** One round of the property loop: the first of the five keys that `key` equals
      ignoring case decides which local the value goes to. */
  function ScanStep(cfg: Config, st: ScanState, key: string, value: string): Result<ScanState, Error> {
    if EqualsIgnoreCase(key, "format") then
      if cfg.isValidFormatForQuery(value) then Success(st.(format := Some(value)))
      else Failure(UnsupportedFormat(value))
    else if EqualsIgnoreCase(key, "field_delimiter") then Success(st.(fieldDelimiter := value))
    else if EqualsIgnoreCase(key, "record_delimiter") then Success(st.(recordDelimiter := value))
    else if EqualsIgnoreCase(key, "has_header_row") then Success(st.(hasHeaderRow := value))
    else if EqualsIgnoreCase(key, "external_location") then
      match ParseLocation(value)
      case Success(l) => Success(st.(location := Some(l)))
      case Failure(e) => Failure(e)
    else Success(st)
  }

  /** The state after the loop has run over `props`, or the exception that ends it. */
  function Scan(cfg: Config, props: seq<(string, string)>): Result<ScanState, Error> {
    if |props| == 0 then Success(InitialScan(cfg))
    else
      match Scan(cfg, props[..|props| - 1])
      case Success(st) => ScanStep(cfg, st, props[|props| - 1].0, props[|props| - 1].1)
      case Failure(e) => Failure(e)
  }

  /** Once the loop has thrown, the remaining properties do not matter. */
  lemma {:induction false} ScanFailurePersists(cfg: Config, props: seq<(string, string)>, n: nat)
    requires n <= |props| && Scan(cfg, props[..n]).Failure?
    ensures Scan(cfg, props) == Scan(cfg, props[..n])
    decreases |props| - n
  {
    if n < |props| {
      assert props[..n + 1][..n] == props[..n];
      ScanFailurePersists(cfg, props, n + 1);
    } else {
      assert props[..n] == props;
    }
  }

  /** The property loop of `createTable`. */
  method ScanProperties(cfg: Config, props: seq<(string, string)>) returns (r: Result<ScanState, Error>)
    ensures r == Scan(cfg, props)
  {
    var st := InitialScan(cfg);
    for i := 0 to |props|
      invariant Scan(cfg, props[..i]) == Success(st)
    {
      var (key, value) := props[i];
      assert props[..i + 1][..i] == props[..i];
      if EqualsIgnoreCase(key, "format") {
        if !cfg.isValidFormatForQuery(value) {
          ScanFailurePersists(cfg, props, i + 1);
          return Failure(UnsupportedFormat(value));
        }
        st := st.(format := Some(value));
      } else if EqualsIgnoreCase(key, "field_delimiter") {
        st := st.(fieldDelimiter := value);
      } else if EqualsIgnoreCase(key, "record_delimiter") {
        st := st.(recordDelimiter := value);
      } else if EqualsIgnoreCase(key, "has_header_row") {
        st := st.(hasHeaderRow := value);
      } else if EqualsIgnoreCase(key, "external_location") {
        var parsed := ParseLocation(value);
        if parsed.Failure? {
          ScanFailurePersists(cfg, props, i + 1);
          return Failure(parsed.error);
        }
        st := st.(location := Some(parsed.value));
      }
    }
    assert props[..|props|] == props;
    return Success(st);
  }

  /** The value of the last property whose key equals `key` ignoring case. */
  function LastSetting(props: seq<(string, string)>, key: string): (r: Option<string>)
    ensures r.None? <==> forall i :: 0 <= i < |props| ==> !EqualsIgnoreCase(props[i].0, key)
    ensures r.Some? ==> exists i :: 0 <= i < |props| && EqualsIgnoreCase(props[i].0, key) &&
                                   props[i].1 == r.value &&
                                   forall j :: i < j < |props| ==> !EqualsIgnoreCase(props[j].0, key)
  {
    if |props| == 0 then None
    else if EqualsIgnoreCase(props[|props| - 1].0, key) then Some(props[|props| - 1].1)
    else
      var r := LastSetting(props[..|props| - 1], key);
      assert forall i :: 0 <= i < |props| - 1 ==> props[..|props| - 1][i] == props[i];
      r
  }

  /** A property on which the loop throws: an unsupported format, or a location on which
      `new URI` throws. */
  predicate Rejected(cfg: Config, p: (string, string)) {
    (EqualsIgnoreCase(p.0, "format") && !cfg.isValidFormatForQuery(p.1)) ||
    (EqualsIgnoreCase(p.0, "external_location") && ParseLocation(p.1).Failure?)
  }

  function RejectionError(cfg: Config, p: (string, string)): Error
    requires Rejected(cfg, p)
  {
    if EqualsIgnoreCase(p.0, "format") then UnsupportedFormat(p.1) else ParseLocation(p.1).error
  }

  /** The scan fails exactly when some property is rejected, and then with the error of the
      first rejected one. */
  lemma {:induction false} ScanFailure(cfg: Config, props: seq<(string, string)>)
    ensures Scan(cfg, props).Failure? <==> exists i :: 0 <= i < |props| && Rejected(cfg, props[i])
    ensures Scan(cfg, props).Failure? ==>
      exists i :: 0 <= i < |props| && Rejected(cfg, props[i]) &&
        (forall j :: 0 <= j < i ==> !Rejected(cfg, props[j])) &&
        Scan(cfg, props).error == RejectionError(cfg, props[i])
  {
    if |props| > 0 {
      var init := props[..|props| - 1];
      ScanFailure(cfg, init);
      assert forall i :: 0 <= i < |init| ==> init[i] == props[i];
      if Scan(cfg, init).Failure? {
        var i :| 0 <= i < |init| && Rejected(cfg, init[i]) &&
          (forall j :: 0 <= j < i ==> !Rejected(cfg, init[j])) &&
          Scan(cfg, init).error == RejectionError(cfg, init[i]);
        assert Rejected(cfg, props[i]);
      } else {
        var last := props[|props| - 1];
        assert Rejected(cfg, last) ==> Scan(cfg, props).error == RejectionError(cfg, last);
      }
    }
  }

  /** After a scan that does not throw, each setting holds the value of the last property
      that names it, and the header and delimiter settings keep their defaults when no
      property names them. */
  lemma {:induction false} ScanSettings(cfg: Config, props: seq<(string, string)>)
    requires Scan(cfg, props).Success?
    ensures var st := Scan(cfg, props).value;
      && st.format == LastSetting(props, "format")
      && st.hasHeaderRow == LastSetting(props, "has_header_row").GetOr(cfg.defaultHasHeaderRow)
      && st.recordDelimiter == LastSetting(props, "record_delimiter").GetOr(cfg.defaultRecordDelimiter)
      && st.fieldDelimiter == LastSetting(props, "field_delimiter").GetOr(cfg.defaultFieldDelimiter)
      && (st.location.None? <==> LastSetting(props, "external_location").None?)
      && (st.location.Some? ==>
            ParseLocation(LastSetting(props, "external_location").value) == Success(st.location.value))
  {
    if |props| > 0 {
      var init := props[..|props| - 1];
      var (key, value) := props[|props| - 1];
      ScanSettings(cfg, init);
      var st0 := Scan(cfg, init).value;
      LastSettingStep(props, "format");
      LastSettingStep(props, "has_header_row");
      LastSettingStep(props, "record_delimiter");
      LastSettingStep(props, "field_delimiter");
      LastSettingStep(props, "external_location");
      assert Scan(cfg, props) == ScanStep(cfg, st0, key, value);
    }
  }

  lemma {:induction false} LastSettingStep(props: seq<(string, string)>, key: string)
    requires |props| > 0
    ensures LastSetting(props, key) ==
      if EqualsIgnoreCase(props[|props| - 1].0, key) then Some(props[|props| - 1].1)
      else LastSetting(props[..|props| - 1], key)
  {
  }

  // ---------------------------------------------------------------------------------
  // The schema document

  /** The metadata block: database, table name, the one bucket with its one-element prefix
      array, the header and delimiter settings, and the lower-cased format. */
  function MetadataBlock(database: string, tablename: string, bucket: string, prefix: string,
                         hasHeaderRow: string, fieldDelimiter: string, recordDelimiter: string,
                         format: string): Json
  {
    JObject([
      ("database", JString(database)),
      ("tablename", JString(tablename)),
      ("sources", JObject([(bucket, JArray([JString(prefix)]))])),
      ("hasHeaderRow", JString(hasHeaderRow)),
      ("fieldDelimiter", JString(fieldDelimiter)),
      ("recordDelimiter", JString(recordDelimiter)),
      ("objectDataFormat", JString(ToLower(format)))])
  }

  const DocumentDescription: string := "Format of row of data"

  /** The document stored as the schema: the metadata block as the text of `$comment`,
      the fixed `description` and `type`, and the parsed `properties`. */
  function SchemaDocument(metadata: Json, properties: seq<(string, Json)>): Json {
    JObject([
      ("$comment", JEmbedded(metadata)),
      ("description", JString(DocumentDescription)),
      ("type", JString("object")),
      ("properties", JObject(properties))])
  }

  /** The document `createTable` builds for a table, or the exception it throws first: a
      rejected property, then a missing bucket (the null key of `sources`), then a missing
      format (`toLowerCase` on null), then a properties string that does not parse. */
  function Encode(cfg: Config, t: TableMetadata): Result<Json, Error> {
    match Scan(cfg, t.properties)
    case Failure(e) => Failure(e)
    case Success(st) =>
      if st.location.None? || st.location.value.host.None? then Failure(NullReference("sources"))
      else if st.format.None? then Failure(NullReference("format"))
      else
        var text := PropertiesText(t.columns);
        match ParseProperties(text)
        case None => Failure(ConfigurationInvalid(text))
        case Some(ps) =>
          Success(SchemaDocument(
            MetadataBlock(t.schemaName, t.tableName, st.location.value.host.value,
                          st.location.value.path, st.hasHeaderRow, st.fieldDelimiter,
                          st.recordDelimiter, st.format.value),
            ps))
  }

  /** The document-building part of `createTable`. */
  method EncodeTable(cfg: Config, t: TableMetadata) returns (r: Result<Json, Error>)
    ensures r == Encode(cfg, t)
  {
    var scanned := ScanProperties(cfg, t.properties);
    if scanned.Failure? {
      return Failure(scanned.error);
    }
    var st := scanned.value;
    if st.location.None? || st.location.value.host.None? {
      return Failure(NullReference("sources"));
    }
    if st.format.None? {
      return Failure(NullReference("format"));
    }
    var metadata := MetadataBlock(t.schemaName, t.tableName, st.location.value.host.value,
                                  st.location.value.path, st.hasHeaderRow, st.fieldDelimiter,
                                  st.recordDelimiter, st.format.value);
    var text := BuildPropertyString(t.columns);
    var parsed := ParseProperties(text);
    if parsed.None? {
      return Failure(ConfigurationInvalid(text));
    }
    return Success(SchemaDocument(metadata, parsed.value));
  }

  /** A table with no columns is refused with CONFIGURATION_INVALID once its properties
      are accepted, since its properties string is a lone `{`. */
  lemma {:induction false} NoColumnsRejected(cfg: Config, t: TableMetadata)
    requires |t.columns| == 0
    requires Scan(cfg, t.properties).Success?
    ensures Encode(cfg, t).Failure?
    ensures var st := Scan(cfg, t.properties).value;
      st.location.Some? && st.location.value.host.Some? && st.format.Some? ==>
        Encode(cfg, t) == Failure(ConfigurationInvalid("{"))
  {
    PropertiesRoundTrip(t.columns);
  }

  /** Names made of characters that need no escape in a JSON string. */
  predicate PlainNames(cols: seq<Column>) {
    forall i :: 0 <= i < |cols| ==> IsPlain(cols[i].name)
  }

  /** A table whose properties are accepted, which names a location with a host and a
      format, and whose columns are plain and at least one, is encoded; the document holds
      the metadata of the table and, as `properties`, the object of the column members with
      their mapped types: one member per column in column order when the names are
      distinct, and one per name, with the type of the last such column, otherwise. */
  lemma {:induction false} EncodeSucceeds(cfg: Config, t: TableMetadata)
    requires Scan(cfg, t.properties).Success?
    requires var st := Scan(cfg, t.properties).value;
      st.location.Some? && st.location.value.host.Some? && st.format.Some?
    requires |t.columns| > 0 && PlainNames(t.columns)
    ensures var st := Scan(cfg, t.properties).value;
      Encode(cfg, t) == Success(SchemaDocument(
        MetadataBlock(t.schemaName, t.tableName, st.location.value.host.value,
                      st.location.value.path, st.hasHeaderRow, st.fieldDelimiter,
                      st.recordDelimiter, st.format.value),
        ObjectOf(Members(t.columns))))
  {
    PropertiesRoundTrip(t.columns);
  }

  /** What an encoded document records, stated against the table and its properties: the
      database and table name, `sources` with exactly one key (the location's host) mapped
      to a one-element array holding the location's path, the last-set header and
      delimiter values or their defaults, and the last-set format in lower case. */
  lemma {:induction false} EncodedMetadata(cfg: Config, t: TableMetadata)
    requires Encode(cfg, t).Success?
    ensures var doc := Encode(cfg, t).value;
      && doc.JObject? && |doc.members| == 4
      && doc.members[0].0 == "$comment" && doc.members[0].1.JEmbedded?
      && doc.members[3].0 == "properties" && doc.members[3].1.JObject?
      && var meta := doc.members[0].1.inner;
      && LastSetting(t.properties, "external_location").Some?
      && LastSetting(t.properties, "format").Some?
      && var loc := ParseLocation(LastSetting(t.properties, "external_location").value);
      && loc.Success? && loc.value.host.Some?
      && meta == MetadataBlock(t.schemaName, t.tableName, loc.value.host.value, loc.value.path,
           LastSetting(t.properties, "has_header_row").GetOr(cfg.defaultHasHeaderRow),
           LastSetting(t.properties, "field_delimiter").GetOr(cfg.defaultFieldDelimiter),
           LastSetting(t.properties, "record_delimiter").GetOr(cfg.defaultRecordDelimiter),
           LastSetting(t.properties, "format").value)
  {
    ScanSettings(cfg, t.properties);
  }
}
