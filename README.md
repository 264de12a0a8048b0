# S3 schema registry manager, modelled in Dafny

`S3SchemaRegistryManager` keeps the Presto S3 connector's catalog in a Pravega schema
registry. A Presto schema is a registry *group*. A table is a registry *schema type*, and
each `createTable` adds a new *version* of that type. The stored document is a JSON-Schema
object. Its `$comment` member holds a metadata block as JSON text: database, table name,
`sources = {bucket: [prefix]}`, header and delimiter settings, and the object format. Its
`properties` member holds one `{"type": t}` object per column, in column order.

The project models the manager's translation and registry logic:

- **`createTable`** (module `TableEncoding`, with `Locations`, `PropertyText` and
  `TypeMapping`):
  - the case-insensitive property scan, with defaults;
  - format validation;
  - the parse of `external_location` by `java.net.URI` into host (the bucket) and path
    (the prefix), and the syntax errors on which it throws;
  - the metadata block;
  - the column type map;
  - the hand-built properties string and its parse.
- **`getSchemaRegistryConfig`** (modules `TableDecoding` and `Snapshot`):
  - decoding one stored document into a catalog entry, reading the column types back
    and copying only the format hints that are present;
  - the walk over groups and listed versions. The walk gives bare entries for empty
    groups, returns `{}` when the registry is down, and discards everything after an
    unparsable document.
- **Registry operations** (module `Manager`): `dropTable`, `schemaExists`,
  `tableSchemaExists`, `createGroup`, `dropGroup` and `createTable`. They run over the
  registry state, which is the class `RegistryState.SchemaRegistry`:
  - a listing, either `Unreachable` or the ordered groups;
  - each group holds its ordered versions, with version numbers that grow;
  - the client's primitives are methods that change that state.

JSON values are the datatype `JsonModel.Json`, with object members in order. A `$comment`
text that is itself a serialised object is the constructor `JEmbedded`. The configuration
that is not part of this file is the parameter `TableEncoding.Config`. It holds
`S3Const.isValidFormatForQuery` and the defaults for `has_header_row`, `record_delimiter`
and `field_delimiter`.

Where the documented behaviour of the manager and its code disagree, the model follows
the code:

- **Unknown column types.** Encoding is documented to reject a column whose type has no
  JSON type. The code writes the empty type `""` and stores the table. The mismatch
  shows up only when the table is read back: `INVALID_TABLE_PROPERTY`
  (`TableDecoding.UnsupportedTypeFailsRead`).
- **Latest version per type.** The snapshot is documented to take the latest version of
  each type once. The code loops over every listed version and fetches the latest version of
  that version's type, so a type listed twice gives two identical entries
  (`Snapshot.ConfigTableEntry`).
- **Unparsable documents.** A document that cannot be decoded is documented to stop the
  walk and return what has been gathered. The code differs in two ways:
  - a document that does not parse returns `{}` and drops every entry gathered so far
    (`Snapshot.ConfigDiscards`);
  - any other decoding failure is an exception that leaves the call
    (`Snapshot.ConfigThrows`).
- **Location without a host.** `createTable` is documented to reject a location that is
  not `scheme://bucket/prefix`. The code rejects only URI syntax errors. A location
  without a host, or no location at all, fails later on the `null` key of `sources`
  (`NullReference("sources")` in `TableEncoding.Encode`).

## Model

| member | source | states |
|---|---|---|
| TypeMapping.ToJsonType | src/main/java/com/facebook/presto/s3/S3SchemaRegistryManager.java:199-211 | VARCHAR, DOUBLE, BIGINT, INTEGER and BOOLEAN (ignoring case) become string, number, integer, integer and boolean; the JSON type is `""` exactly when the display name is none of them |
| TypeMapping.TypeNamesExclusive | src/main/java/com/facebook/presto/s3/S3SchemaRegistryManager.java:200-210 | the display names the if-chain tests cannot match together, so the order of its branches does not change the result |
| TypeMapping.ToCatalogType | src/main/java/com/facebook/presto/s3/S3SchemaRegistryManager.java:381-392 | string, number, integer and boolean (ignoring case) read back as VARCHAR, DOUBLE, BIGINT and BOOLEAN; there is no catalog type exactly for any other stored type |
| TypeMapping.ReadBackWritten | src/main/java/com/facebook/presto/s3/S3SchemaRegistryManager.java:200-210 | a supported type read back after writing equals the original ignoring case, except that INTEGER returns as BIGINT; an unsupported type cannot be read back |
| TypeMapping.WriteReadBack | src/main/java/com/facebook/presto/s3/S3SchemaRegistryManager.java:381-392 | writing the catalog type read from a JSON type gives that JSON type in lower case |
| TypeMapping.ReadBackAgrees | src/main/java/com/facebook/presto/s3/S3SchemaRegistryManager.java:381-392 | the read-back of every supported display name is the named reference table (INTEGER and BIGINT both give BIGINT) |
| Text.EqualsIgnoreCaseIffSameLower | src/main/java/com/facebook/presto/s3/S3SchemaRegistryManager.java:147 | two names match ignoring case exactly when their lower-case forms are equal |
| JsonModel.Lookup | src/main/java/com/facebook/presto/s3/S3SchemaRegistryManager.java:380 | the member of an object for a key is absent exactly when no member carries that key |
| JsonModel.StringMember | src/main/java/com/facebook/presto/s3/S3SchemaRegistryManager.java:366-367 | `getString` succeeds exactly when the member is present and a string, and returns it |
| JsonModel.ObjectMember | src/main/java/com/facebook/presto/s3/S3SchemaRegistryManager.java:368 | `getJSONObject` succeeds exactly when the member is present and an object, and returns its members |
| JsonModel.EmbeddedObjectMember | src/main/java/com/facebook/presto/s3/S3SchemaRegistryManager.java:364-365 | reading `$comment` as text and parsing it succeeds exactly when the member is the serialisation of an object |
| JsonModel.LookupDistinct | src/main/java/com/facebook/presto/s3/S3SchemaRegistryManager.java:375-380 | in an object with distinct keys, looking up a member's key finds that member |
| PropertyText.BuildPropertyString | src/main/java/com/facebook/presto/s3/S3SchemaRegistryManager.java:193-222 | with no columns the string stays `{`; otherwise it is `{`, the `"name":{"type":t}` entries joined by `,` in column order, and `}` |
| PropertyText.ParseEntryText | src/main/java/com/facebook/presto/s3/S3SchemaRegistryManager.java:212 | one column's entry, for a name that needs no escape, parses back to that column's name and `{"type": t}` and leaves the rest of the text |
| PropertyText.ParseJoinComma | src/main/java/com/facebook/presto/s3/S3SchemaRegistryManager.java:212-217 | entries joined by commas and closed by `}` parse to their members, in order |
| PropertyText.PropertiesRoundTrip | src/main/java/com/facebook/presto/s3/S3SchemaRegistryManager.java:223-226 | the built string of no columns does not parse; otherwise it parses to the object Jackson builds from the column members read in order, which for distinct names is one member per column, in column order, carrying the column's JSON type |
| PropertyText.DistinctMembers | src/main/java/com/facebook/presto/s3/S3SchemaRegistryManager.java:223-226 | columns with distinct names give members with distinct keys, which the parsed object keeps unchanged |
| JsonModel.Put | src/main/java/com/facebook/presto/s3/S3SchemaRegistryManager.java:224-225 | adding a member with a new key appends it; with a key already present the object keeps its length and its keys in place |
| JsonModel.PutLookup | src/main/java/com/facebook/presto/s3/S3SchemaRegistryManager.java:224-225 | after adding a member its key holds the new value and every other key keeps its value |
| JsonModel.PutDistinct | src/main/java/com/facebook/presto/s3/S3SchemaRegistryManager.java:224-225 | adding a member keeps the keys of an object distinct |
| JsonModel.ObjectOfLookup | src/main/java/com/facebook/presto/s3/S3SchemaRegistryManager.java:224-225 | the object read from members has distinct keys, and each key holds the value of the last member read with it (a repeated column name keeps its last type) |
| JsonModel.ObjectOfDistinct | src/main/java/com/facebook/presto/s3/S3SchemaRegistryManager.java:224-225 | members with distinct keys are read into the object of exactly those members, in order |
| JsonModel.LastLookup | src/main/java/com/facebook/presto/s3/S3SchemaRegistryManager.java:224-225 | there is no last member for a key exactly when no member carries it |
| Locations.ServerLocation | src/main/java/com/facebook/presto/s3/S3SchemaRegistryManager.java:165-171 | `scheme://authority path[?query][#fragment]` is a URI exactly when authority, path, query and fragment each pass `java.net.URI`'s character check (so `[`, `]`, a `%` without two hex digits, controls and spaces make `createTable` throw CONFIGURATION_INVALID); the host is then the authority's `getHost()`, and the path is as written when it holds no escape |
| Locations.ParseBucketLocation | src/main/java/com/facebook/presto/s3/S3SchemaRegistryManager.java:165-167 | `scheme://bucket/prefix`, with a well-formed scheme, a bucket that is a hostname and a prefix that passes the path check without escapes, gives the bucket as host and `/prefix` as path |
| Locations.BracketInPathFails | src/main/java/com/facebook/presto/s3/S3SchemaRegistryManager.java:165-171 | a `[` or `]` in the path makes `new URI` throw, so the location is rejected with CONFIGURATION_INVALID |
| Locations.MalformedEscapeFails | src/main/java/com/facebook/presto/s3/S3SchemaRegistryManager.java:165-171 | a `%` in the path that is not followed by two hexadecimal digits makes `new URI` throw |
| Locations.ControlOrSpaceFails | src/main/java/com/facebook/presto/s3/S3SchemaRegistryManager.java:165-171 | an ASCII or non-ASCII control character or a Unicode space in the path makes `new URI` throw |
| Locations.OpaqueLocation | src/main/java/com/facebook/presto/s3/S3SchemaRegistryManager.java:165-171 | after a scheme without a following `/`, the location is a URI exactly when the text before `#` is non-empty and passes the check (so `s3:` and `s3:#x` throw), and then it has no host |
| Locations.InvalidSchemeFails | src/main/java/com/facebook/presto/s3/S3SchemaRegistryManager.java:165-171 | a `:` before any `/`, `?` or `#` after text that is not a well-formed scheme makes `new URI` throw |
| Locations.HostnameIsHost | src/main/java/com/facebook/presto/s3/S3SchemaRegistryManager.java:167 | an authority that is a hostname is its own host |
| Locations.LabelIsHostname | src/main/java/com/facebook/presto/s3/S3SchemaRegistryManager.java:167 | a single label of letters, digits and inner hyphens is a hostname |
| Locations.PortedHost | src/main/java/com/facebook/presto/s3/S3SchemaRegistryManager.java:167 | a hostname with a decimal port is the host exactly when the port fits an `int`; above 2147483647 the authority is a registry name without host, so the bucket is `null` |
| Locations.RegistryNameHasNoHost | src/main/java/com/facebook/presto/s3/S3SchemaRegistryManager.java:167 | an authority without user info or port that holds a character no hostname may contain (such as `_`) has no host, so the bucket is `null` |
| TableEncoding.LastSetting | src/main/java/com/facebook/presto/s3/S3SchemaRegistryManager.java:146-162 | no setting exactly when no property key matches ignoring case; otherwise the value of the last matching property |
| TableEncoding.ScanProperties | src/main/java/com/facebook/presto/s3/S3SchemaRegistryManager.java:143-175 | the property loop ends in the state or the exception of the scan over the properties in order |
| TableEncoding.ScanFailure | src/main/java/com/facebook/presto/s3/S3SchemaRegistryManager.java:147-172 | the loop throws exactly when some property is rejected (an invalid `format` value, or an `external_location` on which `new URI` throws, as `Locations.ParseLocation` defines it), and the exception is that of the first rejected property |
| TableEncoding.ScanSettings | src/main/java/com/facebook/presto/s3/S3SchemaRegistryManager.java:143-175 | after the loop, format, header row and delimiters are the last matching values, or the defaults when there are none; the location is set exactly when a location is given, and it is the parse of the last one |
| TableEncoding.EncodeTable | src/main/java/com/facebook/presto/s3/S3SchemaRegistryManager.java:136-230 | the document building of `createTable` gives the document, or the first exception, that `Encode` defines |
| TableEncoding.NoColumnsRejected | src/main/java/com/facebook/presto/s3/S3SchemaRegistryManager.java:223-230 | a table without columns is never stored; with a bucket and a format it fails with CONFIGURATION_INVALID on the text `{` |
| TableEncoding.EncodeSucceeds | src/main/java/com/facebook/presto/s3/S3SchemaRegistryManager.java:176-230 | accepted properties with a bucket, a format and at least one column whose name needs no escape give the document of the metadata block and the object Jackson reads from the column members (one member per distinct name, with the last type given for it) |
| TableEncoding.EncodedMetadata | src/main/java/com/facebook/presto/s3/S3SchemaRegistryManager.java:176-192 | a stored document has four members, with `$comment` (the embedded metadata block) first and `properties` last. The metadata block records database, table name, `{bucket: [prefix]}` of the last location, the last header and delimiter settings (or the defaults), and the last format in lower case |
| TableDecoding.DecodeColumn | src/main/java/com/facebook/presto/s3/S3SchemaRegistryManager.java:377-392 | a column with a readable stored type gives its name and catalog type; any other stored type throws INVALID_TABLE_PROPERTY for that column |
| TableDecoding.CollectFirstFailure | src/main/java/com/facebook/presto/s3/S3SchemaRegistryManager.java:376-394 | when the column loop fails, it fails with the error of the first failing column, all columns before it having succeeded |
| TableDecoding.CollectAll | src/main/java/com/facebook/presto/s3/S3SchemaRegistryManager.java:376-394 | the column loop succeeds exactly when every column does, and then yields one column per key in key order |
| TableDecoding.DecodeColumns | src/main/java/com/facebook/presto/s3/S3SchemaRegistryManager.java:374-394 | the column loop gives the columns, or the first failure, of the per-key steps in stored key order |
| TableDecoding.DecodePayload | src/main/java/com/facebook/presto/s3/S3SchemaRegistryManager.java:354-409 | decoding one document with its loop gives the entry, the early return, or the exception that `DecodeDocument` defines |
| TableDecoding.StringHintsPresentOnly | src/main/java/com/facebook/presto/s3/S3SchemaRegistryManager.java:397-406 | every copied string hint is one of the hint keys with its metadata value, and every hint key in the metadata is copied |
| TableDecoding.HintsPresentOnly | src/main/java/com/facebook/presto/s3/S3SchemaRegistryManager.java:397-408 | the hints of an entry are exactly the hint keys and `sources` present in the metadata, with their values; `sources` comes last |
| TableDecoding.EntryNamesFromMetadata | src/main/java/com/facebook/presto/s3/S3SchemaRegistryManager.java:364-373 | a decoded entry's `schema_name` and `table_name` are the metadata's `database` and `tablename`, not the group or type name |
| TableDecoding.DecodeWrittenColumn | src/main/java/com/facebook/presto/s3/S3SchemaRegistryManager.java:375-394 | each written column reads back as its name with its read-back type when the type is supported, and throws INVALID_TABLE_PROPERTY otherwise |
| TableDecoding.MetadataLookups | src/main/java/com/facebook/presto/s3/S3SchemaRegistryManager.java:178-188 | each key of the metadata block holds the value written for it |
| TableDecoding.MetadataNoFooter | src/main/java/com/facebook/presto/s3/S3SchemaRegistryManager.java:184-188 | a written metadata block has no `hasFooterRow`, so reading it back never copies one |
| TableDecoding.HintsOfSettings | src/main/java/com/facebook/presto/s3/S3SchemaRegistryManager.java:397-408 | metadata with string settings, no footer and an object `sources` gives the hints format, header, record and field delimiters, then `sources` |
| TableDecoding.MetadataHints | src/main/java/com/facebook/presto/s3/S3SchemaRegistryManager.java:397-408 | the hints read from a written metadata block are the settings written into it |
| TableDecoding.DecodeFieldsOf | src/main/java/com/facebook/presto/s3/S3SchemaRegistryManager.java:364-409 | a document with readable metadata, names and properties decodes to the entry of its columns and hints, or throws the first column failure |
| TableDecoding.DecodeWrittenDocument | src/main/java/com/facebook/presto/s3/S3SchemaRegistryManager.java:364-409 | the document of any metadata block and properties decodes to the entry of those settings and columns, or throws the first column failure |
| TableDecoding.DecodeEncoded | src/main/java/com/facebook/presto/s3/S3SchemaRegistryManager.java:375-394 | a stored table with supported types and distinct names that need no escape decodes to its database, its name, its columns in order with read-back types, and its settings |
| TableDecoding.ColumnsReadBack | src/main/java/com/facebook/presto/s3/S3SchemaRegistryManager.java:375-394 | the written members of columns with supported types and distinct names read back as those columns, in order |
| TableDecoding.UnsupportedTypeFailsRead | src/main/java/com/facebook/presto/s3/S3SchemaRegistryManager.java:389-391 | a stored table with a column of unsupported type throws INVALID_TABLE_PROPERTY for the first such column when read |
| RegistryState.LatestIndex | src/main/java/com/facebook/presto/s3/S3SchemaRegistryManager.java:349 | `getLatestSchemaVersion` finds the last listed version of the same type |
| RegistryState.LatestIsHighest | src/main/java/com/facebook/presto/s3/S3SchemaRegistryManager.java:349 | no listed version of that type has a higher version number than the latest one |
| RegistryState.RemoveVersionMembers | src/main/java/com/facebook/presto/s3/S3SchemaRegistryManager.java:113 | deleting a version keeps exactly the versions with other numbers |
| RegistryState.RemoveVersionIncreasing | src/main/java/com/facebook/presto/s3/S3SchemaRegistryManager.java:113 | deleting a version keeps the version numbers of a group growing |
| RegistryState.SchemaRegistry.GroupNames | src/main/java/com/facebook/presto/s3/S3SchemaRegistryManager.java:248 | `listGroups` fails exactly on an unreachable registry, and otherwise yields the group names in listing order |
| RegistryState.SchemaRegistry.Schemas | src/main/java/com/facebook/presto/s3/S3SchemaRegistryManager.java:110 | `getSchemas` fails on an unreachable registry, throws ResourceNotFound for a missing group, and otherwise yields that group's versions |
| RegistryState.SchemaRegistry.LatestVersion | src/main/java/com/facebook/presto/s3/S3SchemaRegistryManager.java:349 | the latest version has the same type and no lower version number than any version of that type |
| RegistryState.SchemaRegistry.AddGroup | src/main/java/com/facebook/presto/s3/S3SchemaRegistryManager.java:87 | `addGroup` adds the name when it is new and reports whether it was new; it keeps the registry valid and fails on an unreachable registry |
| RegistryState.SchemaRegistry.RemoveGroup | src/main/java/com/facebook/presto/s3/S3SchemaRegistryManager.java:99 | `removeGroup` removes the named group, keeps the registry valid, and fails on an unreachable registry |
| RegistryState.SchemaRegistry.AddSchema | src/main/java/com/facebook/presto/s3/S3SchemaRegistryManager.java:237 | `addSchema` appends a version with the next number to the named group; it fails without change on an unreachable registry or a missing group |
| RegistryState.SchemaRegistry.DeleteSchemaVersion | src/main/java/com/facebook/presto/s3/S3SchemaRegistryManager.java:113 | `deleteSchemaVersion` removes the versions with that number from the named group and keeps the registry valid; it fails on an unreachable registry and with ResourceNotFound on a missing group |
| Snapshot.LatestsAt | src/main/java/com/facebook/presto/s3/S3SchemaRegistryManager.java:343-349 | the item read for the k-th listed version of a group is the latest version of that version's type |
| Snapshot.BlockBare | src/main/java/com/facebook/presto/s3/S3SchemaRegistryManager.java:412-420 | a group without schemas adds exactly its bare entry |
| Snapshot.WalkCollects | src/main/java/com/facebook/presto/s3/S3SchemaRegistryManager.java:339-421 | the walk gathers entries to the end exactly when every item decodes to an entry, and then it has one entry per item, in order |
| Snapshot.WalkStopsAtFirst | src/main/java/com/facebook/presto/s3/S3SchemaRegistryManager.java:355-392 | the first item that does not decode ends the walk: abandoned when it does not parse, with its exception when it throws |
| Snapshot.WalkGroupsStopped | src/main/java/com/facebook/presto/s3/S3SchemaRegistryManager.java:359-361 | once the walk has stopped, the later groups are not read |
| Snapshot.ConfigEmptyIff | src/main/java/com/facebook/presto/s3/S3SchemaRegistryManager.java:324-362 | the result is `{}` exactly when the registry is down, lists no group, or the walk reaches an unparsable document before any exception |
| Snapshot.ConfigEntries | src/main/java/com/facebook/presto/s3/S3SchemaRegistryManager.java:422-425 | when every item decodes, the result is `{"schemas": [...]}` with one entry per item in group-then-listing order |
| Snapshot.ConfigDiscards | src/main/java/com/facebook/presto/s3/S3SchemaRegistryManager.java:355-362 | an unparsable document after only readable ones makes the result `{}`, dropping the entries gathered so far |
| Snapshot.ConfigThrows | src/main/java/com/facebook/presto/s3/S3SchemaRegistryManager.java:364-392 | a document that throws after only readable ones makes the call throw that exception |
| Snapshot.ConfigEmptyGroup | src/main/java/com/facebook/presto/s3/S3SchemaRegistryManager.java:412-420 | a group without schemas contributes exactly `schemaTableName.schema_name` = its name, after the entries of earlier groups |
| Snapshot.ConfigTableEntry | src/main/java/com/facebook/presto/s3/S3SchemaRegistryManager.java:343-410 | the k-th listed version of a group contributes the entry of the latest version of its type, after the entries of earlier groups |
| Manager.FirstMatching | src/main/java/com/facebook/presto/s3/S3SchemaRegistryManager.java:293-297 | the group `tableSchemaExists` stops at is the first whose name matches ignoring case, and there is none exactly when no name matches |
| Manager.FirstMatchingFound | src/main/java/com/facebook/presto/s3/S3SchemaRegistryManager.java:298-299 | `getSchemas` on the first case-insensitive match's own name finds that very group |
| Manager.CreateGroup | src/main/java/com/facebook/presto/s3/S3SchemaRegistryManager.java:75-88 | `createGroup` adds the group and fails exactly when the registry is unreachable |
| Manager.DropGroup | src/main/java/com/facebook/presto/s3/S3SchemaRegistryManager.java:90-100 | `dropGroup` removes the group and fails exactly when the registry is unreachable |
| Manager.CreatedGroupListed | src/main/java/com/facebook/presto/s3/S3SchemaRegistryManager.java:87 | after `createGroup` on a reachable registry, `schemaExists` holds for the name |
| Manager.DroppedGroupGone | src/main/java/com/facebook/presto/s3/S3SchemaRegistryManager.java:99 | after `dropGroup` exactly the other groups remain, and the schema still exists only through a name that differs in case |
| Manager.CreateTable | src/main/java/com/facebook/presto/s3/S3SchemaRegistryManager.java:124-238 | `createTable` throws the encoding's exception without touching the registry; otherwise it stores the document as the next version of the table's type in the schema's group, or fails without change when the registry is down or the group is missing |
| Manager.CreatedTableListed | src/main/java/com/facebook/presto/s3/S3SchemaRegistryManager.java:237 | after a table is stored in the group `tableSchemaExists` consults, the table exists |
| Manager.CreatedTableIsLatest | src/main/java/com/facebook/presto/s3/S3SchemaRegistryManager.java:237 | after a table is stored, every listed version of its type in the group has the new version as its latest, so the snapshot decodes the new document for each of them |
| Manager.UnmatchedMembers | src/main/java/com/facebook/presto/s3/S3SchemaRegistryManager.java:110-115 | the versions `dropTable` keeps are exactly those whose type differs from the table name ignoring case |
| Manager.DeleteNextMatch | src/main/java/com/facebook/presto/s3/S3SchemaRegistryManager.java:111-113 | deleting the current matching version, in listing order, removes just that version from what is left |
| Manager.DropTable | src/main/java/com/facebook/presto/s3/S3SchemaRegistryManager.java:102-122 | `dropTable` leaves the registry as `DroppedTable` describes: unchanged when the registry is down or the group is missing, otherwise with only the versions of other types in that group |
| Manager.DeleteMatching | src/main/java/com/facebook/presto/s3/S3SchemaRegistryManager.java:110-115 | the loop over the listed versions leaves the group with the versions of other types, in their order, and every other group unchanged |
| Manager.DeleteIfMatching | src/main/java/com/facebook/presto/s3/S3SchemaRegistryManager.java:111-114 | one turn of the loop deletes the version when its type matches and keeps it otherwise |
| Manager.DroppedTableContents | src/main/java/com/facebook/presto/s3/S3SchemaRegistryManager.java:106-121 | after `dropTable` the group keeps exactly its versions of other types, and every other group is untouched |
| Manager.DroppedTableNotListed | src/main/java/com/facebook/presto/s3/S3SchemaRegistryManager.java:102-122 | after `dropTable` on the group `tableSchemaExists` consults, the table no longer exists |
| Manager.SchemaExists | src/main/java/com/facebook/presto/s3/S3SchemaRegistryManager.java:240-269 | `schemaExists` is true exactly when the registry is reachable and some group name matches ignoring case |
| Manager.TableSchemaExists | src/main/java/com/facebook/presto/s3/S3SchemaRegistryManager.java:271-309 | `tableSchemaExists` is true exactly when the first group matching the schema ignoring case has a type matching the table ignoring case |
| Manager.AnyTypeMatches | src/main/java/com/facebook/presto/s3/S3SchemaRegistryManager.java:298-306 | the inner loop is true exactly when some version's type matches the table name ignoring case |
| Manager.TableListedSchemaListed | src/main/java/com/facebook/presto/s3/S3SchemaRegistryManager.java:271-309 | whenever `tableSchemaExists` holds, `schemaExists` holds for the schema |
| Manager.ReadGroup | src/main/java/com/facebook/presto/s3/S3SchemaRegistryManager.java:342-420 | reading one group continues the walk over that group's items: the latest document of each listed version's type, or the bare entry of an empty group |
| Manager.GetSchemaRegistryConfig | src/main/java/com/facebook/presto/s3/S3SchemaRegistryManager.java:311-426 | `getSchemaRegistryConfig` returns, or throws, what the snapshot `RegistryConfig` of the listing gives |
| Manager.ReadGroups | src/main/java/com/facebook/presto/s3/S3SchemaRegistryManager.java:339-421 | the loop over the groups ends in the walk over all groups, stopping at the group where it stops |

## Left out

- Logging, and the construction of the client and of its URL, are left out. They have no
  effect on the results.
- Registry failures are not modelled fully. An unreachable registry is the listing
  `Unreachable`, and `ProcessingException` is the error `RegistryUnreachable`. A registry
  that fails between two calls of one operation is not modelled.
- JSON text is not modelled. Jackson's and `org.json`'s own parsing and serialisation are
  foreign code. Documents are the `Json` datatype. Only the properties string of
  `createTable` is text, parsed by a parser for what that builder produces.
- Column names that need JSON escapes are not modelled. The properties-string round trip
  is proved only for names without `"`, `\` or control characters. The code pastes such a
  name into the text unescaped. Jackson then either fails on the text or reads whatever
  key the escapes in it spell: the name `a\tb` is stored under the key `a`, TAB, `b`,
  which is not the column name. The model's parser refuses every such name, so the model
  fails with CONFIGURATION_INVALID where the code may store the table.
- Unordered JSON objects are not modelled. `org.json`'s `JSONObject` does not keep member
  order, while the model writes members in the order the code adds them.
- ParseLocation: IPv6 literals are not modelled. An authority holding `[` or `]` is
  checked only against the characters an authority may hold, and its host is read as if
  the brackets were ordinary characters. Java parses the literal instead: it reads the
  host of a well-formed literal and throws on a malformed one.
- ParseLocation: `getPath()` decodes percent escapes, and the model's path keeps them as
  written. Malformed escapes are modelled: they make the parse fail, as in Java.
  ServerLocation and ParseBucketLocation state the path only when it holds no `%`.
- ParseLocation: `getPath()` of an opaque location such as `s3:bucket` is `null`, and the
  model's path is the opaque text. No code path uses it, because such a location has no
  host and `createTable` then fails on the `null` key of `sources`.
- ParseLocation: `SpaceChar` follows Java 8's tables (Unicode 6.2), in which U+180E is a
  space; later JDKs do not treat it as one.
- ServerLocation: for an authority holding `[` or `]`, its "exactly when" states the
  model's check rather than Java's, for the reason given in the IPv6 line above.
- ScanFailure: its "throws exactly when" inherits the IPv6 gap above. An
  `external_location` whose authority holds a malformed IPv6 literal throws in Java, and
  the model accepts it when its characters are allowed in an authority.
- The `replaceAll` applied to the comment text is left out. Its replacement denotes a
  plain quote, so it changes nothing.
- `S3Const.isValidFormatForQuery` and the `DEFAULT_*` settings are not part of this model.
  They are the fields of `TableEncoding.Config`.
- Registry-side semantics belong to the registry and are not modelled:
  - whether `getSchemas` lists every version or one per type (the model takes the
    listing as given, with growing version numbers);
  - compatibility checks;
  - what `removeGroup` does to the versions of the group.
- Text.EqualsIgnoreCaseIffSameLower: the model folds only ASCII letters. Java's
  `equalsIgnoreCase` and `toLowerCase` fold all of Unicode, so for example `ſ` matches `s`
  there but not here.
- Null pointers and `org.json`'s `JSONException` are not modelled one by one. Each
  becomes an error result: `NullReference` or `MalformedMember`.
