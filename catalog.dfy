/** The query engine's table metadata, as handed to `createTable`. */
module Catalog {

  /** A column: its name and the display name of its type (`VARCHAR`, `bigint`, ...). */
  datatype Column = Column(name: string, typeName: string)

  /** `ConnectorTableMetadata`: the schema (registry group) and table names, the columns in
      declaration order, and the table properties in the order the engine's map yields them. */
  datatype TableMetadata = TableMetadata(
    schemaName: string,
    tableName: string,
    columns: seq<Column>,
    properties: seq<(string, string)>)
}
