/** Column metadata: the schema table's rows and the loader's column descriptors. */
module Columns {
  import opened Values

  /** `OracleLoaderColumnInfo`: one writable column of the destination table. */
  datatype ColumnInfo = ColumnInfo(
    name: string,
    clrType: ClrType,
    allowNull: bool,
    providerType: ProviderTag,
    size: int)

  /** One row of the schema table the driver returns for the destination table. */
  datatype CatalogRow = CatalogRow(
    columnName: string,
    dataType: ClrType,
    allowDBNull: bool,
    providerType: ProviderTag,
    columnSize: int,
    isReadOnly: bool)

  /** The descriptor the loader builds from one schema-table row. */
  function ColumnOf(row: CatalogRow): (c: ColumnInfo)
    ensures c.name == row.columnName && c.clrType == row.dataType
    ensures c.allowNull == row.allowDBNull && c.providerType == row.providerType
    ensures c.size == row.columnSize
  {
    ColumnInfo(row.columnName, row.dataType, row.allowDBNull, row.providerType, row.columnSize)
  }

  /** The column names in schema order. */
  function Names(columns: seq<ColumnInfo>): (names: seq<string>)
    ensures |names| == |columns|
    ensures forall i :: 0 <= i < |columns| ==> names[i] == columns[i].name
  {
    seq(|columns|, i requires 0 <= i < |columns| => columns[i].name)
  }
}
