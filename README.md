# OracleLoader bulk-insert buffer, modelled in Dafny

This project models the in-memory core of `OracleLoader`, a client-side
bulk loader for Oracle tables. A caller opens the loader on a table, sets
column values row by row with `SetValue`, and moves to the next row with
`NextRow`. The loader keeps the rows in a buffer whose last element is the
current row. When the buffer is full, and again at `Close`, it drops the
empty rows and sends the rest to the database as one array-bound
`insert into T (c1, c2, ...) values (:0, :1, ...)`. While loading it can
disable the constraints tied to the table and enable them again at `Close`.

The model is a class `OracleLoader.Loader` with the source's fields
(`columns`, `records`, `bufferSize`, `tableName`, `disableConstraints`) and
one method per operation. Each method is proved against specification
functions in module `LoaderSpec`:
- `FindColumn` and `CheckValue` cover SetValue's checks;
- `WritableColumns` covers the column loading;
- `MissingRequired` covers NextRow's required-column check;
- `NonEmptyRows`, `FlushStep` and `NextRowStep` cover the buffer;
- `InsertCommand` (module `InsertStatement`) covers the insert a flush builds.

Lemmas state the loader's promises about these functions. Module
`LoaderScenarios` traces concrete call sequences through the methods'
contracts.

The database is reached only through the driver, which is not modelled:
- the schema table is an input sequence of rows;
- every insert handed to the driver is appended to the field `issued`;
- every constraint script is appended to `constraintEvents`;
- whether the driver's execute returned or threw is a boolean parameter of
  the operation that issues it (`flushOk`, `execOk`, `disableOk`,
  `enableOk`).

The runtime's `Convert.ChangeType` is the loader's constant `changeType`.
The only fact assumed about it is that converting null throws or gives null.

The model follows the code as written in four places where a caller might
expect something else:
- `NextRow` checks the current row whenever the buffer is non-empty, even
  when that row is empty. So `NextRow` right after `Open` fails when the
  table has a required column (`LoaderScenarios.NextRowRightAfterOpen`).
- A failed insert leaves the non-empty rows in the buffer. The buffer is
  cleared only after the execute returns (`LoaderScenarios.FailedFlushKeepsRows`).
- `SetValue(c, null)` on a nullable column fails. The type check is false
  for null, and building the type error then reads the type of the null
  value (`LoaderScenarios.NullForNullableColumn`). So the buffer never holds
  a null; `Loader.Valid` records this.
- Setting a column twice in one row fails, because the row is a dictionary
  whose `Add` refuses a key it already holds (`LoaderScenarios.SameColumnTwice`).

## Model

| member | source | states |
|---|---|---|
| TypeChecker.CanConvert | Internal/TypeChecker.cs:7-19 | the check passes exactly when the runtime conversion returns a non-null object; it fails when the conversion throws |
| TypeChecker.NullNeverConverts | Internal/TypeChecker.cs:9-18 | a null value never passes the type check, whatever the target type |
| LoaderRecord.GetSafeValue | Internal/OracleLoaderRecord.cs:7-15 | gives the stored value when the key is present and null when it is absent |
| LoaderRecord.Add | Internal/OracleLoaderRecord.cs:5 | a new key is inserted with its value and every other entry is kept; a key already present fails with a duplicate-key error and nothing is overwritten |
| LoaderRecord.AbsentAndNullLookAlike | Internal/OracleLoaderRecord.cs:9-14 | an absent key and a key mapped to null both give null, so the lookup cannot tell them apart |
| LoaderRecord.SafeValueNullIffUnset | Internal/OracleLoaderRecord.cs:9-14 | in a row that holds no null, the lookup gives null exactly for the unset keys |
| LoaderRecord.AddThenGet | Internal/OracleLoaderRecord.cs:5-15 | after adding a new key, the lookup gives the added value for it and the old result for every other key |
| Columns.ColumnOf | OracleLoader.cs:178-185 | the column descriptor copies name, type, nullability, provider type and size from the schema-table row |
| Columns.Names | OracleLoader.cs:206 | the column list of the insert holds one name per column, in column order |
| InsertStatement.Placeholders | OracleLoader.cs:207 | there are exactly as many positional parameters as columns, and parameter `i` is named `:i` |
| InsertStatement.NatToStringInjective | OracleLoader.cs:207 | distinct parameter numbers are written as distinct decimal texts |
| InsertStatement.PlaceholdersDistinct | OracleLoader.cs:207 | no two columns share a positional parameter name |
| InsertStatement.NatToString | OracleLoader.cs:207 | a parameter number is written as a non-empty string of decimal digits; NatToStringRoundTrip states which digits |
| InsertStatement.NatToStringRoundTrip | OracleLoader.cs:207 | read back as a decimal numeral, the text of `n` denotes exactly `n`, and a text of more than one digit has no leading zero, so parameter `i` is named `:i` |
| InsertStatement.Join | OracleLoader.cs:206-207 | the joined text is as long as the parts plus one separator between each pair of neighbours, and starts with the first part; with JoinAppend this fixes it completely |
| InsertStatement.JoinAppend | OracleLoader.cs:206-207 | joining two non-empty lists one after the other gives the first join, one separator, then the second join, so every column name keeps its place and the column list follows column order, as the placeholders do |
| InsertStatement.InsertText | OracleLoader.cs:203-207 | the statement text starts with `insert into `, the table name and ` (`, and ends by closing the value list |
| InsertStatement.BindValues | OracleLoader.cs:214 | a column's bound array has one entry per row; entry `j` is row `j`'s value for that column, or null when the row does not set it |
| InsertStatement.Parameters | OracleLoader.cs:209-216 | one parameter per column, in column order, carrying that column's provider type, size and bound array |
| InsertStatement.InsertCommand | OracleLoader.cs:202-216 | the insert's bind count is the number of rows; parameter `i` at index `j` holds row `j`'s value for column `i`, or null when unset |
| LoaderSpec.WritableColumnsAppend | OracleLoader.cs:172-187 | loading a schema table part by part gives the parts' columns one after the other, so schema order is kept |
| LoaderSpec.WritableColumnsMembers | OracleLoader.cs:172-187 | a column is loaded exactly when some schema-table row that is not read-only describes it |
| LoaderSpec.WritableColumns | OracleLoader.cs:172-187 | loads at most one column per schema-table row; its append and membership lemmas above fix it completely |
| LoaderSpec.IsNullOrEmpty | OracleLoader.cs:38 | a table name that passes the check is present and has at least one character |
| LoaderSpec.TableText | OracleLoader.cs:203-205 | a missing table name renders as the empty text; a set, non-empty name renders as itself |
| LoaderSpec.FindColumn | OracleLoader.cs:53 | finds nothing exactly when no column has the name; otherwise gives the first column with that name |
| LoaderSpec.CheckValue | OracleLoader.cs:53-71 | an unknown name fails with column-not-found; the value is accepted exactly when the column exists, a null goes only to a nullable column, and the value passes the type check; the accepted column is the one found by name |
| LoaderSpec.NullNeverAccepted | OracleLoader.cs:59-70 | a null for a required column fails with a null-not-allowed error naming exactly that column; a null for a nullable column fails with a null-reference error |
| LoaderSpec.MismatchReportsBothTypes | OracleLoader.cs:64-70 | a non-null value the type check rejects fails with a type error that gives the column's type and the value's type |
| LoaderSpec.MissingRequiredMembers | OracleLoader.cs:80-84 | a name is reported exactly when a required column of that name has no value in the row |
| LoaderSpec.MissingRequiredAppend | OracleLoader.cs:80-88 | the report lists the missing columns part by part, so it follows schema order |
| LoaderSpec.EmptyRowMissesEveryRequired | OracleLoader.cs:78-90 | an empty row is reported complete exactly when every column is nullable |
| LoaderSpec.MissingRequired | OracleLoader.cs:80-84 | reports at most one name per column; its membership and append lemmas above fix it completely |
| LoaderSpec.NonEmptyRowsMembers | OracleLoader.cs:199 | the flush keeps exactly the rows that hold at least one value |
| LoaderSpec.NonEmptyRowsAppend | OracleLoader.cs:199 | the filter works part by part, so the kept rows stay in buffer order |
| LoaderSpec.NonEmptyRowsIdempotent | OracleLoader.cs:199 | filtering the kept rows again drops nothing, so a retried flush sends the same rows |
| LoaderSpec.NonEmptyRowsHoldNoNull | OracleLoader.cs:199 | rows that hold no null still hold no null after the filter |
| LoaderSpec.NonEmptyRows | OracleLoader.cs:199 | keeps at most as many rows as the buffer holds; its membership and append lemmas above fix it completely |
| LoaderSpec.FlushStep | OracleLoader.cs:197-222 | a flush issues at most one insert and a flush that passes leaves the buffer empty; FlushEffect and FlushCarriesEveryValue state the rest |
| LoaderSpec.FlushEffect | OracleLoader.cs:197-222 | an insert is issued exactly when a non-empty row remains, and it carries exactly the non-empty rows; the buffer is empty afterwards unless the execute failed, in which case the non-empty rows stay |
| LoaderSpec.FlushCarriesEveryValue | OracleLoader.cs:199-216 | every non-empty buffered row is in the one issued batch, and each parameter holds that row's value for its column |
| LoaderSpec.NextRowEffect | OracleLoader.cs:76-99 | a row missing required columns is reported and the buffer is left alone; otherwise an insert carrying exactly the non-empty rows is issued exactly when the buffer has reached the buffer size and holds a non-empty row, the step fails exactly when that insert fails, and then the non-empty rows stay; on success the kept rows are followed by a new empty current row |
| LoaderSpec.NextRowStep | OracleLoader.cs:76-99 | a step issues at most one insert and a step that passes ends with an empty current row; NextRowEffect and the lemmas below state the rest |
| LoaderSpec.NextRowOnEmptyBuffer | OracleLoader.cs:194 | on an empty buffer, as when Open runs on a new loader, NextRow issues nothing and leaves exactly one empty current row |
| LoaderSpec.NextRowReportsEveryMissingColumn | OracleLoader.cs:78-90 | the error lists exactly the required columns the current row lacks, and nothing is flushed or appended |
| LoaderSpec.NextRowKeepsBufferBounded | OracleLoader.cs:93-98 | from any buffer, even one larger than a buffer size lowered meanwhile, a successful step leaves between 1 and max(buffer size, 1) rows; it leaves one row exactly when it flushed or the buffer was empty |
| LoaderSpec.NextRowOnEmptyCurrentRow | OracleLoader.cs:78-95 | with an empty current row, the step fails exactly when some column is required or a needed flush failed |
| OracleLoader.ReadColumns | OracleLoader.cs:172-187 | the loop keeps exactly the writable columns, in schema-table order |
| OracleLoader.BuildInsert | OracleLoader.cs:202-216 | the command built column by column is the insert for the batch |
| OracleLoader.Loader.constructor | OracleLoader.cs:14-22 | a new loader has no columns and no rows, a buffer size of 100, no table name, and constraint disabling on |
| OracleLoader.Loader.CurrentRow | OracleLoader.cs:26-32 | the current row is the last record; an empty buffer has none and fails with the empty-sequence error |
| OracleLoader.Loader.Open | OracleLoader.cs:36-49 | a null or empty table name fails before columns, rows or constraints change; otherwise the writable columns are loaded, NextRow runs, and the constraints are disabled exactly when the flag is set and NextRow passed |
| OracleLoader.Loader.CreateColumns | OracleLoader.cs:161-195 | the columns become the writable ones, then the buffer takes one NextRow step |
| OracleLoader.Loader.DoDisableConstraints | OracleLoader.cs:113-135 | one disabling script for the table is issued; a failed execute is reported |
| OracleLoader.Loader.DoEnableConstraints | OracleLoader.cs:137-159 | one enabling script for the table is issued; a failed execute is reported |
| OracleLoader.Loader.SetValue | OracleLoader.cs:51-74 | a failed check leaves the rows unchanged; an empty buffer and a column already set fail; otherwise exactly one entry is added to the last row and no other row changes |
| OracleLoader.Loader.NextRow | OracleLoader.cs:76-99 | the rows and issued inserts become those of one NextRow step, and no row holds a null |
| OracleLoader.Loader.ReportListsUnsetColumns | OracleLoader.cs:78-90 | because the buffer holds no null, the columns NextRow reports are exactly the required columns whose name the current row does not hold |
| OracleLoader.Loader.Close | OracleLoader.cs:101-109 | all rows are flushed, the current one too; constraints are enabled exactly when the flag is set and the flush passed |
| OracleLoader.Loader.Flush | OracleLoader.cs:197-222 | the rows and issued inserts become those of one flush step |
| LoaderScenarios.BufferOfTwo | OracleLoader.cs:93-103 | with a buffer of two, three rows of `id` go out as two inserts, rows 1 and 2 from the second NextRow and row 3 from Close, between one disabling and one enabling of the constraints |
| LoaderScenarios.NextRowRightAfterOpen | OracleLoader.cs:78-90 | NextRow right after Open fails for a required column and the buffer keeps its one empty row |
| LoaderScenarios.NullForNullableColumn | OracleLoader.cs:64-70 | a null for a nullable column fails with a null-reference error and is not stored |
| LoaderScenarios.SetValueAfterClose | OracleLoader.cs:26-32 | after Close the buffer is empty, so a valid SetValue fails with the empty-sequence error |
| LoaderScenarios.SameColumnTwice | OracleLoader.cs:73 | setting `id` twice in one row fails with a duplicate-key error and the first value stays |
| LoaderScenarios.FailedFlushKeepsRows | OracleLoader.cs:197-221 | when the insert at Close fails, the filled row stays in the buffer and the constraints stay disabled |

## Left out

- The Oracle connection and command plumbing (`Connection`, `CreateCommand`, `ExecuteReader`, `GetSchemaTable`, `ExecuteNonQuery`, `OracleParameter`): driver I/O. The schema table is an input, and execution is a logged command plus a success flag.
- A failure while reading the schema table in `CreateColumns`: the reader is driver I/O. The model always reads the given schema table.
- The PL/SQL constraint scripts and the constraints they select (the table's primary key, and foreign keys that reference the table with status ENABLED or DISABLED): that SQL runs on the server. Disabling and enabling are abstract events naming the table.
- `Convert.ChangeType`: a runtime library call. It is a parameter, and only its behaviour on null is assumed.
- .NET `Type` and `OracleDbType` values: opaque numeric tags, passed through unchanged.
- Object payloads: a non-null value is a runtime type tag and an integer.
- Exception classes beyond the data they carry; exception messages.
- A null column name passed to `SetValue`: strings are never null here. In the source no column matches it, so it fails as an unknown column.
- Reassigning `BufferSize`, `TableName` or `DisableConstraints` between calls is allowed, but no operation for it is modelled beyond the public fields.
- 32-bit `int` limits on `BufferSize`, `Count` and `Size`: the code does no arithmetic on `BufferSize` (only compared with `Count`) or `Size` (only passed to the parameter), and a `Count` near the limit cannot be held in memory; the unbounded `bufferSize` only adds states the code cannot reach.
