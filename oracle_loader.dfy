/**
 * `OracleLoader`: the bulk-insert buffer. Callers open the loader on a
 * table, set column values row by row and advance with NextRow; full
 * buffers and Close flush the non-empty rows as one array-bound insert.
 *
 * The database is reached through the driver, which is not modelled: the
 * schema table is an input sequence, every command handed to the driver is
 * appended to a log, and whether the driver's execute returned or threw is
 * a boolean parameter of the operation that issues it.
 */
module OracleLoader {
  import opened Wrappers
  import opened Values
  import opened Exceptions
  import opened TypeChecker
  import opened LoaderRecord
  import opened Columns
  import opened InsertStatement
  import opened LoaderSpec

  /** A PL/SQL block that disables or re-enables the constraints tied to a table. */
  datatype ConstraintEvent = ConstraintsDisabled(table: string) | ConstraintsEnabled(table: string)

  /** The loop of CreateColumns: keep the schema-table rows that are not read-only. */
  method ReadColumns(catalog: seq<CatalogRow>) returns (columns: seq<ColumnInfo>)
    ensures columns == WritableColumns(catalog)
  {
    columns := [];
    for i := 0 to |catalog|
      invariant columns == WritableColumns(catalog[..i])
    {
      assert catalog[..i + 1][..i] == catalog[..i];
      var item := catalog[i];
      if !item.isReadOnly {
        columns := columns + [ColumnOf(item)];
      }
    }
    assert catalog[..|catalog|] == catalog;
  }

  /** The command Flush builds: the statement text, the bind count and one parameter per column. */
  method BuildInsert(table: string, columns: seq<ColumnInfo>, rows: seq<Record>) returns (cmd: Command)
    ensures cmd == InsertCommand(table, columns, rows)
  {
    var parameters: seq<Parameter> := [];
    for i := 0 to |columns|
      invariant parameters == Parameters(columns[..i], rows)
    {
      assert columns[..i + 1][..i] == columns[..i];
      var column := columns[i];
      parameters := parameters + [Parameter(column.providerType, column.size, BindValues(rows, column.name))];
    }
    assert columns[..|columns|] == columns;
    cmd := Command(InsertText(table, columns), |rows|, parameters);
  }

  class Loader {
    /** The writable columns of the destination table, in schema order. */
    var columns: seq<ColumnInfo>
    /** The buffered rows; the last one is the current row. */
    var records: seq<Record>
    var bufferSize: int
    var tableName: Option<string>
    var disableConstraints: bool
    /** The runtime's `Convert.ChangeType`, used by the type check. */
    const changeType: Converter
    /** Every insert handed to the driver, in order. */
    var issued: seq<Command>
    /** Every constraint script handed to the driver, in order. */
    var constraintEvents: seq<ConstraintEvent>

    /** The buffer never holds a null: SetValue stores only values that pass the type check. */
    ghost predicate Valid()
      reads this
    {
      && NullStaysNull(changeType)
      && forall r :: r in records ==> HoldsNoNull(r)
    }

    /**
     * Because the buffer holds no null, the columns NextRow reports as
     * missing are exactly the required columns whose name the current row
     * does not hold at all.
     */
    lemma ReportListsUnsetColumns(flushOk: bool, n: string)
      requires Valid() && records != []
      ensures var s := NextRowStep(TableText(tableName), columns, records, bufferSize, flushOk);
        s.outcome.Fail? && s.outcome.error.NullValueNotAllowed? ==>
          (n in s.outcome.error.columnNames <==>
            exists i :: 0 <= i < |columns| && !columns[i].allowNull && columns[i].name == n
              && n !in Last(records))
    {
      var row := Last(records);
      assert row in records;
      SafeValueNullIffUnset(row, n);
      MissingRequiredMembers(columns, row, n);
    }

    /** A new loader: empty lists, a buffer of 100 rows, constraints disabled while loading. */
    constructor (changeType: Converter)
      requires NullStaysNull(changeType)
      ensures Valid() && this.changeType == changeType
      ensures columns == [] && records == [] && issued == [] && constraintEvents == []
      ensures bufferSize == 100 && tableName == None && disableConstraints
    {
      this.changeType := changeType;
      columns, records := [], [];
      bufferSize, tableName, disableConstraints := 100, None, true;
      issued, constraintEvents := [], [];
    }

    /** The current row: the last record, which `Last()` refuses to give from an empty list. */
    function CurrentRow(): (r: Result<Record, LoaderError>)
      reads this
      ensures r.Failure? <==> records == []
      ensures r.Failure? ==> r.error == NoElements
      ensures r.Success? ==> r.value == records[|records| - 1] && r.value in records
    {
      if records == [] then Failure(NoElements) else Success(Last(records))
    }

    /**
     * Open: refuse a missing table name before anything else; otherwise load
     * the writable columns, advance to a fresh current row, and disable the
     * constraints when asked to.
     */
    method Open(catalog: seq<CatalogRow>, flushOk: bool, disableOk: bool) returns (res: Outcome<LoaderError>)
      requires Valid()
      modifies this`columns, this`records, this`issued, this`constraintEvents
      ensures Valid()
      ensures IsNullOrEmpty(tableName) ==>
        && res == Fail(TableNameNotSet)
        && columns == old(columns) && records == old(records)
        && issued == old(issued) && constraintEvents == old(constraintEvents)
      ensures !IsNullOrEmpty(tableName) ==> columns == WritableColumns(catalog)
      ensures !IsNullOrEmpty(tableName) ==>
        var s := NextRowStep(tableName.value, WritableColumns(catalog), old(records), bufferSize, flushOk);
        records == s.records && issued == old(issued) + s.issued
      ensures !IsNullOrEmpty(tableName) ==>
        var s := NextRowStep(tableName.value, WritableColumns(catalog), old(records), bufferSize, flushOk);
        s.outcome.Fail? ==> res == s.outcome && constraintEvents == old(constraintEvents)
      ensures !IsNullOrEmpty(tableName) ==>
        var s := NextRowStep(tableName.value, WritableColumns(catalog), old(records), bufferSize, flushOk);
        s.outcome.Pass? && disableConstraints ==>
          && constraintEvents == old(constraintEvents) + [ConstraintsDisabled(tableName.value)]
          && res == if disableOk then Pass else Fail(ExecutionFailed)
      ensures !IsNullOrEmpty(tableName) ==>
        var s := NextRowStep(tableName.value, WritableColumns(catalog), old(records), bufferSize, flushOk);
        s.outcome.Pass? && !disableConstraints ==> res == Pass && constraintEvents == old(constraintEvents)
    {
      if IsNullOrEmpty(tableName) {
        return Fail(TableNameNotSet);
      }
      ghost var s := NextRowStep(tableName.value, WritableColumns(catalog), records, bufferSize, flushOk);
      ghost var events := constraintEvents;
      res := CreateColumns(catalog, flushOk);
      assert records == s.records && res == s.outcome;
      if res.Fail? {
        return;
      }
      if disableConstraints {
        res := DoDisableConstraints(disableOk);
        assert constraintEvents == events + [ConstraintsDisabled(tableName.value)];
      }
    }

    /** CreateColumns: replace the columns by the writable ones, then advance to a new row. */
    method CreateColumns(catalog: seq<CatalogRow>, flushOk: bool) returns (res: Outcome<LoaderError>)
      requires Valid()
      modifies this`columns, this`records, this`issued
      ensures Valid()
      ensures columns == WritableColumns(catalog)
      ensures var s := NextRowStep(TableText(tableName), columns, old(records), bufferSize, flushOk);
        records == s.records && issued == old(issued) + s.issued && res == s.outcome
    {
      columns := ReadColumns(catalog);
      res := NextRow(flushOk);
    }

    /** Hand the disabling script for the table to the driver. */
    method DoDisableConstraints(ok: bool) returns (res: Outcome<LoaderError>)
      modifies this`constraintEvents
      ensures constraintEvents == old(constraintEvents) + [ConstraintsDisabled(TableText(tableName))]
      ensures res == if ok then Pass else Fail(ExecutionFailed)
    {
      constraintEvents := constraintEvents + [ConstraintsDisabled(TableText(tableName))];
      res := if ok then Pass else Fail(ExecutionFailed);
    }

    /** Hand the enabling script for the table to the driver. */
    method DoEnableConstraints(ok: bool) returns (res: Outcome<LoaderError>)
      modifies this`constraintEvents
      ensures constraintEvents == old(constraintEvents) + [ConstraintsEnabled(TableText(tableName))]
      ensures res == if ok then Pass else Fail(ExecutionFailed)
    {
      constraintEvents := constraintEvents + [ConstraintsEnabled(TableText(tableName))];
      res := if ok then Pass else Fail(ExecutionFailed);
    }

    /**
     * SetValue: every failed check leaves the buffer as it was; a value that
     * passes them is added to the current row, which refuses a column it
     * already holds, and no other row changes.
     */
    method SetValue(columnName: string, value: Value) returns (res: Outcome<LoaderError>)
      requires Valid()
      modifies this`records
      ensures Valid()
      ensures CheckValue(columns, changeType, columnName, value).Failure? ==>
        res == Fail(CheckValue(columns, changeType, columnName, value).error) && records == old(records)
      ensures CheckValue(columns, changeType, columnName, value).Success? && old(records) == [] ==>
        res == Fail(NoElements) && records == old(records)
      ensures (CheckValue(columns, changeType, columnName, value).Success? && old(records) != []
        && columnName in Last(old(records))) ==>
        res == Fail(DuplicateKey(columnName)) && records == old(records)
      ensures (CheckValue(columns, changeType, columnName, value).Success? && old(records) != []
        && columnName !in Last(old(records))) ==>
        && res == Pass
        && records == old(records)[|old(records)| - 1 := Last(old(records))[columnName := value]]
    {
      var found := FindColumn(columns, columnName);
      if found.None? {
        return Fail(ColumnNotFound(columnName));
      }
      var column := found.value;
      if value == Null && !column.allowNull {
        return Fail(NullValueNotAllowed([column.name]));
      }
      if !CanConvert(changeType, value, column.clrType) {
        if value == Null {
          // Reading the given type of a null value throws.
          return Fail(NullReference);
        }
        return Fail(TypeIncompatible(column.clrType, value.runtimeType));
      }
      NullNeverConverts(changeType, column.clrType);
      var current := CurrentRow();
      if current.Failure? {
        return Fail(current.error);
      }
      var added := Add(current.value, column.name, value);
      if added.Failure? {
        return Fail(added.error);
      }
      records := records[|records| - 1 := added.value];
      res := Pass;
    }

    /**
     * NextRow: check the current row for missing required columns, flush a
     * full buffer, and append a new empty current row.
     */
    method NextRow(flushOk: bool) returns (res: Outcome<LoaderError>)
      requires Valid()
      modifies this`records, this`issued
      ensures Valid()
      ensures var s := NextRowStep(TableText(tableName), columns, old(records), bufferSize, flushOk);
        records == s.records && issued == old(issued) + s.issued && res == s.outcome
    {
      if records != [] {
        var missing := MissingRequired(columns, Last(records));
        if missing != [] {
          return Fail(NullValueNotAllowed(missing));
        }
      }
      if |records| >= bufferSize {
        res := Flush(flushOk);
        if res.Fail? {
          return;
        }
      }
      records := records + [map[]];
      res := Pass;
    }

    /**
     * Close: flush every buffered row, then re-enable the constraints under
     * the same flag that had Open disable them. A failed flush skips the
     * re-enabling.
     */
    method Close(flushOk: bool, enableOk: bool) returns (res: Outcome<LoaderError>)
      requires Valid()
      modifies this`records, this`issued, this`constraintEvents
      ensures Valid()
      ensures var f := FlushStep(TableText(tableName), columns, old(records), flushOk);
        && records == f.records && issued == old(issued) + f.issued
        && (f.outcome.Fail? ==> res == f.outcome && constraintEvents == old(constraintEvents))
        && (f.outcome.Pass? && disableConstraints ==>
              && constraintEvents == old(constraintEvents) + [ConstraintsEnabled(TableText(tableName))]
              && res == if enableOk then Pass else Fail(ExecutionFailed))
        && (f.outcome.Pass? && !disableConstraints ==>
              res == Pass && constraintEvents == old(constraintEvents))
    {
      res := Flush(flushOk);
      if res.Fail? {
        return;
      }
      if disableConstraints {
        res := DoEnableConstraints(enableOk);
      }
    }

    /**
     * Flush: keep only the non-empty rows, issue one array-bound insert for
     * them, and clear the buffer once the driver's execute has returned.
     */
    method Flush(execOk: bool) returns (res: Outcome<LoaderError>)
      requires Valid()
      modifies this`records, this`issued
      ensures Valid()
      ensures var s := FlushStep(TableText(tableName), columns, old(records), execOk);
        records == s.records && issued == old(issued) + s.issued && res == s.outcome
    {
      NonEmptyRowsHoldNoNull(records);
      records := NonEmptyRows(records);
      if records != [] {
        var cmd := BuildInsert(TableText(tableName), columns, records);
        issued := issued + [cmd];
        if !execOk {
          return Fail(ExecutionFailed);
        }
      }
      records := [];
      res := Pass;
    }
  }
}
