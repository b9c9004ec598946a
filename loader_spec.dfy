/**
 * Specification functions for the loader's buffer: column lookup and value
 * validation, schema filtering, the required-column check, empty-row
 * filtering, and the effect of a flush and of advancing to the next row.
 * The class in module OracleLoader is proved against these.
 */
module LoaderSpec {
  import opened Wrappers
  import opened Values
  import opened Exceptions
  import opened TypeChecker
  import opened LoaderRecord
  import opened Columns
  import opened InsertStatement

  function Last<T>(s: seq<T>): (x: T)
    requires s != []
  {
    s[|s| - 1]
  }

  function Max(a: int, b: int): (m: int)
  {
    if a >= b then a else b
  }

  /** `string.IsNullOrEmpty(TableName)`. */
  predicate IsNullOrEmpty(s: Option<string>): (b: bool)
    ensures !b ==> s.Some? && |s.value| >= 1
  {
    s.None? || s.value == ""
  }

  /** How `string.Format` renders the table name: null renders as "". */
  function TableText(s: Option<string>): (t: string)
    ensures s.None? ==> t == ""
    ensures !IsNullOrEmpty(s) ==> t == s.value && t != ""
  {
    match s
    case None => ""
    case Some(t) => t
  }

  // ---------------------------------------------------------------------
  // Schema loading

  /** The writable columns of the schema table, in schema-table order. */
  function WritableColumns(catalog: seq<CatalogRow>): (cols: seq<ColumnInfo>)
    ensures |cols| <= |catalog|
  {
    if catalog == [] then []
    else
      var row := Last(catalog);
      WritableColumns(catalog[..|catalog| - 1]) + (if row.isReadOnly then [] else [ColumnOf(row)])
  }

  /** Loading a concatenated schema table loads each part in turn: the order is kept. */
  lemma {:induction false} WritableColumnsAppend(a: seq<CatalogRow>, b: seq<CatalogRow>)
    ensures WritableColumns(a + b) == WritableColumns(a) + WritableColumns(b)
    decreases |b|
  {
    if b == [] {
      assert a + b == a;
    } else {
      var b' := b[..|b| - 1];
      assert (a + b)[..|a + b| - 1] == a + b';
      WritableColumnsAppend(a, b');
    }
  }

  /** A column is loaded exactly when some schema-table row describes it and is not read-only. */
  lemma {:induction false} WritableColumnsMembers(catalog: seq<CatalogRow>, c: ColumnInfo)
    ensures c in WritableColumns(catalog) <==>
      exists i :: 0 <= i < |catalog| && !catalog[i].isReadOnly && ColumnOf(catalog[i]) == c
  {
    if catalog != [] {
      var front := catalog[..|catalog| - 1];
      WritableColumnsMembers(front, c);
      if c in WritableColumns(catalog) && c !in WritableColumns(front) {
        assert !Last(catalog).isReadOnly && ColumnOf(Last(catalog)) == c;
      }
      if exists i :: 0 <= i < |catalog| && !catalog[i].isReadOnly && ColumnOf(catalog[i]) == c {
        var i :| 0 <= i < |catalog| && !catalog[i].isReadOnly && ColumnOf(catalog[i]) == c;
        if i < |front| {
          assert front[i] == catalog[i];
        }
      }
    }
  }

  // ---------------------------------------------------------------------
  // SetValue's checks

  /** `columns.Where(c => c.Name == name).FirstOrDefault()`. */
  function FindColumn(columns: seq<ColumnInfo>, name: string): (r: Option<ColumnInfo>)
    ensures r.None? <==> forall i :: 0 <= i < |columns| ==> columns[i].name != name
    ensures r.Some? ==> r.value.name == name
    ensures r.Some? ==> exists i :: (0 <= i < |columns| && columns[i] == r.value
      && forall k :: 0 <= k < i ==> columns[k].name != name)
  {
    if columns == [] then None
    else if columns[0].name == name then Some(columns[0])
    else
      var r := FindColumn(columns[1..], name);
      if r.Some? then
        ghost var i :| 0 <= i < |columns[1..]| && columns[1..][i] == r.value
          && forall k :: 0 <= k < i ==> columns[1..][k].name != name;
        assert columns[i + 1] == r.value;
        r
      else r
  }

  /**
   * The checks SetValue makes before touching the row, in the source's
   * order: the column must exist, a null must go to a nullable column, and
   * the value must pass the type check. A null that passes the second check
   * fails the third, and building that error reads the null's type.
   */
  function CheckValue(columns: seq<ColumnInfo>, changeType: Converter, name: string, value: Value)
    : (r: Result<ColumnInfo, LoaderError>)
    ensures FindColumn(columns, name).None? ==> r == Failure(ColumnNotFound(name))
    ensures r.Success? <==> (FindColumn(columns, name).Some?
      && (value == Null ==> FindColumn(columns, name).value.allowNull)
      && CanConvert(changeType, value, FindColumn(columns, name).value.clrType))
    ensures r.Success? ==> r.value == FindColumn(columns, name).value && r.value.name == name
  {
    match FindColumn(columns, name)
    case None => Failure(ColumnNotFound(name))
    case Some(column) =>
      if value == Null && !column.allowNull then
        Failure(NullValueNotAllowed([column.name]))
      else if !CanConvert(changeType, value, column.clrType) then
        if value == Null then Failure(NullReference)
        else Failure(TypeIncompatible(column.clrType, value.runtimeType))
      else Success(column)
  }

  /**
   * A null is never accepted: on a required column it is reported as such,
   * naming only that column, and on a nullable one it fails the type check.
   */
  lemma NullNeverAccepted(columns: seq<ColumnInfo>, changeType: Converter, name: string)
    requires NullStaysNull(changeType)
    ensures var found := FindColumn(columns, name);
      found.Some? ==> (CheckValue(columns, changeType, name, Null) ==
        if found.value.allowNull then Failure(NullReference)
        else Failure(NullValueNotAllowed([name])))
  {
    var found := FindColumn(columns, name);
    if found.Some? {
      NullNeverConverts(changeType, found.value.clrType);
    }
  }

  /** A non-null value the type check rejects is reported with both types. */
  lemma MismatchReportsBothTypes(columns: seq<ColumnInfo>, changeType: Converter, name: string, value: Value)
    requires FindColumn(columns, name).Some? && value.Obj?
    requires !CanConvert(changeType, value, FindColumn(columns, name).value.clrType)
    ensures CheckValue(columns, changeType, name, value) ==
      Failure(TypeIncompatible(FindColumn(columns, name).value.clrType, value.runtimeType))
  {
  }

  // ---------------------------------------------------------------------
  // NextRow's required-column check

  /** The required columns, in schema order, for which `row` gives null. */
  function MissingRequired(columns: seq<ColumnInfo>, row: Record): (names: seq<string>)
    ensures |names| <= |columns|
  {
    if columns == [] then []
    else
      var c := columns[0];
      (if !c.allowNull && GetSafeValue(row, c.name) == Null then [c.name] else [])
        + MissingRequired(columns[1..], row)
  }

  /** A name is reported exactly when a required column of that name has no value in the row. */
  lemma {:induction false} MissingRequiredMembers(columns: seq<ColumnInfo>, row: Record, n: string)
    ensures n in MissingRequired(columns, row) <==>
      exists i :: 0 <= i < |columns| && !columns[i].allowNull && columns[i].name == n
        && GetSafeValue(row, n) == Null
  {
    if columns != [] {
      MissingRequiredMembers(columns[1..], row, n);
      if exists i :: (0 <= i < |columns| && !columns[i].allowNull && columns[i].name == n
        && GetSafeValue(row, n) == Null)
      {
        var i :| 0 <= i < |columns| && !columns[i].allowNull && columns[i].name == n
          && GetSafeValue(row, n) == Null;
        if i > 0 {
          assert columns[1..][i - 1] == columns[i];
        }
      }
      if n in MissingRequired(columns[1..], row) {
        var i :| 0 <= i < |columns[1..]| && !columns[1..][i].allowNull && columns[1..][i].name == n
          && GetSafeValue(row, n) == Null;
        assert columns[i + 1] == columns[1..][i];
      }
    }
  }

  /** The report lists the columns of a concatenated schema part by part: schema order is kept. */
  lemma {:induction false} MissingRequiredAppend(a: seq<ColumnInfo>, b: seq<ColumnInfo>, row: Record)
    ensures MissingRequired(a + b, row) == MissingRequired(a, row) + MissingRequired(b, row)
  {
    if a == [] {
      assert a + b == b;
    } else {
      assert (a + b)[1..] == a[1..] + b;
      MissingRequiredAppend(a[1..], b, row);
    }
  }

  /** An empty row is missing every required column, so it is reported whenever one exists. */
  lemma {:induction false} EmptyRowMissesEveryRequired(columns: seq<ColumnInfo>)
    ensures MissingRequired(columns, map[]) == [] <==> forall i :: 0 <= i < |columns| ==> columns[i].allowNull
  {
    if columns != [] {
      EmptyRowMissesEveryRequired(columns[1..]);
      assert forall i :: 1 <= i < |columns| ==> columns[i] == columns[1..][i - 1];
    }
  }

  // ---------------------------------------------------------------------
  // Flush

  /** `records.Where(r => r.Any())`: the rows with at least one value, in order. */
  function NonEmptyRows(records: seq<Record>): (rows: seq<Record>)
    ensures |rows| <= |records|
  {
    if records == [] then []
    else (if records[0] == map[] then [] else [records[0]]) + NonEmptyRows(records[1..])
  }

  /** The filter keeps exactly the non-empty rows. */
  lemma {:induction false} NonEmptyRowsMembers(records: seq<Record>, r: Record)
    ensures r in NonEmptyRows(records) <==> r in records && r != map[]
  {
    if records != [] {
      NonEmptyRowsMembers(records[1..], r);
      assert records == [records[0]] + records[1..];
    }
  }

  /** Filtering a concatenation filters each part: the order of the rows is kept. */
  lemma {:induction false} NonEmptyRowsAppend(a: seq<Record>, b: seq<Record>)
    ensures NonEmptyRows(a + b) == NonEmptyRows(a) + NonEmptyRows(b)
  {
    if a == [] {
      assert a + b == b;
    } else {
      assert (a + b)[1..] == a[1..] + b;
      NonEmptyRowsAppend(a[1..], b);
    }
  }

  /** Filtering twice drops nothing more: a retried flush sends the same rows. */
  lemma {:induction false} NonEmptyRowsIdempotent(records: seq<Record>)
    ensures NonEmptyRows(NonEmptyRows(records)) == NonEmptyRows(records)
  {
    if records != [] {
      NonEmptyRowsIdempotent(records[1..]);
      var rest := NonEmptyRows(records[1..]);
      if records[0] != map[] {
        var rows := NonEmptyRows(records);
        assert rows == [records[0]] + rest;
        assert rows[0] == records[0] && rows[1..] == rest;
        assert NonEmptyRows(rows) == [records[0]] + NonEmptyRows(rest);
      } else {
        assert NonEmptyRows(records) == rest;
      }
    }
  }

  /** Rows that hold no null keep that property through the filter. */
  lemma NonEmptyRowsHoldNoNull(records: seq<Record>)
    requires forall r :: r in records ==> HoldsNoNull(r)
    ensures forall r :: r in NonEmptyRows(records) ==> HoldsNoNull(r)
  {
    forall r | r in NonEmptyRows(records)
      ensures HoldsNoNull(r)
    {
      NonEmptyRowsMembers(records, r);
    }
  }

  /** The rows left in the buffer, the commands issued, and the outcome of one step. */
  datatype BufferStep = BufferStep(records: seq<Record>, issued: seq<Command>, outcome: Outcome<LoaderError>)

  /**
   * Flush: drop the empty rows; if any remain, issue one insert for them;
   * the buffer is cleared only when that insert returned.
   */
  function FlushStep(table: string, columns: seq<ColumnInfo>, records: seq<Record>, execOk: bool)
    : (s: BufferStep)
    ensures |s.issued| <= 1
    ensures s.outcome.Pass? ==> s.records == []
  {
    var rows := NonEmptyRows(records);
    if rows == [] then BufferStep([], [], Pass)
    else if execOk then BufferStep([], [InsertCommand(table, columns, rows)], Pass)
    else BufferStep(rows, [InsertCommand(table, columns, rows)], Fail(ExecutionFailed))
  }

  /**
   * A flush issues an insert exactly when a non-empty row remains, and that
   * insert carries exactly the non-empty rows; the buffer is empty afterwards
   * unless the insert failed, in which case the non-empty rows stay.
   */
  lemma FlushEffect(table: string, columns: seq<ColumnInfo>, records: seq<Record>, execOk: bool)
    ensures var s := FlushStep(table, columns, records, execOk);
      && (s.issued == [] <==> NonEmptyRows(records) == [])
      && (s.issued != [] ==> s.issued == [InsertCommand(table, columns, NonEmptyRows(records))])
      && (s.outcome.Pass? ==> s.records == [])
      && (s.outcome.Fail? <==> s.issued != [] && !execOk)
      && (s.outcome.Fail? ==> s.outcome.error == ExecutionFailed && s.records == NonEmptyRows(records))
  {
  }

  /**
   * Every value a caller stored reaches the executor: in a flushed batch,
   * each non-empty row appears once, and parameter `i` at that row's index
   * holds the row's value for column `i`, or null when that column is unset.
   */
  lemma FlushCarriesEveryValue(table: string, columns: seq<ColumnInfo>, records: seq<Record>,
                               execOk: bool, r: Record, i: nat)
    requires r in records && r != map[] && i < |columns|
    ensures var s := FlushStep(table, columns, records, execOk);
      |s.issued| == 1 &&
      exists j :: 0 <= j < s.issued[0].arrayBindCount && NonEmptyRows(records)[j] == r &&
        s.issued[0].parameters[i].values[j] == GetSafeValue(r, columns[i].name)
  {
    NonEmptyRowsMembers(records, r);
    var rows := NonEmptyRows(records);
    var j :| 0 <= j < |rows| && rows[j] == r;
    var cmd := InsertCommand(table, columns, rows);
    assert cmd.parameters[i].values[j] == GetSafeValue(r, columns[i].name);
  }

  // ---------------------------------------------------------------------
  // NextRow

  /**
   * NextRow: when the buffer holds a current row, report every required
   * column it lacks and stop; otherwise flush when the buffer has reached
   * `bufferSize` rows, and then append a new empty current row.
   */
  function NextRowStep(table: string, columns: seq<ColumnInfo>, records: seq<Record>,
                       bufferSize: int, flushOk: bool): (s: BufferStep)
    ensures |s.issued| <= 1
    ensures s.outcome.Pass? ==> |s.records| >= 1 && Last(s.records) == map[]
  {
    if records != [] && MissingRequired(columns, Last(records)) != [] then
      BufferStep(records, [], Fail(NullValueNotAllowed(MissingRequired(columns, Last(records)))))
    else if |records| >= bufferSize then
      var f := FlushStep(table, columns, records, flushOk);
      if f.outcome.Fail? then f
      else BufferStep(f.records + [map[]], f.issued, Pass)
    else
      BufferStep(records + [map[]], [], Pass)
  }

  /**
   * NextRow either reports the missing required columns and leaves the
   * buffer alone, or flushes only a buffer that has reached `bufferSize`:
   * that flush sends one insert carrying exactly the non-empty rows, a
   * failed insert keeps those rows and ends the step, and on success the
   * step ends with a new empty current row after the rows that were kept.
   */
  lemma NextRowEffect(table: string, columns: seq<ColumnInfo>, records: seq<Record>,
                      bufferSize: int, flushOk: bool)
    ensures var s := NextRowStep(table, columns, records, bufferSize, flushOk);
      && (records != [] && MissingRequired(columns, Last(records)) != [] ==>
            s == BufferStep(records, [], Fail(NullValueNotAllowed(MissingRequired(columns, Last(records))))))
      && (s.issued != [] ==> |records| >= bufferSize)
      && (s.outcome.Pass? ==> |s.records| >= 1 && Last(s.records) == map[])
      && (s.outcome.Pass? ==> s.records[..|s.records| - 1] == if |records| >= bufferSize then [] else records)
      && ((records == [] || MissingRequired(columns, Last(records)) == []) ==>
            s.issued == if |records| >= bufferSize && NonEmptyRows(records) != []
                        then [InsertCommand(table, columns, NonEmptyRows(records))] else [])
      && ((records == [] || MissingRequired(columns, Last(records)) == []) ==>
            (s.outcome.Fail? <==> |records| >= bufferSize && NonEmptyRows(records) != [] && !flushOk))
      && ((records == [] || MissingRequired(columns, Last(records)) == []) && s.outcome.Fail? ==>
            s.outcome == Fail(ExecutionFailed) && s.records == NonEmptyRows(records))
  {
  }

  /** On an empty buffer, as after the loader is created, NextRow leaves exactly one empty row. */
  lemma NextRowOnEmptyBuffer(table: string, columns: seq<ColumnInfo>, bufferSize: int, flushOk: bool)
    ensures NextRowStep(table, columns, [], bufferSize, flushOk) == BufferStep([map[]], [], Pass)
  {
  }

  /**
   * The NextRow report lists, in schema order, exactly the required columns
   * the current row lacks, and the buffer is left as it was.
   */
  lemma NextRowReportsEveryMissingColumn(table: string, columns: seq<ColumnInfo>, records: seq<Record>,
                                         bufferSize: int, flushOk: bool, n: string)
    requires records != [] && MissingRequired(columns, Last(records)) != []
    ensures var s := NextRowStep(table, columns, records, bufferSize, flushOk);
      s.records == records && s.issued == [] && s.outcome.Fail? && s.outcome.error.NullValueNotAllowed? &&
      (n in s.outcome.error.columnNames <==>
        exists i :: 0 <= i < |columns| && !columns[i].allowNull && columns[i].name == n
          && GetSafeValue(Last(records), n) == Null)
  {
    var s := NextRowStep(table, columns, records, bufferSize, flushOk);
    assert s.outcome.error.columnNames == MissingRequired(columns, Last(records));
    MissingRequiredMembers(columns, Last(records), n);
  }

  /**
   * A successful NextRow flushes exactly when the buffer had reached
   * `bufferSize`, and leaves between 1 and max(bufferSize, 1) rows, whatever
   * the buffer held before (it may exceed a `bufferSize` lowered meanwhile).
   */
  lemma NextRowKeepsBufferBounded(table: string, columns: seq<ColumnInfo>, records: seq<Record>,
                                  bufferSize: int, flushOk: bool)
    ensures var s := NextRowStep(table, columns, records, bufferSize, flushOk);
      s.outcome.Pass? ==> 1 <= |s.records| <= Max(bufferSize, 1)
    ensures var s := NextRowStep(table, columns, records, bufferSize, flushOk);
      s.outcome.Pass? ==> (|s.records| == 1 <==> |records| >= bufferSize || records == [])
  {
  }

  /**
   * Right after a fresh Open the current row is empty, so NextRow fails
   * exactly when the schema has a required column.
   */
  lemma NextRowOnEmptyCurrentRow(table: string, columns: seq<ColumnInfo>, records: seq<Record>,
                                 bufferSize: int, flushOk: bool)
    requires records != [] && Last(records) == map[]
    ensures NextRowStep(table, columns, records, bufferSize, flushOk).outcome.Fail? <==>
      (exists i :: 0 <= i < |columns| && !columns[i].allowNull)
      || (|records| >= bufferSize && NonEmptyRows(records) != [] && !flushOk)
  {
    EmptyRowMissesEveryRequired(columns);
  }
}
