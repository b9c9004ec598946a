/**
 * Call sequences traced through the loader's contracts, on a table `T`
 * whose only column `id` is required.
 */
module LoaderScenarios {
  import opened Wrappers
  import opened Values
  import opened Exceptions
  import opened TypeChecker
  import opened LoaderRecord
  import opened Columns
  import opened InsertStatement
  import opened LoaderSpec
  import opened OracleLoader

  const IntType: ClrType := 1
  const NumberTag: ProviderTag := 7

  /** A runtime conversion that throws on null and returns every object unchanged. */
  const PassThrough: Converter := (v: Value, t: ClrType) => if v.Null? then Throws else Returns(v)

  /** The schema table of `T`: one writable, required column `id`. */
  const IdCatalog: seq<CatalogRow> := [CatalogRow("id", IntType, false, NumberTag, 22, false)]

  /** The column the loader builds from that row. */
  const IdColumn: ColumnInfo := ColumnInfo("id", IntType, false, NumberTag, 22)

  function Int(n: int): (v: Value)
  {
    Obj(IntType, n)
  }

  /** The row holding `id = n`. */
  function IdRow(n: int): (r: Record)
  {
    map["id" := Int(n)]
  }

  /** What the loader's checks compute on the table `T`. */
  lemma IdTableFacts(n: int)
    ensures WritableColumns(IdCatalog) == [IdColumn]
    ensures CheckValue([IdColumn], PassThrough, "id", Int(n)) == Success(IdColumn)
    ensures MissingRequired([IdColumn], map[]) == ["id"]
    ensures MissingRequired([IdColumn], IdRow(n)) == []
    ensures IdRow(n) != map[]
  {
    assert "id" in IdRow(n);
    assert IdCatalog[..0] == [];
    assert FindColumn([IdColumn], "id") == Some(IdColumn);
    assert [IdColumn][1..] == [];
  }

  /** A loader for `T` with the given buffer size, constraint toggling on. */
  method NewLoader(size: int) returns (loader: Loader)
    ensures fresh(loader) && loader.Valid()
    ensures loader.tableName == Some("T") && loader.bufferSize == size && loader.disableConstraints
    ensures loader.columns == [] && loader.records == [] && loader.issued == [] && loader.constraintEvents == []
    ensures loader.changeType == PassThrough
  {
    loader := new Loader(PassThrough);
    loader.tableName := Some("T");
    loader.bufferSize := size;
  }

  /** A loader for `T` with the given buffer size, opened successfully. */
  method OpenIdTable(size: int) returns (loader: Loader)
    ensures fresh(loader) && loader.Valid()
    ensures loader.tableName == Some("T") && loader.bufferSize == size && loader.disableConstraints
    ensures loader.changeType == PassThrough && loader.columns == [IdColumn]
    ensures loader.records == [map[]] && loader.issued == []
    ensures loader.constraintEvents == [ConstraintsDisabled("T")]
  {
    IdTableFacts(0);
    loader := NewLoader(size);
    assert NextRowStep("T", [IdColumn], [], size, true) == BufferStep([map[]], [], Pass);
    var r := loader.Open(IdCatalog, true, true);
  }

  /** SetValue(id, n) on an empty current row stores `n` there and changes nothing else. */
  method PutId(loader: Loader, n: int)
    requires loader.Valid() && loader.changeType == PassThrough && loader.columns == [IdColumn]
    requires loader.records != [] && Last(loader.records) == map[]
    modifies loader`records
    ensures loader.Valid()
    ensures loader.records == old(loader.records)[..|old(loader.records)| - 1] + [IdRow(n)]
  {
    IdTableFacts(n);
    var r := loader.SetValue("id", Int(n));
  }


  /** NextRow below the buffer size: the filled row is kept and a new empty row follows. */
  method AdvanceKeeping(loader: Loader, n: int)
    requires loader.Valid() && loader.tableName == Some("T") && loader.columns == [IdColumn]
    requires loader.bufferSize == 2 && loader.records == [IdRow(n)]
    modifies loader`records, loader`issued
    ensures loader.Valid()
    ensures loader.records == [IdRow(n), map[]] && loader.issued == old(loader.issued)
  {
    IdTableFacts(n);
    var r := loader.NextRow(true);
  }

  /** NextRow on a full buffer of two filled rows: they go out as one insert. */
  method AdvanceFlushing(loader: Loader, m: int, n: int)
    requires loader.Valid() && loader.tableName == Some("T") && loader.columns == [IdColumn]
    requires loader.bufferSize == 2 && loader.records == [IdRow(m), IdRow(n)]
    modifies loader`records, loader`issued
    ensures loader.Valid()
    ensures loader.records == [map[]]
    ensures loader.issued == old(loader.issued) + [InsertCommand("T", [IdColumn], [IdRow(m), IdRow(n)])]
  {
    IdTableFacts(m);
    IdTableFacts(n);
    NonEmptyRowsKeepsFullRows2(IdRow(m), IdRow(n));
    var r := loader.NextRow(true);
  }

  /** Close with one filled row: it goes out as one insert and the constraints come back. */
  method CloseFlushing(loader: Loader, n: int)
    requires loader.Valid() && loader.tableName == Some("T") && loader.columns == [IdColumn]
    requires loader.disableConstraints && loader.records == [IdRow(n)]
    modifies loader`records, loader`issued, loader`constraintEvents
    ensures loader.Valid() && loader.records == []
    ensures loader.issued == old(loader.issued) + [InsertCommand("T", [IdColumn], [IdRow(n)])]
    ensures loader.constraintEvents == old(loader.constraintEvents) + [ConstraintsEnabled("T")]
  {
    IdTableFacts(n);
    NonEmptyRowsKeepsFullRows1(IdRow(n));
    var r := loader.Close(true, true);
  }

  /**
   * With a buffer of two rows: Open, SetValue(id, 1), NextRow,
   * SetValue(id, 2), NextRow, SetValue(id, 3), Close. The second NextRow
   * flushes rows 1 and 2; Close flushes row 3 and re-enables the
   * constraints that Open disabled.
   */
  method BufferOfTwo() returns (batches: seq<Command>, events: seq<ConstraintEvent>)
    ensures |batches| == 2
    ensures batches[0].text == "insert into T (id) values (:0)"
    ensures batches[0].arrayBindCount == 2 && batches[0].parameters == [Parameter(NumberTag, 22, [Int(1), Int(2)])]
    ensures batches[1].text == "insert into T (id) values (:0)"
    ensures batches[1].arrayBindCount == 1 && batches[1].parameters == [Parameter(NumberTag, 22, [Int(3)])]
    ensures events == [ConstraintsDisabled("T"), ConstraintsEnabled("T")]
  {
    var loader := OpenIdTable(2);
    PutId(loader, 1);
    AdvanceKeeping(loader, 1);
    PutId(loader, 2);
    AdvanceFlushing(loader, 1, 2);
    PutId(loader, 3);
    CloseFlushing(loader, 3);
    batches, events := loader.issued, loader.constraintEvents;
    BatchContents();
  }

  /** The two batches of BufferOfTwo, spelled out. */
  lemma BatchContents()
    ensures var b := InsertCommand("T", [IdColumn], [IdRow(1), IdRow(2)]);
      b.text == "insert into T (id) values (:0)" && b.arrayBindCount == 2
      && b.parameters == [Parameter(NumberTag, 22, [Int(1), Int(2)])]
    ensures var b := InsertCommand("T", [IdColumn], [IdRow(3)]);
      b.text == "insert into T (id) values (:0)" && b.arrayBindCount == 1
      && b.parameters == [Parameter(NumberTag, 22, [Int(3)])]
  {
    assert Names([IdColumn]) == ["id"];
    assert NatToString(0) == "0";
    assert Placeholders(1) == [] + [":" + "0"];
    var b := InsertCommand("T", [IdColumn], [IdRow(1), IdRow(2)]);
    assert b.parameters[0].values == [Int(1), Int(2)];
    var c := InsertCommand("T", [IdColumn], [IdRow(3)]);
    assert c.parameters[0].values == [Int(3)];
  }

  lemma NonEmptyRowsKeepsFullRows1(a: Record)
    requires a != map[]
    ensures NonEmptyRows([a]) == [a]
  {
    assert [a][1..] == [];
  }

  lemma NonEmptyRowsKeepsFullRows2(a: Record, b: Record)
    requires a != map[] && b != map[]
    ensures NonEmptyRows([a, b]) == [a, b]
  {
    assert [a, b][1..] == [b];
    NonEmptyRowsKeepsFullRows1(b);
  }

  /** Right after Open the current row is empty, and NextRow reports the required column. */
  method NextRowRightAfterOpen() returns (r: Outcome<LoaderError>, rows: seq<Record>)
    ensures r == Fail(NullValueNotAllowed(["id"]))
    ensures rows == [map[]]
  {
    var loader := OpenIdTable(100);
    IdTableFacts(0);
    r := loader.NextRow(true);
    rows := loader.records;
  }

  /** A null for a nullable column fails the type check and is not stored. */
  method NullForNullableColumn() returns (r: Outcome<LoaderError>, rows: seq<Record>)
    ensures r == Fail(NullReference)
    ensures rows == [map[]]
  {
    var loader := NewLoader(100);
    var catalog := [CatalogRow("note", IntType, true, NumberTag, 10, false)];
    var note := ColumnOf(catalog[0]);
    assert WritableColumns(catalog) == [note] by {
      assert catalog[..0] == [];
    }
    assert NextRowStep("T", [note], [], 100, true) == BufferStep([map[]], [], Pass);
    r := loader.Open(catalog, true, true);
    assert FindColumn([note], "note") == Some(note);
    r := loader.SetValue("note", Null);
    rows := loader.records;
  }

  /** After Close the buffer is empty, so a valid SetValue fails at the current row. */
  method SetValueAfterClose() returns (r: Outcome<LoaderError>)
    ensures r == Fail(NoElements)
  {
    var loader := OpenIdTable(100);
    PutId(loader, 1);
    CloseFlushing(loader, 1);
    IdTableFacts(2);
    r := loader.SetValue("id", Int(2));
  }

  /** Setting the same column twice in one row is refused, and the first value stays. */
  method SameColumnTwice() returns (r: Outcome<LoaderError>, rows: seq<Record>)
    ensures r == Fail(DuplicateKey("id"))
    ensures rows == [IdRow(1)]
  {
    var loader := OpenIdTable(100);
    PutId(loader, 1);
    IdTableFacts(2);
    r := loader.SetValue("id", Int(2));
    rows := loader.records;
  }

  /** A failed insert leaves the non-empty rows in the buffer, and the constraints stay off. */
  method FailedFlushKeepsRows() returns (r: Outcome<LoaderError>, rows: seq<Record>, events: seq<ConstraintEvent>)
    ensures r == Fail(ExecutionFailed)
    ensures rows == [IdRow(1)]
    ensures events == [ConstraintsDisabled("T")]
  {
    var loader := OpenIdTable(100);
    PutId(loader, 1);
    IdTableFacts(1);
    NonEmptyRowsKeepsFullRows1(IdRow(1));
    r := loader.Close(false, true);
    rows, events := loader.records, loader.constraintEvents;
  }
}
