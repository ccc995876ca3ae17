/**
 * viewer/DataModel.kt: the third generation. A `NetcdfReader` loads all the
 * requested variables in its initializer, building the row index once, after
 * the last name; the paged `DataModel` shows the reader's rows one page at a
 * time.
 */
module Viewer {
  import opened Wrappers
  import opened Errors
  import opened Netcdf
  import opened Variables
  import opened Columns
  import opened Tables
  import opened Paging
  import DataModels

  // ---- NetcdfReader ----

  /**
   * One name of the reader's initializer: like `DataModel.addVariable`, with
   * the duplicate check last, except that the row index is left alone.
   */
  function ReaderAdded(lib: Library, file: NetcdfFile, t: Table, name: string): (s: Step)
    ensures s.table.index == t.index
    ensures FindVariable(file, name).None? ==> s == Step(t, Fail(UnknownVariable(name)))
    ensures s.outcome.Fail? && t.dimensions != [] ==> s.table == t
  {
    match FindVariable(file, name)
    case None => Step(t, Fail(UnknownVariable(name)))
    case Some(v) =>
      if t.dimensions == [] then
        var up := SetUp(Model, lib, file, t, PublicDimensions(v));
        if up.outcome.Fail? then up else DataModels.UnlessPresent(lib, up.table, v, name)
      else if !Congruent(t.dimensions, PublicDimensions(v)) then Step(t, Fail(IncongruentVariable(name)))
      else DataModels.UnlessPresent(lib, t, v, name)
  }

  /** The initializer's loop: the names in order, up to the first that throws. */
  function ReaderAddedAll(lib: Library, file: NetcdfFile, t: Table, names: seq<string>): (s: Step)
    ensures s.table.index == t.index
    ensures names == [] ==> s == Step(t, Pass)
    decreases |names|
  {
    if names == [] then Step(t, Pass)
    else
      var s := ReaderAdded(lib, file, t, names[0]);
      if s.outcome.Fail? then s else ReaderAddedAll(lib, file, s.table, names[1..])
  }

  /**
   * `NetcdfReader(file, variables)`: the loaded table, whose index is the row
   * index of its final dimensions, or the exception that aborts construction.
   */
  function Loaded(lib: Library, file: NetcdfFile, names: seq<string>): (r: Result<Table, Error>)
    ensures r.Success? ==> r.value.index == RowIndexOf(r.value.dimensions)
  {
    var s := ReaderAddedAll(lib, file, EmptyTable, names);
    match s.outcome
    case Fail(e) => Failure(e)
    case Pass => Success(s.table.(index := RowIndexOf(s.table.dimensions)))
  }

  /** A table with its row index built from its dimensions. */
  function Indexed(t: Table): Table {
    t.(index := RowIndexOf(t.dimensions))
  }

  /**
   * One reader step and one `DataModel.addVariable` agree: same outcome, and
   * the same table once the reader's index is built.
   */
  lemma AgreeStep(lib: Library, file: NetcdfFile, t: Table, name: string)
    requires t.index == []
    ensures var r, d := ReaderAdded(lib, file, t, name), DataModels.AddedVariable(lib, Some(file), Indexed(t), name);
      && r.outcome == d.outcome
      && (r.outcome.Pass? ==> d.table == Indexed(r.table))
  {
    match FindVariable(file, name)
    case None =>
    case Some(v) =>
      if t.dimensions == [] {
        assert Indexed(t) == t;
        DataModels.FirstVariableSteps(lib, Some(file), t, name, v);
      }
  }

  /** Hence the whole initializer agrees with `setData` on the same names. */
  lemma {:induction false} AgreeAll(lib: Library, file: NetcdfFile, t: Table, names: seq<string>)
    requires t.index == []
    ensures var r, d := ReaderAddedAll(lib, file, t, names), DataModels.AddedVariables(lib, Some(file), Indexed(t), names);
      && r.outcome == d.outcome
      && (r.outcome.Pass? ==> d.table == Indexed(r.table))
    decreases |names|
  {
    if names != [] {
      AgreeStep(lib, file, t, names[0]);
      var s := ReaderAdded(lib, file, t, names[0]);
      if s.outcome.Pass? {
        AgreeAll(lib, file, s.table, names[1..]);
      }
    }
  }

  /**
   * Building the index once at the end gives the table DataModel.kt builds
   * during its first add: the reader loads exactly when `setData` passes,
   * and then holds the same table.
   */
  lemma LoadedIsSetData(lib: Library, file: NetcdfFile, names: seq<string>)
    ensures var r, d := Loaded(lib, file, names), DataModels.AddedVariables(lib, Some(file), EmptyTable, names);
      && (r.Success? <==> d.outcome.Pass?)
      && (r.Success? ==> r.value == d.table)
      && (r.Failure? ==> d.outcome == Fail(r.error))
  {
    assert Indexed(EmptyTable) == EmptyTable;
    AgreeAll(lib, file, EmptyTable, names);
  }

  /** A loaded table is well formed and has one row per element of its dimensions' product. */
  lemma LoadedWf(lib: Library, file: NetcdfFile, names: seq<string>)
    requires Loaded(lib, file, names).Success?
    ensures Wf(Model, lib, Loaded(lib, file, names).value)
    ensures |Loaded(lib, file, names).value.index| == RowCountOf(Loaded(lib, file, names).value.dimensions)
  {
    LoadedIsSetData(lib, file, names);
    EmptyTableWf(Model, lib);
    DataModels.AddVariablesWf(lib, Some(file), EmptyTable, names);
    RowIndexLength(Loaded(lib, file, names).value.dimensions);
  }

  /** The initializer: every name in turn, then the row index. */
  method Load(lib: Library, file: NetcdfFile, names: seq<string>) returns (r: Result<Table, Error>)
    ensures r == Loaded(lib, file, names)
  {
    var t := EmptyTable;
    for i := 0 to |names|
      invariant t.index == []
      invariant ReaderAddedAll(lib, file, EmptyTable, names) == ReaderAddedAll(lib, file, t, names[i..])
    {
      var s := LoadVariable(lib, file, t, names[i]);
      if s.outcome.Fail? {
        return Failure(s.outcome.error);
      }
      t := s.table;
    }
    r := Success(t.(index := RowIndexOf(t.dimensions)));
  }

  /** The body of the initializer's loop, for one name. */
  method LoadVariable(lib: Library, file: NetcdfFile, t: Table, name: string) returns (s: Step)
    ensures s == ReaderAdded(lib, file, t, name)
  {
    var found := FindVariable(file, name);
    if found.None? {
      return Step(t, Fail(UnknownVariable(name)));
    }
    var v := found.value;
    var dimensions, columns := t.dimensions, t.columns;
    if dimensions == [] {
      dimensions := PublicDimensions(v);
      var failure;
      columns, failure := AddCoordinateColumns(lib, file, dimensions, columns);
      if failure.Some? {
        return Step(Table(dimensions, t.index, columns), Fail(failure.value));
      }
    } else if !Congruent(dimensions, PublicDimensions(v)) {
      return Step(t, Fail(IncongruentVariable(name)));
    }
    if HasLabel(columns, name) {
      return Step(Table(dimensions, t.index, columns), Pass);
    }
    match VariableColumnFor(Model, lib, v, dimensions)
    case Failure(e) =>
      s := Step(Table(dimensions, t.index, columns), Fail(e));
    case Success(c) =>
      s := Step(Table(dimensions, t.index, columns + [c]), Pass);
  }

  /** `dimensions.forEach { addCoordinateColumn(it) }`, up to the first throw. */
  method AddCoordinateColumns(lib: Library, file: NetcdfFile, dims: seq<Dimension>, columns: seq<Column>)
    returns (columns': seq<Column>, failure: Option<Error>)
    ensures var b := Collect(CoordinateOutcomes(Model, lib, file, dims), |dims|);
      columns' == columns + b.columns && failure == b.failure
  {
    ghost var rs := CoordinateOutcomes(Model, lib, file, dims);
    ghost var added: seq<Column> := [];
    columns' := columns;
    var k := 0;
    while k < |dims|
      invariant 0 <= k <= |dims|
      invariant Collect(rs, k) == Built(added, None)
      invariant columns' == columns + added
    {
      columns', failure, added := AddCoordinateColumn(lib, file, dims, rs, k, columns', columns, added);
      if failure.Some? {
        return;
      }
      k := k + 1;
    }
    failure := None;
  }

  /**
   * `addCoordinateColumn(dims[k])` within that loop: the column is appended
   * and collected, or its failure ends the collection.
   */
  method AddCoordinateColumn(lib: Library, file: NetcdfFile, dims: seq<Dimension>, ghost rs: seq<Result<Column, Error>>,
                             k: nat, current: seq<Column>, ghost before: seq<Column>, ghost added: seq<Column>)
    returns (columns': seq<Column>, failure: Option<Error>, ghost added': seq<Column>)
    requires rs == CoordinateOutcomes(Model, lib, file, dims) && k < |dims|
    requires Collect(rs, k) == Built(added, None) && current == before + added
    ensures failure.None? ==> Collect(rs, k + 1) == Built(added', None) && columns' == before + added'
    ensures failure.Some? ==> Collect(rs, |rs|) == Built(added, failure) && columns' == before + added
  {
    CollectNext(rs, k, added);
    CoordinateOutcomesAt(Model, lib, file, dims);
    match CoordinateColumnFor(Model, lib, file, dims, dims[k])
    case Failure(e) =>
      columns', failure, added' := current, Some(e), added;
    case Success(c) =>
      columns', failure, added' := current + [c], None, added + [c];
  }

  // ---- the paged DataModel ----

  type PageSize = n: int | n > 0 witness 100

  /**
   * `DataModel`: the file, the reader (null until a table is filled), and
   * the page shown. The page size is fixed at construction.
   */
  class DataModel {
    const lib: Library
    const pageSize: PageSize
    var file: Option<NetcdfFile>
    var reader: Option<Table>
    var pageNumber: int

    /** `reader?.rowCount ?: 0`. */
    function Rows(): nat
      reads this
    {
      if reader.Some? then |reader.value.index| else 0
    }

    /** `pageCount`: enough pages for every row; none without a reader or without rows. */
    function PageCount(): (n: nat)
      reads this
      ensures Rows() <= n * pageSize
      ensures n == 0 || (n - 1) * pageSize < Rows()
      ensures n == 0 <==> Rows() == 0
    {
      PageCountZero(Rows(), pageSize);
      PageCountOf(Rows(), pageSize)
    }

    /**
     * The reader's table is well formed and fully indexed, and the page
     * number is a page, or 0 when there are no pages.
     */
    predicate Valid()
      reads this
    {
      && ReaderValid()
      && (PageCount() == 0 ==> pageNumber == 0)
      && (PageCount() > 0 ==> 1 <= pageNumber <= PageCount())
    }

    /** The reader's table is well formed and fully indexed. */
    predicate ReaderValid()
      reads this
    {
      reader.Some? ==> Wf(Model, lib, reader.value) && reader.value.index == RowIndexOf(reader.value.dimensions)
    }

    constructor(lib: Library, pageSize: PageSize)
      ensures this.lib == lib && this.pageSize == pageSize
      ensures file == None && reader == None && pageNumber == 0
      ensures Valid()
    {
      this.lib := lib;
      this.pageSize := pageSize;
      file := None;
      reader := None;
      pageNumber := 0;
    }

    /** The `pageNumber` setter: clamped into the pages, 0 when there are none. */
    method SetPageNumber(value: int)
      modifies this
      ensures pageNumber == ClampPage(value, PageCount())
      ensures file == old(file) && reader == old(reader)
      ensures ReaderValid() ==> Valid()
    {
      var count := PageCount();
      pageNumber := if count == 0 then 0 else if value < 1 then 1 else if value > count then count else value;
    }

    /**
     * `fillTable(file, varNames)`: the file is kept even when loading throws;
     * a reader that loads replaces the old one and the first page is shown,
     * while a throw leaves the reader and the page number as they were.
     */
    method FillTable(file: NetcdfFile, names: seq<string>) returns (outcome: Outcome<Error>)
      modifies this
      ensures this.file == Some(file)
      ensures var r := Loaded(lib, file, names);
        && (r.Success? ==> reader == Some(r.value) && pageNumber == ClampPage(1, PageCount()) && outcome == Pass)
        && (r.Failure? ==> reader == old(reader) && pageNumber == old(pageNumber) && outcome == Fail(r.error))
      ensures Loaded(lib, file, names).Success? || old(Valid()) ==> Valid()
    {
      this.file := Some(file);
      var r := Load(lib, file, names);
      if r.Failure? {
        return Fail(r.error);
      }
      LoadedWf(lib, file, names);
      reader := Some(r.value);
      SetPageNumber(1);
      outcome := Pass;
    }

    /** `clearTable()`. */
    method ClearTable()
      modifies this
      ensures reader == None && pageNumber == 0 && file == None
      ensures Labels() == [] && PageCount() == 0 && Valid()
    {
      reader := None;
      pageNumber := 0;
      file := None;
    }

    /** `labels`: the reader's column labels, or none. */
    function Labels(): (ls: seq<string>)
      reads this
      ensures reader.None? ==> ls == []
      ensures reader.Some? ==> |ls| == |reader.value.columns|
      ensures reader.Some? ==> forall i :: 0 <= i < |ls| ==> ls[i] == reader.value.columns[i].heading
    {
      if reader.Some? then Columns.Labels(reader.value.columns) else []
    }

    /**
     * `getRowCount`: a full page, except on the last page, which holds what
     * is left of the reader's rows. With a reader of no rows the page number
     * and the page count are both 0, so the count is a full page.
     */
    function RowCount(): (n: int)
      reads this
      ensures Valid() && 1 <= pageNumber < PageCount() ==> n == pageSize
      ensures Valid() && 1 <= pageNumber == PageCount() ==> 1 <= n <= pageSize && n == Rows() - (PageCount() - 1) * pageSize
      ensures Valid() && reader.None? ==> n == 0
      ensures Valid() && reader.Some? && Rows() == 0 ==> n == pageSize
    {
      if pageNumber == PageCount() then
        if reader.Some? then
          if PageCount() >= 1 then LastPageRows(Rows(), pageSize); Rows() - (PageCount() - 1) * pageSize
          else Rows() - (PageCount() - 1) * pageSize
        else 0
      else pageSize
    }

    /** `getColumnCount`. */
    function ColumnCount(): (n: nat)
      reads this
      ensures n == |Labels()|
      ensures reader.None? ==> n == 0
    {
      |Labels()|
    }

    /** `getColumnClass(i)`: throws without a reader, and for a column out of range. */
    function ColumnClass(i: int): (r: Result<ColumnType, Error>)
      reads this
      ensures reader.None? ==> r == Failure(TableUndefined)
      ensures reader.Some? ==> (r.Success? <==> 0 <= i < ColumnCount())
      ensures r.Success? ==> r.value == Type(reader.value.columns[i])
    {
      match reader
      case None => Failure(TableUndefined)
      case Some(t) => if 0 <= i < |t.columns| then Success(Type(t.columns[i])) else Failure(IndexOutOfBounds(i))
    }

    /** `getColumnName(i)`: `labels[i]`. */
    function ColumnName(i: int): (r: Result<string, Error>)
      reads this
      ensures r.Success? <==> 0 <= i < ColumnCount()
      ensures r.Success? ==> r.value == Labels()[i]
    {
      var ls := Labels();
      if 0 <= i < |ls| then Success(ls[i]) else Failure(IndexOutOfBounds(i))
    }

    /**
     * `getValueAt(row, col)`: null without a reader; otherwise column `col`
     * of the reader, read at the data row that page row `row` of the current
     * page shows. On a valid page every cell can be read, from a data row
     * the reader has, and a variable cell reads inside its variable.
     */
    function ValueAt(row: int, col: int): (r: Result<Option<Cell>, Error>)
      reads this
      ensures reader.None? ==> r == Success(None)
      ensures reader.Some? && !(0 <= col < |reader.value.columns|) ==> r == Failure(IndexOutOfBounds(col))
      ensures reader.Some? && 0 <= col < |reader.value.columns| ==>
        var v := ColumnValue(reader.value.columns[col], reader.value.index, DataRow(pageNumber, pageSize, row));
        && (v.Success? ==> r == Success(Some(v.value)))
        && (v.Failure? ==> r == Failure(v.error))
      ensures Valid() && reader.Some? && 0 <= col < |reader.value.columns| && pageNumber >= 1 && 0 <= row < RowCount() ==>
        && 0 <= DataRow(pageNumber, pageSize, row) < Rows()
        && r.Success? && r.value.Some?
      ensures (Valid() && reader.Some? && 0 <= col < |reader.value.columns| && pageNumber >= 1 && 0 <= row < RowCount()
        && reader.value.columns[col].VariableColumn?) ==>
        var v := reader.value.columns[col].variable;
        var s := r.value.value.slice;
        && r.value.value.ReadCell?
        && |s.origin| == |s.shape| == Rank(v)
        && forall i :: 0 <= i < Rank(v) ==> 0 <= s.origin[i] && s.origin[i] + s.shape[i] <= Shape(v)[i]
    {
      match reader
      case None => Success(None)
      case Some(t) =>
        if !(0 <= col < |t.columns|) then Failure(IndexOutOfBounds(col))
        else
          var c := t.columns[col];
          var fileRow := DataRow(pageNumber, pageSize, row);
          if Valid() && pageNumber >= 1 && 0 <= row < RowCount() then
            DataRowInRange(Rows(), pageSize, pageNumber, row);
            CellReadable(Model, lib, t, c, fileRow);
            if c.VariableColumn? then
              ModelReadInside(lib, t, c, fileRow);
              Success(Some(ColumnValue(c, t.index, fileRow).value))
            else Success(Some(ColumnValue(c, t.index, fileRow).value))
          else
            match ColumnValue(c, t.index, fileRow)
            case Failure(e) => Failure(e)
            case Success(cell) => Success(Some(cell))
    }
  }
}
