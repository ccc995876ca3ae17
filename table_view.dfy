/**
 * tools/TableView.kt: the first generation of the flattened table. Adding a
 * variable checks for a column of that name first, then looks the variable
 * up, sets the table up from the first variable's full dimension list and
 * otherwise demands congruence, and finally appends the variable's column.
 */
module TableViews {
  import opened Wrappers
  import opened Errors
  import opened Netcdf
  import opened Variables
  import opened CartesianProducts
  import opened Columns
  import opened Tables

  /** `add(name)` on the table state: the new state, and whether it threw. */
  function Added(lib: Library, file: NetcdfFile, t: Table, name: string): (s: Step)
    ensures HasLabel(t.columns, name) ==> s == Step(t, Pass)
    ensures s.outcome.Fail? && t.dimensions != [] ==> s.table == t
  {
    if HasLabel(t.columns, name) then Step(t, Pass)
    else match FindVariable(file, name)
      case None => Step(t, Fail(UnknownVariable(name)))
      case Some(v) =>
        if t.dimensions == [] then
          var up := SetUp(Tools, lib, file, t, v.dimensions);
          if up.outcome.Fail? then up
          else AppendVariable(Tools, lib, up.table.(index := RowIndexOf(v.dimensions)), v)
        else if !Congruent(t.dimensions, v.dimensions) then Step(t, Fail(IncongruentVariable(name)))
        else AppendVariable(Tools, lib, t, v)
  }

  /** `add(names)`: the names in order, stopping at the first that throws. */
  function AddedAll(lib: Library, file: NetcdfFile, t: Table, names: seq<string>): (s: Step)
    ensures names == [] ==> s == Step(t, Pass)
    decreases |names|
  {
    if names == [] then Step(t, Pass)
    else
      var s := Added(lib, file, t, names[0]);
      if s.outcome.Fail? then s else AddedAll(lib, file, s.table, names[1..])
  }

  /** An add never removes or relabels a column: the old labels stay a prefix of the new. */
  lemma AddKeepsLabels(lib: Library, file: NetcdfFile, t: Table, name: string)
    ensures Labels(t.columns) <= Labels(Added(lib, file, t, name).table.columns)
  {
    var s := Added(lib, file, t, name);
    LabelsAppend(t.columns, s.table.columns[|t.columns|..]);
  }

  /** Neither does a batch of adds. */
  lemma {:induction false} AddAllKeepsLabels(lib: Library, file: NetcdfFile, t: Table, names: seq<string>)
    ensures Labels(t.columns) <= Labels(AddedAll(lib, file, t, names).table.columns)
    decreases |names|
  {
    if names != [] {
      AddKeepsLabels(lib, file, t, names[0]);
      var s := Added(lib, file, t, names[0]);
      if s.outcome.Pass? {
        AddAllKeepsLabels(lib, file, s.table, names[1..]);
      }
    }
  }

  /** An unknown name throws before anything changes. */
  lemma AddUnknown(lib: Library, file: NetcdfFile, t: Table, name: string)
    requires !HasLabel(t.columns, name) && FindVariable(file, name).None?
    ensures Added(lib, file, t, name) == Step(t, Fail(UnknownVariable(name)))
  {
  }

  /**
   * The first variable added to a table without dimensions: when nothing
   * throws, the table takes the variable's dimensions, gains one coordinate
   * column per dimension in order and then the variable's own column, and its
   * index becomes the row index of those dimensions.
   */
  lemma FirstAdd(lib: Library, file: NetcdfFile, t: Table, name: string, v: Variable)
    requires t.dimensions == [] && !HasLabel(t.columns, name) && FindVariable(file, name) == Some(v)
    requires Added(lib, file, t, name).outcome.Pass?
    ensures var u := Added(lib, file, t, name).table;
      && u.dimensions == v.dimensions
      && u.index == RowIndexOf(v.dimensions)
      && |u.index| == RowCountOf(v.dimensions)
      && Labels(u.columns) == Labels(t.columns) + Names(v.dimensions) + [name]
  {
    var up := SetUp(Tools, lib, file, t, v.dimensions);
    var s := AppendVariable(Tools, lib, up.table.(index := RowIndexOf(v.dimensions)), v);
    FirstAddSteps(lib, file, t, name, v);
    var c := VariableColumnFor(Tools, lib, v, v.dimensions).value;
    assert s.table.columns == up.table.columns + [c];
    assert Labels([c]) == [name];
    LabelsAppend(up.table.columns, [c]);
    RowIndexLength(v.dimensions);
  }

  /** The first add is the set-up, then the variable's column over the new index. */
  lemma FirstAddSteps(lib: Library, file: NetcdfFile, t: Table, name: string, v: Variable)
    requires t.dimensions == [] && !HasLabel(t.columns, name) && FindVariable(file, name) == Some(v)
    ensures var up := SetUp(Tools, lib, file, t, v.dimensions);
      Added(lib, file, t, name) ==
        if up.outcome.Fail? then up else AppendVariable(Tools, lib, up.table.(index := RowIndexOf(v.dimensions)), v)
  {
  }

  /**
   * A later variable: it is added exactly when its dimension list equals the
   * table's and its column can be built; dimensions and index stay as they are.
   * An incongruent variable throws and changes nothing.
   */
  lemma LaterAdd(lib: Library, file: NetcdfFile, t: Table, name: string, v: Variable)
    requires t.dimensions != [] && !HasLabel(t.columns, name) && FindVariable(file, name) == Some(v)
    ensures var s := Added(lib, file, t, name);
      && (s.outcome.Pass? <==> Congruent(t.dimensions, v.dimensions) && VariableColumnFor(Tools, lib, v, t.dimensions).Success?)
      && (!Congruent(t.dimensions, v.dimensions) ==> s == Step(t, Fail(IncongruentVariable(name))))
      && (s.outcome.Pass? ==>
        && s.table.dimensions == t.dimensions && s.table.index == t.index
        && Labels(s.table.columns) == Labels(t.columns) + [name])
  {
    var s := Added(lib, file, t, name);
    if s.outcome.Pass? {
      LabelsAppend(t.columns, [VariableColumnFor(Tools, lib, v, t.dimensions).value]);
    }
  }

  /** Every add keeps the table well formed. */
  lemma AddWf(lib: Library, file: NetcdfFile, t: Table, name: string)
    requires Wf(Tools, lib, t)
    ensures Wf(Tools, lib, Added(lib, file, t, name).table)
  {
    if !HasLabel(t.columns, name) && FindVariable(file, name).Some? && t.dimensions == [] {
      var v := FindVariable(file, name).value;
      SetUpWf(Tools, lib, file, t, v.dimensions);
      var up := SetUp(Tools, lib, file, t, v.dimensions);
      AppendVariableWf(Tools, lib, up.table.(index := RowIndexOf(v.dimensions)), v);
    } else {
      AppendVariableWf(Tools, lib, t, FindVariable(file, name).GetOr(Variable(name, [], Int, None, None, false, [])));
    }
  }

  /** So does every batch of adds. */
  lemma {:induction false} AddAllWf(lib: Library, file: NetcdfFile, t: Table, names: seq<string>)
    requires Wf(Tools, lib, t)
    ensures Wf(Tools, lib, AddedAll(lib, file, t, names).table)
    decreases |names|
  {
    if names != [] {
      AddWf(lib, file, t, names[0]);
      var s := Added(lib, file, t, names[0]);
      if s.outcome.Pass? {
        AddAllWf(lib, file, s.table, names[1..]);
      }
    }
  }

  /**
   * tools/TableView.kt maps every dimension of an array-string variable,
   * the string-length dimension included, and then appends a 0 for that
   * dimension once more: the origin it reads with is one longer than the
   * variable's rank, while the shape has exactly the rank.
   */
  lemma ToolsStringOriginTooLong(lib: Library, c: Column, dims: seq<Dimension>, index: seq<seq<nat>>, row: int)
    requires c.VariableColumn? && Fits(Tools, lib, c, dims) && c.kind.ArrayString?
    requires ColumnValue(c, index, row).Success?
    ensures |ColumnValue(c, index, row).value.slice.origin| == Rank(c.variable) + 1
    ensures |ColumnValue(c, index, row).value.slice.shape| == Rank(c.variable)
  {
    var ds := FitsVariable(Tools, lib, c, dims);
  }

  /**
   * The duplicate check runs before the coordinate columns are added, so a
   * first variable that is its own coordinate variable, over its one
   * dimension, gets two columns with the same label.
   */
  lemma OwnCoordinateTwice(lib: Library, file: NetcdfFile, name: string, v: Variable, n: nat)
    requires FindVariable(file, name) == Some(v) && v.isCoordinate
    requires v.dimensions == [Dimension(name, n)] && ToolsIsTime(v, lib).Success?
    ensures var s := Added(lib, file, EmptyTable, name);
      && s.outcome.Pass?
      && Labels(s.table.columns) == [name, name]
  {
    var d := Dimension(name, n);
    var dims := [d];
    assert Axes(dims, dims).Some?;
    var c := VariableColumnFor(Tools, lib, v, dims);
    assert CoordinateColumnFor(Tools, lib, file, dims, d) == c;
    var rs := CoordinateOutcomes(Tools, lib, file, dims);
    CoordinateOutcomesAt(Tools, lib, file, dims);
    assert Collect(rs, 1) == Built([c.value], None);
    FirstAddSteps(lib, file, EmptyTable, name, v);
    FirstAdd(lib, file, EmptyTable, name, v);
  }

  /**
   * tools/TableView.kt's own `isTime` reads the units without a null check.
   * A first variable that is its own coordinate variable and fails that test
   * throws while its coordinate column is built: the table keeps the new
   * dimensions but gets no columns.
   */
  lemma UnitlessTimeCoordinate(lib: Library, file: NetcdfFile, name: string, v: Variable, n: nat)
    requires FindVariable(file, name) == Some(v) && v.isCoordinate
    requires v.dimensions == [Dimension(name, n)] && ToolsIsTime(v, lib).Failure?
    ensures Added(lib, file, EmptyTable, name) == Step(Table(v.dimensions, [], []), Fail(NullUnits(name)))
  {
    var d := Dimension(name, n);
    var dims := [d];
    var rs := CoordinateOutcomes(Tools, lib, file, dims);
    CoordinateOutcomesAt(Tools, lib, file, dims);
    assert rs[0] == Failure(NullUnits(name));
    assert Collect(rs, 1) == Built([], Some(NullUnits(name)));
    FirstAddSteps(lib, file, EmptyTable, name, v);
  }

  /** A file whose only variable "lat" is its own coordinate variable. */
  function LatitudeFile(): NetcdfFile {
    NetcdfFile("lat.nc", [Variable("lat", [Dimension("lat", 64)], Float, None, None, true, [])])
  }

  /** Adding "lat" to an empty table gives two columns labelled "lat". */
  lemma DuplicateLabel(lib: Library)
    ensures var s := Added(lib, LatitudeFile(), EmptyTable, "lat");
      s.outcome.Pass? && Labels(s.table.columns) == ["lat", "lat"]
  {
    var file := LatitudeFile();
    var v := file.variables[0];
    assert FindVariable(file, "lat") == Some(v);
    NameEscapedIsLastSegment(v);
    assert !Strings.StartsWith(NameEscaped(v), "time");
    OwnCoordinateTwice(lib, file, "lat", v, 64);
  }

  /** A numeric coordinate variable "time" without a units attribute. */
  function UnitlessTimeFile(): NetcdfFile {
    NetcdfFile("time.nc", [Variable("time", [Dimension("time", 12)], Double, None, None, true, [])])
  }

  /** Adding "time" from that file throws for the missing units. */
  lemma UnitlessTimeThrows(lib: Library)
    ensures var s := Added(lib, UnitlessTimeFile(), EmptyTable, "time");
      && s.outcome == Fail(NullUnits("time"))
      && s.table == Table([Dimension("time", 12)], [], [])
  {
    var file := UnitlessTimeFile();
    var v := file.variables[0];
    assert FindVariable(file, "time") == Some(v);
    UnitlessTimeFails(lib, v);
    UnitlessTimeCoordinate(lib, file, "time", v, 12);
  }

  lemma UnitlessTimeFails(lib: Library, v: Variable)
    requires v == UnitlessTimeFile().variables[0]
    ensures ToolsIsTime(v, lib).Failure?
  {
    NameEscapedIsLastSegment(v);
    assert Strings.StartsWith(NameEscaped(v), "time");
  }

  /**
   * `TableView`: the file it reads, the table dimensions, the row index and
   * the columns. The library's time conventions are fixed at construction.
   */
  class TableView {
    const lib: Library
    const file: NetcdfFile
    var dimensions: seq<Dimension>
    var index: seq<seq<nat>>
    var columns: seq<Column>

    function State(): Table
      reads this
    {
      Table(dimensions, index, columns)
    }

    /** The table is well formed (see `Tables.Wf`). */
    predicate Valid()
      reads this
    {
      Wf(Tools, lib, State())
    }

    constructor(lib: Library, file: NetcdfFile)
      ensures this.lib == lib && this.file == file
      ensures State() == EmptyTable && Valid()
    {
      this.lib := lib;
      this.file := file;
      dimensions := [];
      index := [];
      columns := [];
    }

    /** `labels`. */
    function ColumnLabels(): (ls: seq<string>)
      reads this
      ensures |ls| == |columns|
    {
      Labels(columns)
    }

    /** `rowCount`: no rows, or as many as the dimensions span. */
    function RowCount(): (n: nat)
      reads this
      ensures Valid() ==> n == 0 || n == RowCountOf(dimensions)
    {
      if Valid() && index != [] then RowIndexInBounds(dimensions); |index| else |index|
    }

    /** `columnCount`. */
    function ColumnCount(): (n: nat)
      reads this
      ensures n == |ColumnLabels()|
    {
      |Labels(columns)|
    }

    /** `column(index)`. */
    function ColumnAt(i: int): (r: Result<Column, Error>)
      reads this
      ensures r.Success? <==> 0 <= i < |columns|
      ensures r.Success? ==> r.value == columns[i] && r.value.heading == ColumnLabels()[i]
    {
      if 0 <= i < |columns| then Success(columns[i]) else Failure(IndexOutOfBounds(i))
    }

    /** `column(label)`. */
    function ColumnNamed(heading: string): (r: Result<Column, Error>)
      reads this
      ensures r.Success? <==> heading in ColumnLabels()
      ensures r.Success? ==> r.value in columns && r.value.heading == heading
    {
      ColumnLabeled(columns, heading)
    }

    /** `addCoordinateColumn`. */
    method AddCoordinateColumn(d: Dimension) returns (outcome: Outcome<Error>)
      modifies this
      ensures dimensions == old(dimensions) && index == old(index)
      ensures var r := CoordinateColumnFor(Tools, lib, file, old(dimensions), d);
        && (r.Success? ==> columns == old(columns) + [r.value] && outcome == Pass)
        && (r.Failure? ==> columns == old(columns) && outcome == Fail(r.error))
    {
      var found := FindVariable(file, d.name);
      if found.Some? && found.value.isCoordinate {
        outcome := AddVariableColumn(found.value);
      } else {
        columns := columns + [IndexColumn(d.name, IndexOf(dimensions, d), LongIndex)];
        outcome := Pass;
      }
    }

    /** `addVariableColumn`: the column `VariableColumnFor` builds, appended. */
    method AddVariableColumn(v: Variable) returns (outcome: Outcome<Error>)
      modifies this
      ensures Step(State(), outcome) == AppendVariable(Tools, lib, old(State()), v)
    {
      match VariableColumnFor(Tools, lib, v, dimensions)
      case Failure(e) =>
        outcome := Fail(e);
      case Success(c) =>
        columns := columns + [c];
        outcome := Pass;
    }

    /** `dimensions.forEach { addCoordinateColumn(it) }`, up to the first throw. */
    method AddCoordinateColumns() returns (outcome: Outcome<Error>)
      modifies this
      ensures dimensions == old(dimensions) && index == old(index)
      ensures var b := Collect(CoordinateOutcomes(Tools, lib, file, dimensions), |dimensions|);
        && columns == old(columns) + b.columns
        && outcome == if b.failure.Some? then Fail(b.failure.value) else Pass
    {
      var dims := dimensions;
      ghost var rs := CoordinateOutcomes(Tools, lib, file, dims);
      ghost var added: seq<Column> := [];
      var k := 0;
      while k < |dims|
        invariant 0 <= k <= |dims| && dimensions == dims && index == old(index)
        invariant Collect(rs, k) == Built(added, None)
        invariant columns == old(columns) + added
      {
        outcome, added := AddNextCoordinateColumn(dims, rs, k, old(columns), added);
        if outcome.Fail? {
          return;
        }
        k := k + 1;
      }
      outcome := Pass;
    }

    /**
     * One step of `AddCoordinateColumns`: the column for `dims[k]` is appended
     * and collected, or its failure ends the collection.
     */
    method AddNextCoordinateColumn(dims: seq<Dimension>, ghost rs: seq<Result<Column, Error>>, k: nat,
                                   ghost before: seq<Column>, ghost added: seq<Column>)
      returns (outcome: Outcome<Error>, ghost added': seq<Column>)
      requires dims == dimensions && rs == CoordinateOutcomes(Tools, lib, file, dims) && k < |dims|
      requires Collect(rs, k) == Built(added, None) && columns == before + added
      modifies this
      ensures dimensions == old(dimensions) && index == old(index)
      ensures outcome.Pass? ==> Collect(rs, k + 1) == Built(added', None) && columns == before + added'
      ensures outcome.Fail? ==> Collect(rs, |rs|) == Built(added, Some(outcome.error)) && columns == before + added
    {
      CollectNext(rs, k, added);
      CoordinateOutcomesAt(Tools, lib, file, dims);
      outcome := AddCoordinateColumn(dims[k]);
      added' := if outcome.Pass? then added + [rs[k].value] else added;
    }

    /** `add(name)`. */
    method Add(name: string) returns (outcome: Outcome<Error>)
      modifies this
      ensures Step(State(), outcome) == Added(lib, file, old(State()), name)
      ensures old(Valid()) ==> Valid()
    {
      ghost var t := State();
      if Valid() {
        AddWf(lib, file, t, name);
      }
      if HasLabel(columns, name) {
        return Pass;
      }
      var found := FindVariable(file, name);
      if found.None? {
        return Fail(UnknownVariable(name));
      }
      var v := found.value;
      if dimensions == [] {
        dimensions := v.dimensions;
        outcome := AddCoordinateColumns();
        if outcome.Fail? {
          return;
        }
        index := RowIndexOf(dimensions);
      } else if !Congruent(dimensions, v.dimensions) {
        return Fail(IncongruentVariable(name));
      }
      outcome := AddVariableColumn(v);
    }

    /** `add(names)`: each name in turn; the first throw ends the batch. */
    method AddAll(names: seq<string>) returns (outcome: Outcome<Error>)
      modifies this
      ensures Step(State(), outcome) == AddedAll(lib, file, old(State()), names)
      ensures old(Valid()) ==> Valid()
    {
      ghost var t := State();
      if Valid() {
        AddAllWf(lib, file, t, names);
      }
      for i := 0 to |names|
        invariant AddedAll(lib, file, t, names) == AddedAll(lib, file, State(), names[i..])
      {
        outcome := Add(names[i]);
        if outcome.Fail? {
          return;
        }
      }
      outcome := Pass;
    }

    /** `clear()`. */
    method Clear()
      modifies this
      ensures State() == EmptyTable && Valid()
      ensures ColumnLabels() == [] && RowCount() == 0
    {
      dimensions := [];
      columns := [];
      index := [];
    }
  }
}
