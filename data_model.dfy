/**
 * DataModel.kt: the second generation of the flattened table. It keeps the
 * open file, maps each variable's public dimensions, and runs the duplicate
 * check last, after the table is set up and congruence is checked, so a
 * first variable that is its own coordinate variable is not added twice.
 */
module DataModels {
  import opened Wrappers
  import opened Errors
  import opened Netcdf
  import opened Variables
  import opened Columns
  import opened Tables

  /** A file without variables: looking a name up in it finds nothing, as `file?.findVariable` does on a null file. */
  const NoFile := NetcdfFile("", [])

  /** The file lookups go to: the model's file, or `NoFile` when there is none. */
  function Searched(file: Option<NetcdfFile>): (f: NetcdfFile)
    ensures file.Some? ==> f == file.value
    ensures file.None? ==> forall name :: FindVariable(f, name).None?
  {
    file.GetOr(NoFile)
  }

  /** The last step of `addVariable`: the variable's column, unless a column of that label exists. */
  function UnlessPresent(lib: Library, t: Table, v: Variable, name: string): (s: Step)
    ensures HasLabel(t.columns, name) ==> s == Step(t, Pass)
    ensures !HasLabel(t.columns, name) ==> s == AppendVariable(Model, lib, t, v)
  {
    if HasLabel(t.columns, name) then Step(t, Pass) else AppendVariable(Model, lib, t, v)
  }

  /** `addVariable(name)` on the table state: the new state, and whether it threw. */
  function AddedVariable(lib: Library, file: Option<NetcdfFile>, t: Table, name: string): (s: Step)
    ensures FindVariable(Searched(file), name).None? ==> s == Step(t, Fail(UnknownVariable(name)))
    ensures s.outcome.Fail? && t.dimensions != [] ==> s.table == t
  {
    match FindVariable(Searched(file), name)
    case None => Step(t, Fail(UnknownVariable(name)))
    case Some(v) =>
      if t.dimensions == [] then
        var dims := PublicDimensions(v);
        var up := SetUp(Model, lib, Searched(file), t, dims);
        if up.outcome.Fail? then up
        else UnlessPresent(lib, up.table.(index := RowIndexOf(dims)), v, name)
      else if !Congruent(t.dimensions, PublicDimensions(v)) then Step(t, Fail(IncongruentVariable(name)))
      else UnlessPresent(lib, t, v, name)
  }

  /** `varNames.forEach { addVariable(it) }`: the names in order, up to the first that throws. */
  function AddedVariables(lib: Library, file: Option<NetcdfFile>, t: Table, names: seq<string>): (s: Step)
    ensures names == [] ==> s == Step(t, Pass)
    decreases |names|
  {
    if names == [] then Step(t, Pass)
    else
      var s := AddedVariable(lib, file, t, names[0]);
      if s.outcome.Fail? then s else AddedVariables(lib, file, s.table, names[1..])
  }

  /** Without a file every name is unknown, and nothing changes. */
  lemma NoFileThrows(lib: Library, t: Table, name: string)
    ensures AddedVariable(lib, None, t, name) == Step(t, Fail(UnknownVariable(name)))
  {
    assert FindVariable(Searched(None), name).None?;
  }

  /**
   * The first variable: when nothing throws, the table takes the variable's
   * public dimensions, gains one coordinate column per dimension in order,
   * its index becomes the row index of those dimensions (empty when there
   * are none), and the variable's own column follows unless a coordinate
   * column already has its label.
   */
  lemma FirstVariable(lib: Library, file: Option<NetcdfFile>, t: Table, name: string, v: Variable)
    requires t.dimensions == [] && FindVariable(Searched(file), name) == Some(v)
    requires AddedVariable(lib, file, t, name).outcome.Pass?
    ensures var u := AddedVariable(lib, file, t, name).table;
      var dims := PublicDimensions(v);
      && u.dimensions == dims
      && u.index == RowIndexOf(dims)
      && |u.index| == RowCountOf(dims)
      && Labels(u.columns) == Labels(t.columns) + Names(dims) + (if name in Labels(t.columns) + Names(dims) then [] else [name])
  {
    var dims := PublicDimensions(v);
    var up := SetUp(Model, lib, Searched(file), t, dims);
    var w := up.table.(index := RowIndexOf(dims));
    FirstVariableSteps(lib, file, t, name, v);
    RowIndexLength(dims);
    if !HasLabel(w.columns, name) {
      var c := VariableColumnFor(Model, lib, v, dims).value;
      assert Labels([c]) == [name];
      LabelsAppend(w.columns, [c]);
    }
  }

  /** The first add is the set-up, the index, then the duplicate check and the variable's column. */
  lemma FirstVariableSteps(lib: Library, file: Option<NetcdfFile>, t: Table, name: string, v: Variable)
    requires t.dimensions == [] && FindVariable(Searched(file), name) == Some(v)
    ensures var up := SetUp(Model, lib, Searched(file), t, PublicDimensions(v));
      AddedVariable(lib, file, t, name) ==
        if up.outcome.Fail? then up else UnlessPresent(lib, up.table.(index := RowIndexOf(PublicDimensions(v))), v, name)
  {
  }

  /**
   * A first variable that is its own coordinate variable, over its one
   * dimension: the add succeeds and its label appears once, on the
   * coordinate column.
   */
  lemma OwnCoordinateOnce(lib: Library, file: NetcdfFile, name: string, v: Variable, n: nat)
    requires FindVariable(file, name) == Some(v) && v.isCoordinate
    requires PublicDimensions(v) == [Dimension(name, n)]
    ensures var s := AddedVariable(lib, Some(file), EmptyTable, name);
      && s.outcome.Pass?
      && Labels(s.table.columns) == [name]
  {
    var d := Dimension(name, n);
    var dims := [d];
    var r := CoordinateColumnFor(Model, lib, file, dims, d);
    assert Axes(AxisDimensions(Model, v), dims).Some?;
    assert r.Success?;
    var rs := CoordinateOutcomes(Model, lib, file, dims);
    CoordinateOutcomesAt(Model, lib, file, dims);
    assert rs[0] == r;
    assert Collect(rs, 1).failure.None?;
    FirstVariable(lib, Some(file), EmptyTable, name, v);
  }

  /**
   * A later variable: it throws exactly when its public dimension list is
   * not the table's, or its column cannot be built; a present label leaves
   * the table as it is. Dimensions and index never change.
   */
  lemma LaterVariable(lib: Library, file: Option<NetcdfFile>, t: Table, name: string, v: Variable)
    requires t.dimensions != [] && FindVariable(Searched(file), name) == Some(v)
    ensures var s := AddedVariable(lib, file, t, name);
      && (s.outcome.Pass? <==>
        Congruent(t.dimensions, PublicDimensions(v))
        && (HasLabel(t.columns, name) || VariableColumnFor(Model, lib, v, t.dimensions).Success?))
      && (!Congruent(t.dimensions, PublicDimensions(v)) ==> s == Step(t, Fail(IncongruentVariable(name))))
      && (Congruent(t.dimensions, PublicDimensions(v)) && HasLabel(t.columns, name) ==> s == Step(t, Pass))
      && (s.outcome.Pass? && !HasLabel(t.columns, name) ==>
        && s.table.dimensions == t.dimensions && s.table.index == t.index
        && Labels(s.table.columns) == Labels(t.columns) + [name])
  {
    var s := AddedVariable(lib, file, t, name);
    if s.outcome.Pass? && !HasLabel(t.columns, name) {
      LabelsAppend(t.columns, [VariableColumnFor(Model, lib, v, t.dimensions).value]);
    }
  }

  /** Every add keeps the table well formed. */
  lemma AddVariableWf(lib: Library, file: Option<NetcdfFile>, t: Table, name: string)
    requires Wf(Model, lib, t)
    ensures Wf(Model, lib, AddedVariable(lib, file, t, name).table)
  {
    var found := FindVariable(Searched(file), name);
    if found.Some? {
      var v := found.value;
      if t.dimensions == [] {
        var dims := PublicDimensions(v);
        NoDimensionsNoRows(Model, lib, t);
        SetUpWf(Model, lib, Searched(file), t, dims);
        FirstVariableSteps(lib, file, t, name, v);
        var up := SetUp(Model, lib, Searched(file), t, dims);
        var w := up.table.(index := RowIndexOf(dims));
        if up.outcome.Pass? && !HasLabel(w.columns, name) {
          AppendVariableWf(Model, lib, w, v);
        }
      } else if Congruent(t.dimensions, PublicDimensions(v)) && !HasLabel(t.columns, name) {
        AppendVariableWf(Model, lib, t, v);
      }
    }
  }

  /** So does every batch of adds. */
  lemma {:induction false} AddVariablesWf(lib: Library, file: Option<NetcdfFile>, t: Table, names: seq<string>)
    requires Wf(Model, lib, t)
    ensures Wf(Model, lib, AddedVariables(lib, file, t, names).table)
    decreases |names|
  {
    if names != [] {
      AddVariableWf(lib, file, t, names[0]);
      var s := AddedVariable(lib, file, t, names[0]);
      if s.outcome.Pass? {
        AddVariablesWf(lib, file, s.table, names[1..]);
      }
    }
  }

  /**
   * `DataModel`: the open file (null until `setData`), the table dimensions,
   * the row index and the columns.
   */
  class DataModel {
    const lib: Library
    var file: Option<NetcdfFile>
    var dimensions: seq<Dimension>
    var index: seq<seq<nat>>
    var columns: seq<Column>

    function State(): Table
      reads this
    {
      Table(dimensions, index, columns)
    }

    /** The table is well formed (see `Tables.Wf`). */
    predicate Valid()
      reads this
    {
      Wf(Model, lib, State())
    }

    constructor(lib: Library)
      ensures this.lib == lib && file == None
      ensures State() == EmptyTable && Valid()
    {
      this.lib := lib;
      file := None;
      dimensions := [];
      index := [];
      columns := [];
    }

    /** `labels`: one per column, in column order. */
    function ColumnLabels(): (ls: seq<string>)
      reads this
      ensures |ls| == |columns|
      ensures forall i :: 0 <= i < |columns| ==> ls[i] == columns[i].heading
    {
      Labels(columns)
    }

    /** `setData(file, varNames)`: reset, keep the file, then add the names in order. */
    method SetData(file: NetcdfFile, names: seq<string>) returns (outcome: Outcome<Error>)
      modifies this
      ensures this.file == Some(file)
      ensures Step(State(), outcome) == AddedVariables(lib, Some(file), EmptyTable, names)
      ensures Valid()
    {
      ResetData();
      this.file := Some(file);
      ghost var t := State();
      AddVariablesWf(lib, this.file, t, names);
      for i := 0 to |names|
        invariant this.file == Some(file)
        invariant AddedVariables(lib, this.file, t, names) == AddedVariables(lib, this.file, State(), names[i..])
      {
        outcome := AddVariable(names[i]);
        if outcome.Fail? {
          return;
        }
      }
      outcome := Pass;
    }

    /** `addVariable(name)`. */
    method AddVariable(name: string) returns (outcome: Outcome<Error>)
      modifies this
      ensures file == old(file)
      ensures Step(State(), outcome) == AddedVariable(lib, file, old(State()), name)
      ensures old(Valid()) ==> Valid()
    {
      ghost var t := State();
      if Valid() {
        AddVariableWf(lib, file, t, name);
      }
      var found := FindVariable(Searched(file), name);
      if found.None? {
        return Fail(UnknownVariable(name));
      }
      var v := found.value;
      if dimensions == [] {
        dimensions := PublicDimensions(v);
        outcome := AddCoordinateColumns();
        if outcome.Fail? {
          return;
        }
        index := RowIndexOf(dimensions);
      } else if !Congruent(dimensions, PublicDimensions(v)) {
        return Fail(IncongruentVariable(name));
      }
      if HasLabel(columns, name) {
        return Pass;
      }
      outcome := AddVariableColumn(v);
    }

    /** `resetData()`. */
    method ResetData()
      modifies this
      ensures State() == EmptyTable && file == None && Valid()
      ensures ColumnLabels() == [] && RowCount() == 0 && ColumnCount() == 0
    {
      dimensions := [];
      columns := [];
      index := [];
      file := None;
    }

    /** `addCoordinateColumn`. */
    method AddCoordinateColumn(d: Dimension) returns (outcome: Outcome<Error>)
      modifies this
      ensures file == old(file) && dimensions == old(dimensions) && index == old(index)
      ensures var r := CoordinateColumnFor(Model, lib, Searched(file), old(dimensions), d);
        && (r.Success? ==> columns == old(columns) + [r.value] && outcome == Pass)
        && (r.Failure? ==> columns == old(columns) && outcome == Fail(r.error))
    {
      var found := FindVariable(Searched(file), d.name);
      if found.Some? && found.value.isCoordinate {
        outcome := AddVariableColumn(found.value);
      } else {
        columns := columns + [IndexColumn(d.name, IndexOf(dimensions, d), IntIndex)];
        outcome := Pass;
      }
    }

    /** `addVariableColumn`: the column `VariableColumnFor` builds, appended. */
    method AddVariableColumn(v: Variable) returns (outcome: Outcome<Error>)
      modifies this
      ensures file == old(file)
      ensures Step(State(), outcome) == AppendVariable(Model, lib, old(State()), v)
    {
      match VariableColumnFor(Model, lib, v, dimensions)
      case Failure(e) =>
        outcome := Fail(e);
      case Success(c) =>
        columns := columns + [c];
        outcome := Pass;
    }

    /** `dimensions.forEach { addCoordinateColumn(it) }`, up to the first throw. */
    method AddCoordinateColumns() returns (outcome: Outcome<Error>)
      modifies this
      ensures file == old(file) && dimensions == old(dimensions) && index == old(index)
      ensures var b := Collect(CoordinateOutcomes(Model, lib, Searched(file), dimensions), |dimensions|);
        && columns == old(columns) + b.columns
        && outcome == if b.failure.Some? then Fail(b.failure.value) else Pass
    {
      var dims := dimensions;
      ghost var rs := CoordinateOutcomes(Model, lib, Searched(file), dims);
      ghost var added: seq<Column> := [];
      var k := 0;
      while k < |dims|
        invariant 0 <= k <= |dims| && dimensions == dims && index == old(index) && file == old(file)
        invariant Collect(rs, k) == Built(added, None)
        invariant columns == old(columns) + added
      {
        outcome, added := AddNextCoordinateColumn(dims, rs, k, old(columns), added);
        if outcome.Fail? {
          return;
        }
        k := k + 1;
      }
      outcome := Pass;
    }

    /**
     * One step of `AddCoordinateColumns`: the column for `dims[k]` is appended
     * and collected, or its failure ends the collection.
     */
    method AddNextCoordinateColumn(dims: seq<Dimension>, ghost rs: seq<Result<Column, Error>>, k: nat,
                                   ghost before: seq<Column>, ghost added: seq<Column>)
      returns (outcome: Outcome<Error>, ghost added': seq<Column>)
      requires dims == dimensions && rs == CoordinateOutcomes(Model, lib, Searched(file), dims) && k < |dims|
      requires Collect(rs, k) == Built(added, None) && columns == before + added
      modifies this
      ensures file == old(file) && dimensions == old(dimensions) && index == old(index)
      ensures outcome.Pass? ==> Collect(rs, k + 1) == Built(added', None) && columns == before + added'
      ensures outcome.Fail? ==> Collect(rs, |rs|) == Built(added, Some(outcome.error)) && columns == before + added
    {
      CollectNext(rs, k, added);
      CoordinateOutcomesAt(Model, lib, Searched(file), dims);
      outcome := AddCoordinateColumn(dims[k]);
      added' := if outcome.Pass? then added + [rs[k].value] else added;
    }

    /** `getRowCount`: no rows, or as many as the dimensions span. */
    function RowCount(): (n: nat)
      reads this
      ensures Valid() ==> n == 0 || n == RowCountOf(dimensions)
    {
      if Valid() && index != [] then RowIndexLength(dimensions); |index| else |index|
    }

    /** `getColumnCount`: the number of labels. */
    function ColumnCount(): (n: nat)
      reads this
      ensures n == |ColumnLabels()| == |columns|
    {
      |Labels(columns)|
    }

    /** `getColumnClass(i)`: the declared type of column `i`; out of range throws. */
    function ColumnClass(i: int): (r: Result<ColumnType, Error>)
      reads this
      ensures r.Success? <==> 0 <= i < |columns|
      ensures r.Success? ==> r.value == Type(columns[i])
      ensures r.Failure? ==> r.error == IndexOutOfBounds(i)
    {
      if 0 <= i < |columns| then Success(Type(columns[i])) else Failure(IndexOutOfBounds(i))
    }

    /** `getColumnName(i)`: the label of column `i`; out of range throws. */
    function ColumnName(i: int): (r: Result<string, Error>)
      reads this
      ensures r.Success? <==> 0 <= i < ColumnCount()
      ensures r.Success? ==> r.value == ColumnLabels()[i]
    {
      if 0 <= i < |columns| then Success(columns[i].heading) else Failure(IndexOutOfBounds(i))
    }

    /**
     * `getValueAt(row, col)`: what column `col` reads for `row`. In a
     * well-formed model every cell in range can be read, and a variable
     * cell reads one element (or one whole string) inside the variable.
     */
    function ValueAt(row: int, col: int): (r: Result<Cell, Error>)
      reads this
      ensures !(0 <= col < |columns|) ==> r == Failure(IndexOutOfBounds(col))
      ensures 0 <= col < |columns| ==> r == ColumnValue(columns[col], index, row)
      ensures Valid() && 0 <= col < |columns| && 0 <= row < |index| ==> r.Success?
      ensures Valid() && 0 <= col < |columns| && 0 <= row < |index| && columns[col].VariableColumn? ==>
        var v := columns[col].variable;
        && r.value.ReadCell?
        && |r.value.slice.origin| == |r.value.slice.shape| == Rank(v)
        && forall i :: 0 <= i < Rank(v) ==>
          0 <= r.value.slice.origin[i] && r.value.slice.origin[i] + r.value.slice.shape[i] <= Shape(v)[i]
    {
      if !(0 <= col < |columns|) then Failure(IndexOutOfBounds(col))
      else
        var c := columns[col];
        if Valid() && 0 <= row < |index| then
          CellReadable(Model, lib, State(), c, row);
          if c.VariableColumn? then
            ModelReadInside(lib, State(), c, row);
            ColumnValue(c, index, row)
          else ColumnValue(c, index, row)
        else ColumnValue(c, index, row)
    }
  }
}
