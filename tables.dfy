/**
 * The state the three table views keep — the table dimensions, the row
 * index and the ordered columns — and the steps they share when a variable
 * is added: setting up the coordinate columns for the first variable and
 * appending a variable column. The invariant `Wf` is what every step keeps;
 * `CellReadable` is what it buys: every cell of every row is read inside the
 * variable's extent.
 */
module Tables {
  import opened Wrappers
  import opened Errors
  import opened Netcdf
  import opened Variables
  import opened CartesianProducts
  import opened Columns

  datatype Table = Table(dimensions: seq<Dimension>, index: seq<seq<nat>>, columns: seq<Column>)

  /** A table before any variable is added, and after it is cleared. */
  const EmptyTable := Table([], [], [])

  /** What an add leaves behind: the table, and whether it threw. */
  datatype Step = Step(table: Table, outcome: Outcome<Error>)

  /** `addVariableColumn`: append the variable's column, or throw and leave the table as it was. */
  function AppendVariable(g: Generation, lib: Library, t: Table, v: Variable): (s: Step)
    ensures s.outcome.Pass? <==> VariableColumnFor(g, lib, v, t.dimensions).Success?
    ensures s.outcome.Pass? ==> s.table == t.(columns := t.columns + [VariableColumnFor(g, lib, v, t.dimensions).value])
    ensures s.outcome.Fail? ==> s.table == t && s.outcome.error == VariableColumnFor(g, lib, v, t.dimensions).error
  {
    match VariableColumnFor(g, lib, v, t.dimensions)
    case Failure(e) => Step(t, Fail(e))
    case Success(c) => Step(t.(columns := t.columns + [c]), Pass)
  }

  /**
   * The first add's set-up: the table takes `dims` as its dimensions and gets
   * one coordinate column per dimension, in order, until one of them throws.
   * The row index is left to the caller.
   */
  function SetUp(g: Generation, lib: Library, file: NetcdfFile, t: Table, dims: seq<Dimension>): (s: Step)
    ensures s.table.dimensions == dims && s.table.index == t.index
    ensures s.table.columns == t.columns + CoordinateColumns(g, lib, file, dims, |dims|).columns
    ensures s.outcome.Pass? <==> CoordinateColumns(g, lib, file, dims, |dims|).failure.None?
    ensures s.outcome.Pass? ==> Labels(s.table.columns) == Labels(t.columns) + Names(dims)
  {
    var b := CoordinateColumns(g, lib, file, dims, |dims|);
    CoordinateColumnsLabels(g, lib, file, dims, |dims|);
    LabelsAppend(t.columns, b.columns);
    Step(Table(dims, t.index, t.columns + b.columns), if b.failure.Some? then Fail(b.failure.value) else Pass)
  }

  /**
   * The invariant every table view keeps: the index is empty or is the full
   * row index of the dimensions, and every column was built over them.
   */
  predicate Wf(g: Generation, lib: Library, t: Table) {
    && (t.index == [] || (t.dimensions != [] && t.index == RowIndexOf(t.dimensions)))
    && forall c :: c in t.columns ==> Fits(g, lib, c, t.dimensions)
  }

  lemma EmptyTableWf(g: Generation, lib: Library)
    ensures Wf(g, lib, EmptyTable)
  {
  }

  /** A column built while there were no dimensions reads no axes, so it stays valid once there are. */
  lemma FitsWithoutDimensions(g: Generation, lib: Library, c: Column, dims: seq<Dimension>)
    requires Fits(g, lib, c, [])
    ensures Fits(g, lib, c, dims)
  {
    if c.VariableColumn? {
      var ds := AxisDimensions(g, c.variable);
      assert ds == [] by {
        assert Axes(ds, []).Some?;
      }
    }
  }

  /** Setting up a table without dimensions keeps the invariant, with or without its index. */
  lemma SetUpWf(g: Generation, lib: Library, file: NetcdfFile, t: Table, dims: seq<Dimension>)
    requires Wf(g, lib, t) && t.dimensions == [] && t.index == []
    ensures Wf(g, lib, SetUp(g, lib, file, t, dims).table)
    ensures Wf(g, lib, SetUp(g, lib, file, t, dims).table.(index := RowIndexOf(dims)))
  {
    var cs := CoordinateColumns(g, lib, file, dims, |dims|).columns;
    CoordinateColumnsFit(g, lib, file, dims, |dims|);
    forall c | c in t.columns
      ensures Fits(g, lib, c, dims)
    {
      FitsWithoutDimensions(g, lib, c, dims);
    }
  }

  /** Appending a variable column keeps the invariant. */
  lemma AppendVariableWf(g: Generation, lib: Library, t: Table, v: Variable)
    requires Wf(g, lib, t)
    ensures Wf(g, lib, AppendVariable(g, lib, t, v).table)
  {
  }

  /** A table without dimensions has an empty index. */
  lemma NoDimensionsNoRows(g: Generation, lib: Library, t: Table)
    requires Wf(g, lib, t) && t.dimensions == []
    ensures t.index == []
  {
  }

  /**
   * In a well-formed table every cell of every row can be read: the index
   * has the row, the tuple has every axis the column reads, and each origin
   * coordinate lies inside the variable's dimension on that axis.
   */
  lemma CellReadable(g: Generation, lib: Library, t: Table, c: Column, row: int)
    requires Wf(g, lib, t) && c in t.columns && 0 <= row < |t.index|
    ensures var r := ColumnValue(c, t.index, row);
      && r.Success?
      && (c.VariableColumn? ==>
        && r.value.ReadCell? && |r.value.slice.origin| >= |c.axes| && |c.axes| <= Rank(c.variable)
        && forall i :: 0 <= i < |c.axes| ==> 0 <= r.value.slice.origin[i] < Shape(c.variable)[i])
  {
    var tuple := RowTuple(g, lib, t, row);
    assert Fits(g, lib, c, t.dimensions);
    if c.VariableColumn? {
      var ds := FitsVariable(g, lib, c, t.dimensions);
      OriginInside(c, t.index, row, ds, t.dimensions);
    }
  }

  /** The origin of a variable column's read, for a tuple within the table dimensions. */
  lemma OriginInside(c: Column, index: seq<seq<nat>>, row: int, ds: seq<Dimension>, dims: seq<Dimension>)
    requires c.VariableColumn? && Axes(ds, dims) == Some(c.axes) && ds <= c.variable.dimensions
    requires 0 <= row < |index| && InBounds(index[row], Lengths(dims))
    ensures var r := ColumnValue(c, index, row);
      && r.Success? && r.value.ReadCell? && |r.value.slice.origin| >= |c.axes| && |c.axes| <= Rank(c.variable)
      && forall i :: 0 <= i < |c.axes| ==> 0 <= r.value.slice.origin[i] < Shape(c.variable)[i]
  {
    var tuple := index[row];
    AxesInside(ds, dims, c.axes, tuple);
    var r := ColumnValue(c, index, row);
    forall i | 0 <= i < |c.axes|
      ensures 0 <= r.value.slice.origin[i] < Shape(c.variable)[i]
    {
      assert r.value.slice.origin[i] == tuple[c.axes[i]];
      assert ds[i] == c.variable.dimensions[i];
    }
  }

  /** The tuple at a row of a well-formed table lies within the table dimensions. */
  lemma RowTuple(g: Generation, lib: Library, t: Table, row: int) returns (tuple: seq<nat>)
    requires Wf(g, lib, t) && 0 <= row < |t.index|
    ensures tuple == t.index[row] && InBounds(tuple, Lengths(t.dimensions))
  {
    RowIndexInBounds(t.dimensions);
    tuple := t.index[row];
  }

  /** What a variable column built over `dims` records: its axes map its axis dimensions into `dims`. */
  lemma FitsVariable(g: Generation, lib: Library, c: Column, dims: seq<Dimension>) returns (ds: seq<Dimension>)
    requires c.VariableColumn? && Fits(g, lib, c, dims)
    ensures ds == AxisDimensions(g, c.variable) && Axes(ds, dims) == Some(c.axes)
    ensures ds <= c.variable.dimensions
    ensures c.kind == KindFor(g, c.variable, lib) && c.shape == ReadShape(c.variable, c.kind)
  {
    ds := AxisDimensions(g, c.variable);
  }

  /** A tuple within the table dimensions is within each mapped variable dimension too. */
  lemma AxesInside(ds: seq<Dimension>, dims: seq<Dimension>, axes: seq<nat>, tuple: seq<nat>)
    requires Axes(ds, dims) == Some(axes) && InBounds(tuple, Lengths(dims))
    ensures forall i :: 0 <= i < |axes| ==> axes[i] < |tuple| && tuple[axes[i]] < ds[i].length
  {
    forall i | 0 <= i < |axes|
      ensures axes[i] < |tuple| && tuple[axes[i]] < ds[i].length
    {
      assert dims[axes[i]] == ds[i];
      assert Lengths(dims)[axes[i]] == ds[i].length;
    }
  }

  /**
   * In the later generation a cell read covers exactly one element of the
   * variable (or one whole string of an array-string variable): origin and
   * shape have one entry per dimension, and `origin + shape` stays within
   * the variable's shape.
   */
  lemma ModelReadInside(lib: Library, t: Table, c: Column, row: int)
    requires Wf(Model, lib, t) && c in t.columns && 0 <= row < |t.index| && c.VariableColumn?
    ensures var r := ColumnValue(c, t.index, row);
      && r.Success? && r.value.ReadCell?
      && |r.value.slice.origin| == |r.value.slice.shape| == Rank(c.variable)
      && forall i :: 0 <= i < Rank(c.variable) ==>
        0 <= r.value.slice.origin[i] && r.value.slice.origin[i] + r.value.slice.shape[i] <= Shape(c.variable)[i]
  {
    CellReadable(Model, lib, t, c, row);
    ModelColumn(lib, c, t.dimensions);
    var s := ColumnValue(c, t.index, row).value.slice;
    SliceInside(c.variable, c.kind, c.axes, s.origin, s.shape);
  }

  /** What a later-generation variable column records about its variable. */
  lemma ModelColumn(lib: Library, c: Column, dims: seq<Dimension>)
    requires c.VariableColumn? && Fits(Model, lib, c, dims)
    ensures c.kind.ArrayString? <==> IsArrayString(c.variable)
    ensures c.kind.ArrayString? ==> c.kind.strLength == c.variable.dimensions[1].length
    ensures |c.axes| == |PublicDimensions(c.variable)|
    ensures c.shape == ReadShape(c.variable, c.kind)
  {
    var ds := FitsVariable(Model, lib, c, dims);
    ModelKind(c.variable, lib);
  }

  /** In the later generation a column reads as an array string exactly when the variable is one. */
  lemma ModelKind(v: Variable, lib: Library)
    ensures KindFor(Model, v, lib).ArrayString? <==> IsArrayString(v)
  {
    assert !IsNumeric(Char);
    assert IsTime(v, lib) ==> IsNumeric(v.dataType);
  }

  /** Origin and shape of a read stay within the variable when the mapped coordinates do. */
  lemma SliceInside(v: Variable, kind: Kind, axes: seq<nat>, origin: seq<int>, shape: seq<nat>)
    requires kind.ArrayString? <==> IsArrayString(v)
    requires kind.ArrayString? ==> kind.strLength == v.dimensions[1].length
    requires |axes| == |PublicDimensions(v)|
    requires |origin| == |axes| + (if kind.ArrayString? then 1 else 0)
    requires forall i :: 0 <= i < |axes| ==> 0 <= origin[i] < Shape(v)[i]
    requires kind.ArrayString? ==> origin[|axes|] == 0
    requires shape == ReadShape(v, kind)
    ensures |origin| == |shape| == Rank(v)
    ensures forall i :: 0 <= i < Rank(v) ==> 0 <= origin[i] && origin[i] + shape[i] <= Shape(v)[i]
  {
    forall i | 0 <= i < Rank(v)
      ensures 0 <= origin[i] && origin[i] + shape[i] <= Shape(v)[i]
    {
      if i < |axes| {
        assert shape[i] == 1;
      }
    }
  }
}
