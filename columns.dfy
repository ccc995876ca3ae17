/**
 * What the three table views (tools/TableView.kt, DataModel.kt and
 * viewer/DataModel.kt) share: the row index space built from the table
 * dimensions, the congruence test, and the column kinds with their cell
 * reads. A cell read is modelled as the request it sends to the library:
 * the slice (variable, origin, shape) and how the result is decoded.
 */
module Columns {
  import opened Wrappers
  import opened Errors
  import opened Netcdf
  import opened Variables
  import opened CartesianProducts
  import Strings

  // ---- row index space ----

  /** The number of rows the index holds: none without dimensions, else the product of the lengths. */
  function RowCountOf(dims: seq<Dimension>): nat {
    if dims == [] then 0 else Product(Lengths(dims))
  }

  /**
   * `index`: empty when there are no dimensions (the source skips `cartProd`
   * then), otherwise the cartesian product of `0 until length` over the dimensions.
   */
  function RowIndexOf(dims: seq<Dimension>): seq<seq<nat>> {
    if dims == [] then [] else CartProd(Ranges(Lengths(dims)))
  }

  lemma PickRanges(lengths: seq<nat>, t: seq<nat>)
    requires InBounds(t, lengths)
    ensures Pick(Ranges(lengths), t) == t
  {
  }

  /**
   * The index has one entry per row, and the entry at row `r` is the
   * coordinate tuple whose row-major position is `r` (last dimension fastest).
   */
  lemma RowIndexAt(dims: seq<Dimension>, r: nat)
    requires r < RowCountOf(dims)
    ensures |RowIndexOf(dims)| == RowCountOf(dims)
    ensures RowIndexOf(dims)[r] == Decode(r, Lengths(dims))
    ensures InBounds(RowIndexOf(dims)[r], Lengths(dims))
  {
    var ls := Lengths(dims);
    CartProdAt(Ranges(ls), r);
    PickRanges(ls, Decode(r, ls));
  }

  /** Every coordinate tuple within the dimension lengths appears in the index, at its row-major position. */
  lemma RowIndexCovers(dims: seq<Dimension>, t: seq<nat>)
    requires dims != [] && InBounds(t, Lengths(dims))
    ensures Encode(t, Lengths(dims)) < RowCountOf(dims) == |RowIndexOf(dims)|
    ensures RowIndexOf(dims)[Encode(t, Lengths(dims))] == t
  {
    DecodeEncode(t, Lengths(dims));
    RowIndexAt(dims, Encode(t, Lengths(dims)));
  }

  /** The index has one entry per row. */
  lemma RowIndexLength(dims: seq<Dimension>)
    ensures |RowIndexOf(dims)| == RowCountOf(dims)
  {
    if dims != [] {
      CartProdLength(Ranges(Lengths(dims)));
    }
  }

  /** Each tuple of the index has one coordinate per dimension, within that dimension's length. */
  lemma RowIndexInBounds(dims: seq<Dimension>)
    ensures |RowIndexOf(dims)| == RowCountOf(dims)
    ensures forall r :: 0 <= r < |RowIndexOf(dims)| ==> InBounds(RowIndexOf(dims)[r], Lengths(dims))
  {
    if dims == [] {
    } else {
      CartProdLength(Ranges(Lengths(dims)));
      forall r | 0 <= r < |RowIndexOf(dims)|
        ensures InBounds(RowIndexOf(dims)[r], Lengths(dims))
      {
        RowIndexAt(dims, r);
      }
    }
  }

  /** With dimensions of lengths 2 and 3, row 4 is the tuple (1, 1). */
  lemma RowMajorExample()
    ensures |RowIndexOf([Dimension("y", 2), Dimension("x", 3)])| == 6
    ensures RowIndexOf([Dimension("y", 2), Dimension("x", 3)])[4] == [1, 1]
  {
    var dims := [Dimension("y", 2), Dimension("x", 3)];
    assert Lengths(dims) == [2, 3];
    assert Product([3]) == 3 && Product([2, 3]) == 6;
    RowIndexAt(dims, 4);
    assert Decode(4, [2, 3]) == [1] + Decode(1, [3]);
    assert Decode(1, [3]) == [1] + Decode(0, []);
  }

  // ---- congruence ----

  /**
   * `setOf(dimensions) == setOf(variable.dimensions)`: each side is a set
   * holding one list, so the test compares the two ordered lists.
   */
  predicate Congruent(tableDims: seq<Dimension>, varDims: seq<Dimension>) {
    {tableDims} == {varDims}
  }

  /** Congruence as coded is equality of the ordered dimension lists. */
  lemma CongruentIsListEquality(a: seq<Dimension>, b: seq<Dimension>)
    ensures Congruent(a, b) <==> a == b
  {
    if Congruent(a, b) {
      assert a in {b};
    }
  }

  /** Two lists of the same dimensions in another order are not congruent. */
  lemma CongruenceIsOrderSensitive()
    ensures var a, b := [Dimension("lat", 128), Dimension("lon", 256)], [Dimension("lon", 256), Dimension("lat", 128)];
      (set d | d in a) == (set d | d in b) && !Congruent(a, b)
  {
    var a, b := [Dimension("lat", 128), Dimension("lon", 256)], [Dimension("lon", 256), Dimension("lat", 128)];
    CongruentIsListEquality(a, b);
    assert a[0] != b[0];
  }

  // ---- axis maps ----

  /** `list.indexOf(x)`: the first position of `x`, or -1. */
  function IndexOf<T(==)>(s: seq<T>, x: T): (i: int)
    ensures -1 <= i < |s|
    ensures i == -1 <==> x !in s
    ensures 0 <= i ==> s[i] == x && forall j :: 0 <= j < i ==> s[j] != x
  {
    if s == [] then -1
    else if s[0] == x then 0
    else
      var j := IndexOf(s[1..], x);
      if j == -1 then -1 else j + 1
  }

  /**
   * A column's `axes`: the table position of each of the variable's
   * dimensions; none (the source throws) when one of them is missing.
   */
  function Axes(varDims: seq<Dimension>, tableDims: seq<Dimension>): (r: Option<seq<nat>>)
    ensures r.Some? <==> forall d :: d in varDims ==> d in tableDims
    ensures r.Some? ==> |r.value| == |varDims|
    ensures r.Some? ==> forall i :: 0 <= i < |varDims| ==>
      r.value[i] < |tableDims| && tableDims[r.value[i]] == varDims[i] && r.value[i] == IndexOf(tableDims, varDims[i])
  {
    if varDims == [] then Some([])
    else
      var i := IndexOf(tableDims, varDims[0]);
      match Axes(varDims[1..], tableDims)
      case None => None
      case Some(rest) => if i == -1 then None else Some([i as nat] + rest)
  }

  // ---- columns ----

  /** The Java class a column declares: Int or Long for index columns, the variable's type, or String. */
  datatype ColumnType = IntIndex | LongIndex | Native(dataType: DataType) | Text

  /** How a variable column turns what it reads into a value. */
  datatype Kind =
    | Plain                          // VariableColumn: the single element read
    | ArrayString(strLength: nat)    // ArrayStringColumn: the characters read, as text
    | Time(units: DateUnit)          // TimeColumn: the number read, as a calendar date

  datatype Column =
    | IndexColumn(heading: string, axis: int, indexType: ColumnType)
    | VariableColumn(heading: string, variable: Variable, axes: seq<nat>, shape: seq<nat>, kind: Kind)

  /** What a cell read yields: an index value, or a library read and how to decode it. */
  datatype Cell = IndexCell(i: nat) | ReadCell(slice: Slice, decode: Kind)

  /** `labels`: the column labels, in column order. */
  function Labels(cs: seq<Column>): (ls: seq<string>)
    ensures |ls| == |cs|
    ensures forall i :: 0 <= i < |cs| ==> ls[i] == cs[i].heading
  {
    seq(|cs|, i requires 0 <= i < |cs| => cs[i].heading)
  }

  lemma LabelsAppend(a: seq<Column>, b: seq<Column>)
    ensures Labels(a + b) == Labels(a) + Labels(b)
  {
  }

  /**
   * `column(label)`: the first column with that heading; the source throws
   * when there is none.
   */
  function ColumnLabeled(cs: seq<Column>, heading: string): (r: Result<Column, Error>)
    ensures r.Success? <==> heading in Labels(cs)
    ensures r.Failure? ==> r.error == UnknownColumn(heading)
    ensures r.Success? ==>
      && r.value.heading == heading
      && exists i :: 0 <= i < |cs| && cs[i] == r.value && forall j :: 0 <= j < i ==> cs[j].heading != heading
  {
    var i := IndexOf(Labels(cs), heading);
    if i == -1 then Failure(UnknownColumn(heading)) else Success(cs[i])
  }

  /** `columns.find { it.heading == name } != null`. */
  predicate HasLabel(cs: seq<Column>, name: string) {
    name in Labels(cs)
  }

  /** `Column.type`. */
  function Type(c: Column): ColumnType {
    match c
    case IndexColumn(_, _, t) => t
    case VariableColumn(_, v, _, _, kind) => if kind.Plain? then Native(v.dataType) else Text
  }

  function Ones(n: nat): (s: seq<nat>)
    ensures |s| == n && forall i :: 0 <= i < n ==> s[i] == 1
  {
    seq(n, i => 1)
  }

  /** `shape`: all 1s over the variable's dimensions, except the full string length for array strings. */
  function ReadShape(v: Variable, kind: Kind): (s: seq<nat>)
    requires kind.ArrayString? ==> Rank(v) > 0
    ensures |s| == Rank(v)
  {
    if kind.ArrayString? then Ones(|Shape(v)| - 1) + [kind.strLength] else Ones(Rank(v))
  }

  /** `index.slice(axes)`: the coordinates at the given positions. */
  function Project(tuple: seq<nat>, axes: seq<nat>): seq<int>
    requires forall i :: 0 <= i < |axes| ==> axes[i] < |tuple|
  {
    seq(|axes|, i requires 0 <= i < |axes| => tuple[axes[i]] as int)
  }

  /** `origin`: the projected coordinates, followed by 0 for the string-length axis of array strings. */
  function Origin(tuple: seq<nat>, axes: seq<nat>, kind: Kind): seq<int>
    requires forall i :: 0 <= i < |axes| ==> axes[i] < |tuple|
  {
    Project(tuple, axes) + if kind.ArrayString? then [0] else []
  }

  /** The tuple has a coordinate at every position the column reads. */
  predicate InRange(c: Column, tuple: seq<nat>) {
    match c
    case IndexColumn(_, axis, _) => 0 <= axis < |tuple|
    case VariableColumn(_, _, axes, _, _) => forall i :: 0 <= i < |axes| ==> axes[i] < |tuple|
  }

  /**
   * `column.value(row)`: look the row up in the index, then either return one
   * coordinate (index columns) or read the variable at the projected origin.
   */
  function ColumnValue(c: Column, index: seq<seq<nat>>, row: int): (r: Result<Cell, Error>)
    ensures r.Success? <==> (0 <= row < |index| && InRange(c, index[row]))
    ensures r.Success? && c.IndexColumn? ==> r.value == IndexCell(index[row][c.axis])
    ensures r.Success? && c.VariableColumn? ==> r.value.ReadCell?
    ensures r.Success? && c.VariableColumn? ==>
      var s := r.value.slice;
      && s.variable == c.variable && s.shape == c.shape && r.value.decode == c.kind
      && |s.origin| == |c.axes| + (if c.kind.ArrayString? then 1 else 0)
      && (forall i :: 0 <= i < |c.axes| ==> s.origin[i] == index[row][c.axes[i]])
      && (c.kind.ArrayString? ==> s.origin[|c.axes|] == 0)
  {
    if !(0 <= row < |index|) then Failure(IndexOutOfBounds(row))
    else
      var tuple := index[row];
      match c
      case IndexColumn(_, axis, _) =>
        if 0 <= axis < |tuple| then Success(IndexCell(tuple[axis])) else Failure(IndexOutOfBounds(axis))
      case VariableColumn(_, v, axes, shape, kind) =>
        if forall i :: 0 <= i < |axes| ==> axes[i] < |tuple| then
          Success(ReadCell(Slice(v, Origin(tuple, axes, kind), shape), kind))
        else Failure(IndexOutOfBounds(|tuple|))
  }

  // ---- building columns ----

  /**
   * The two ways the source builds columns: tools/TableView.kt (`Tools`) maps
   * all of a variable's dimensions and uses its own `isTime`; DataModel.kt
   * and viewer/DataModel.kt (`Model`) map the public dimensions and use the
   * properties of Variable.kt.
   */
  datatype Generation = Tools | Model

  /** The variable dimensions a column's axes are built from. */
  function AxisDimensions(g: Generation, v: Variable): seq<Dimension> {
    if g == Tools then v.dimensions else PublicDimensions(v)
  }

  /**
   * tools/TableView.kt's private `isTime`: like Variable.kt's, except that it
   * lower-cases `unitsString` without a null check, so a numeric variable named
   * "time..." without units throws.
   */
  function ToolsIsTime(v: Variable, lib: Library): (r: Result<bool, Error>)
    ensures r.Failure? <==> Strings.StartsWith(NameEscaped(v), "time") && IsNumeric(v.dataType) && v.units.None?
    ensures r.Success? ==> r.value == IsTime(v, lib)
  {
    if Strings.StartsWith(NameEscaped(v), "time") && IsNumeric(v.dataType) then
      match v.units
      case None => Failure(NullUnits(v.name))
      case Some(_) => Success(IsTime(v, lib))
    else Success(false)
  }

  /** The time test each generation applies. */
  function TimeTest(g: Generation, v: Variable, lib: Library): (r: Result<bool, Error>)
    ensures r.Success? ==> r.value == IsTime(v, lib)
    ensures g == Model ==> r.Success?
  {
    if g == Tools then ToolsIsTime(v, lib) else Success(IsTime(v, lib))
  }

  /**
   * The date units a time column decodes with: tools/TableView.kt passes the
   * raw `calendar` attribute (or the default name); the later generation uses
   * Variable.kt's `dateUnits`, which is present for every time variable.
   */
  function TimeUnits(g: Generation, v: Variable, lib: Library): (u: DateUnit)
    requires IsTime(v, lib)
    ensures u.units == v.units.value
  {
    if g == Tools then DateUnit(v.calendar.GetOr(lib.defaultCalendar), v.units.value)
    else DateUnits(v, lib).value
  }

  /** `addVariableColumn`'s choice: time first, then array string, else plain. */
  function KindFor(g: Generation, v: Variable, lib: Library): (k: Kind)
    ensures k.Time? <==> IsTime(v, lib)
    ensures k.ArrayString? <==> !IsTime(v, lib) && IsArrayString(v)
    ensures k.ArrayString? ==> Rank(v) == 2 && k.strLength == v.dimensions[1].length
  {
    if IsTime(v, lib) then Time(TimeUnits(g, v, lib))
    else if IsArrayString(v) then ArrayString(Shape(v)[|Shape(v)| - 1])
    else Plain
  }

  /** `addVariableColumn`: the column for a variable, labelled with its name. */
  function VariableColumnFor(g: Generation, lib: Library, v: Variable, tableDims: seq<Dimension>): (r: Result<Column, Error>)
    ensures r.Success? <==> TimeTest(g, v, lib).Success? && Axes(AxisDimensions(g, v), tableDims).Some?
    ensures r.Success? ==>
      && r.value.VariableColumn? && r.value.heading == v.name && r.value.variable == v
      && Some(r.value.axes) == Axes(AxisDimensions(g, v), tableDims)
      && r.value.kind == KindFor(g, v, lib)
      && r.value.shape == ReadShape(v, r.value.kind)
    ensures r.Failure? && TimeTest(g, v, lib).Success? ==> r.error == IncompatibleDimensions(v.name)
  {
    match TimeTest(g, v, lib)
    case Failure(e) => Failure(e)
    case Success(_) =>
      match Axes(AxisDimensions(g, v), tableDims)
      case None => Failure(IncompatibleDimensions(v.name))
      case Some(axes) =>
        var kind := KindFor(g, v, lib);
        Success(VariableColumn(v.name, v, axes, ReadShape(v, kind), kind))
  }

  /**
   * `addCoordinateColumn`: the column of the dimension's coordinate variable
   * when the file has one, else an index column over the dimension's axis.
   */
  function CoordinateColumnFor(g: Generation, lib: Library, file: NetcdfFile, tableDims: seq<Dimension>, d: Dimension): (r: Result<Column, Error>)
    ensures r.Success? ==> r.value.heading == d.name
  {
    match FindVariable(file, d.name)
    case Some(cv) =>
      if cv.isCoordinate then VariableColumnFor(g, lib, cv, tableDims)
      else Success(IndexColumn(d.name, IndexOf(tableDims, d), IndexType(g)))
    case None => Success(IndexColumn(d.name, IndexOf(tableDims, d), IndexType(g)))
  }

  /**
   * A coordinate column is an index column over the dimension's first
   * position, or the column of a variable of that name; either way it is
   * built over the table dimensions when the dimension is one of them.
   */
  lemma CoordinateColumnForIs(g: Generation, lib: Library, file: NetcdfFile, tableDims: seq<Dimension>, d: Dimension)
    ensures var r := CoordinateColumnFor(g, lib, file, tableDims, d);
      && (r.Success? && r.value.IndexColumn? ==> r.value.axis == IndexOf(tableDims, d) && r.value.indexType == IndexType(g))
      && (r.Success? && r.value.VariableColumn? ==>
        && FindVariable(file, d.name) == Some(r.value.variable) && r.value.variable.isCoordinate
        && VariableColumnFor(g, lib, r.value.variable, tableDims) == r)
      && (r.Success? && d in tableDims ==> Fits(g, lib, r.value, tableDims))
  {
  }

  /** The type of an index column: Long in tools/TableView.kt, Int in the later generation. */
  function IndexType(g: Generation): ColumnType {
    if g == Tools then LongIndex else IntIndex
  }

  /** A column the generation builds over table dimensions `dims`. */
  predicate Fits(g: Generation, lib: Library, c: Column, dims: seq<Dimension>) {
    match c
    case IndexColumn(_, axis, t) => 0 <= axis < |dims| && t == IndexType(g)
    case VariableColumn(_, v, _, _, _) => VariableColumnFor(g, lib, v, dims) == Success(c)
  }

  /** The columns appended so far, and the exception that stopped the appending, if any. */
  datatype Built = Built(columns: seq<Column>, failure: Option<Error>)

  /**
   * A `forEach` whose body may throw, over the first `k` outcomes: the
   * columns of the successes, up to the first failure, and that failure.
   */
  function Collect(rs: seq<Result<Column, Error>>, k: nat): (b: Built)
    requires k <= |rs|
    ensures |b.columns| <= k
    ensures b.failure.None? ==> |b.columns| == k
    ensures b.failure.Some? ==> |b.columns| < k
  {
    if k == 0 then Built([], None)
    else
      var prev := Collect(rs, k - 1);
      if prev.failure.Some? then prev
      else
        match rs[k - 1]
        case Failure(e) => Built(prev.columns, Some(e))
        case Success(c) => Built(prev.columns + [c], None)
  }

  /** The failure collected is the outcome right after the columns collected. */
  lemma {:induction false} CollectFailure(rs: seq<Result<Column, Error>>, k: nat)
    requires k <= |rs| && Collect(rs, k).failure.Some?
    ensures rs[|Collect(rs, k).columns|] == Failure(Collect(rs, k).failure.value)
    decreases k
  {
    if Collect(rs, k - 1).failure.Some? {
      CollectFailure(rs, k - 1);
    }
  }

  /** The columns collected are those of the successes before the first failure. */
  lemma {:induction false} CollectSuccesses(rs: seq<Result<Column, Error>>, k: nat)
    requires k <= |rs|
    ensures forall i :: 0 <= i < |Collect(rs, k).columns| ==> rs[i] == Success(Collect(rs, k).columns[i])
    decreases k
  {
    if k > 0 {
      CollectSuccesses(rs, k - 1);
    }
  }

  /**
   * One more outcome after only successes: a success appends its column; a
   * failure ends the collection, whatever follows it.
   */
  lemma CollectNext(rs: seq<Result<Column, Error>>, k: nat, added: seq<Column>)
    requires k < |rs| && Collect(rs, k) == Built(added, None)
    ensures rs[k].Success? ==> Collect(rs, k + 1) == Built(added + [rs[k].value], None)
    ensures rs[k].Failure? ==> Collect(rs, |rs|) == Built(added, Some(rs[k].error))
  {
    if rs[k].Failure? {
      CollectStop(rs, k + 1, |rs|);
    }
  }

  /** Once an outcome is a failure, the later ones add nothing. */
  lemma {:induction false} CollectStop(rs: seq<Result<Column, Error>>, k: nat, n: nat)
    requires k <= n <= |rs| && Collect(rs, k).failure.Some?
    ensures Collect(rs, n) == Collect(rs, k)
    decreases n
  {
    if n > k {
      CollectStop(rs, k, n - 1);
    }
  }

  /** What `addCoordinateColumn` does for each table dimension, in order. */
  function CoordinateOutcomes(g: Generation, lib: Library, file: NetcdfFile, dims: seq<Dimension>): (rs: seq<Result<Column, Error>>)
    ensures |rs| == |dims|
  {
    OutcomesOver(g, lib, file, dims, dims)
  }

  function OutcomesOver(g: Generation, lib: Library, file: NetcdfFile, tableDims: seq<Dimension>, ds: seq<Dimension>): (rs: seq<Result<Column, Error>>)
    ensures |rs| == |ds|
  {
    if ds == [] then []
    else [CoordinateColumnFor(g, lib, file, tableDims, ds[0])] + OutcomesOver(g, lib, file, tableDims, ds[1..])
  }

  /** The outcome for each dimension is its coordinate column, or the exception building it throws. */
  lemma CoordinateOutcomesAt(g: Generation, lib: Library, file: NetcdfFile, dims: seq<Dimension>)
    ensures forall i :: 0 <= i < |dims| ==>
      CoordinateOutcomes(g, lib, file, dims)[i] == CoordinateColumnFor(g, lib, file, dims, dims[i])
  {
    OutcomesOverAt(g, lib, file, dims, dims);
  }

  lemma {:induction false} OutcomesOverAt(g: Generation, lib: Library, file: NetcdfFile, tableDims: seq<Dimension>, ds: seq<Dimension>)
    ensures forall i :: 0 <= i < |ds| ==>
      OutcomesOver(g, lib, file, tableDims, ds)[i] == CoordinateColumnFor(g, lib, file, tableDims, ds[i])
    decreases |ds|
  {
    if ds != [] {
      OutcomesOverAt(g, lib, file, tableDims, ds[1..]);
    }
  }

  /**
   * `dimensions.forEach { addCoordinateColumn(it) }` over the first `k`
   * table dimensions: one column per dimension, stopping at the first throw.
   */
  function CoordinateColumns(g: Generation, lib: Library, file: NetcdfFile, dims: seq<Dimension>, k: nat): (b: Built)
    requires k <= |dims|
    ensures |b.columns| <= k && (b.failure.None? <==> |b.columns| == k)
  {
    Collect(CoordinateOutcomes(g, lib, file, dims), k)
  }

  /**
   * The coordinate columns are the dimensions' coordinate columns in order,
   * up to the first that throws, which is the failure recorded.
   */
  lemma CoordinateColumnsAre(g: Generation, lib: Library, file: NetcdfFile, dims: seq<Dimension>, k: nat)
    requires k <= |dims|
    ensures var b := CoordinateColumns(g, lib, file, dims, k);
      && (b.failure.Some? ==> CoordinateColumnFor(g, lib, file, dims, dims[|b.columns|]) == Failure(b.failure.value))
      && forall i :: 0 <= i < |b.columns| ==> CoordinateColumnFor(g, lib, file, dims, dims[i]) == Success(b.columns[i])
  {
    var rs := CoordinateOutcomes(g, lib, file, dims);
    CoordinateOutcomesAt(g, lib, file, dims);
    var b := Collect(rs, k);
    CollectSuccesses(rs, k);
    if b.failure.Some? {
      CollectFailure(rs, k);
    }
    forall i | 0 <= i < |b.columns|
      ensures CoordinateColumnFor(g, lib, file, dims, dims[i]) == Success(b.columns[i])
    {
      assert rs[i] == Success(b.columns[i]);
    }
  }

  /** The coordinate columns are labelled with the dimension names, in order. */
  lemma CoordinateColumnsLabels(g: Generation, lib: Library, file: NetcdfFile, dims: seq<Dimension>, k: nat)
    requires k <= |dims|
    ensures var b := CoordinateColumns(g, lib, file, dims, k);
      Labels(b.columns) == Names(dims)[..|b.columns|]
  {
    var rs := CoordinateOutcomes(g, lib, file, dims);
    CoordinateOutcomesAt(g, lib, file, dims);
    var b := Collect(rs, k);
    CollectSuccesses(rs, k);
    forall i | 0 <= i < |b.columns|
      ensures b.columns[i].heading == dims[i].name
    {
      assert rs[i] == Success(b.columns[i]);
    }
  }

  /** Each coordinate column is built over the dimensions. */
  lemma CoordinateColumnsFit(g: Generation, lib: Library, file: NetcdfFile, dims: seq<Dimension>, k: nat)
    requires k <= |dims|
    ensures var b := CoordinateColumns(g, lib, file, dims, k);
      forall c :: c in b.columns ==> Fits(g, lib, c, dims)
  {
    var rs := CoordinateOutcomes(g, lib, file, dims);
    CoordinateOutcomesAt(g, lib, file, dims);
    var b := Collect(rs, k);
    CollectSuccesses(rs, k);
    forall c | c in b.columns
      ensures Fits(g, lib, c, dims)
    {
      var i :| 0 <= i < |b.columns| && b.columns[i] == c;
      assert rs[i] == Success(c);
      CoordinateColumnForIs(g, lib, file, dims, dims[i]);
      assert dims[i] in dims;
    }
  }
}
