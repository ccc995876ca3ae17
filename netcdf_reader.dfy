/**
 * The record iterator of `tools/NetcdfReader.kt`: a reader that opens one
 * file at a time, keys the file's variables by full name, and turns a
 * selection of variables into one record per cell of the cartesian product
 * of the first selected variable's dimensions.
 */
module Readers {
  import opened Wrappers
  import opened Errors
  import opened Netcdf
  import opened CartesianProducts
  import Columns

  /** `DataRecord`: dimension name to coordinate text, and variable name to the one-cell read. */
  datatype DataRecord = DataRecord(index: map<string, string>, data: map<string, Slice>)

  // ---- `associateBy { it.fullName }`: an insertion-ordered map ----

  predicate DistinctNames(vs: seq<Variable>) {
    forall i, j :: 0 <= i < j < |vs| ==> vs[i].name != vs[j].name
  }

  /** Position of the first entry with that name, or -1 (`indexOf`). */
  function IndexOfName(entries: seq<Variable>, name: string): (i: int)
    ensures -1 <= i < |entries|
    ensures i >= 0 ==> entries[i].name == name && forall j :: 0 <= j < i ==> entries[j].name != name
    ensures i == -1 <==> forall j :: 0 <= j < |entries| ==> entries[j].name != name
  {
    if entries == [] then -1
    else if entries[0].name == name then 0
    else
      var i := IndexOfName(entries[1..], name);
      if i < 0 then -1 else i + 1
  }

  /** The map's `get(name)`: the entry stored under that key, or null. */
  function Lookup(entries: seq<Variable>, name: string): Option<Variable> {
    var i := IndexOfName(entries, name);
    if i < 0 then None else Some(entries[i])
  }

  /** `put(v.fullName, v)`: a new key goes last; an existing key keeps its place and takes the new value. */
  function Put(entries: seq<Variable>, v: Variable): seq<Variable> {
    var i := IndexOfName(entries, v.name);
    if i < 0 then entries + [v] else entries[i := v]
  }

  /** `associateBy { it.fullName }` over the file's variables, in file order. */
  function ByName(vs: seq<Variable>): seq<Variable>
    decreases |vs|
  {
    if vs == [] then [] else Put(ByName(vs[..|vs| - 1]), vs[|vs| - 1])
  }

  /** The last variable of the file with that name. */
  function FindLast(vs: seq<Variable>, name: string): Option<Variable>
    decreases |vs|
  {
    if vs == [] then None
    else if vs[|vs| - 1].name == name then Some(vs[|vs| - 1])
    else FindLast(vs[..|vs| - 1], name)
  }

  /** The first entry with that name is at `i`. */
  lemma IndexOfNameAt(entries: seq<Variable>, name: string, i: int)
    requires -1 <= i < |entries|
    requires i >= 0 ==> entries[i].name == name
    requires forall j :: 0 <= j < |entries| && (i < 0 || j < i) ==> entries[j].name != name
    ensures IndexOfName(entries, name) == i
  {
  }

  lemma PutLookup(entries: seq<Variable>, v: Variable, name: string)
    ensures Lookup(Put(entries, v), name) == if name == v.name then Some(v) else Lookup(entries, name)
  {
    var e := Put(entries, v);
    var i := IndexOfName(entries, v.name);
    var k := IndexOfName(entries, name);
    if i < 0 {
      assert e == entries + [v];
      if name == v.name {
        IndexOfNameAt(e, name, |entries|);
      } else {
        IndexOfNameAt(e, name, k);
      }
    } else {
      assert e == entries[i := v];
      if name == v.name {
        IndexOfNameAt(e, name, i);
      } else {
        IndexOfNameAt(e, name, k);
      }
    }
  }

  lemma PutDistinct(entries: seq<Variable>, v: Variable)
    requires DistinctNames(entries)
    ensures DistinctNames(Put(entries, v))
  {
  }

  /** Every key of `variables` is a full name of the file, stored once. */
  lemma {:induction false} ByNameDistinct(vs: seq<Variable>)
    ensures DistinctNames(ByName(vs))
    decreases |vs|
  {
    if vs != [] {
      ByNameDistinct(vs[..|vs| - 1]);
      PutDistinct(ByName(vs[..|vs| - 1]), vs[|vs| - 1]);
    }
  }

  /** Looking a name up in `variables` gives the file's last variable of that name. */
  lemma {:induction false} ByNameLookup(vs: seq<Variable>, name: string)
    ensures Lookup(ByName(vs), name) == FindLast(vs, name)
    decreases |vs|
  {
    if vs != [] {
      ByNameLookup(vs[..|vs| - 1], name);
      PutLookup(ByName(vs[..|vs| - 1]), vs[|vs| - 1], name);
    }
  }

  /** With distinct full names, `variables` holds the file's variables in file order. */
  lemma {:induction false} ByNameOfDistinct(vs: seq<Variable>)
    requires DistinctNames(vs)
    ensures ByName(vs) == vs
    decreases |vs|
  {
    if vs != [] {
      var init := vs[..|vs| - 1];
      assert DistinctNames(init);
      ByNameOfDistinct(init);
      assert IndexOfName(init, vs[|vs| - 1].name) == -1;
      assert init + [vs[|vs| - 1]] == vs;
    }
  }

  // ---- `dimensionValues` ----

  /** `file?.findVariable(dimension.fullName)`. */
  function Namesake(file: Option<NetcdfFile>, d: Dimension): Option<Variable> {
    if file.None? then None else FindVariable(file.value, d.name)
  }

  /** What `dimensionValues` returns or throws. */
  function DimensionValuesOf(file: Option<NetcdfFile>, d: Dimension): Result<seq<Value>, Error> {
    match Namesake(file, d)
    case None => Success(seq(d.length, i => IntValue(i)))
    case Some(v) =>
      if Rank(v) != 1 then Failure(InvalidCoordinateVariable(v.name)) else Success(v.data)
  }

  /** Without a namesake variable the values are the indexes 0 .. length-1. */
  lemma IndexFallback(file: Option<NetcdfFile>, d: Dimension)
    requires file.Some? ==> forall v :: v in file.value.variables ==> v.name != d.name
    ensures DimensionValuesOf(file, d).Success?
    ensures |DimensionValuesOf(file, d).value| == d.length
    ensures forall i :: 0 <= i < d.length ==> DimensionValuesOf(file, d).value[i] == IntValue(i)
  {
  }

  /** A namesake variable must have rank 1, and then its own values are the dimension values. */
  lemma RankCheck(file: NetcdfFile, d: Dimension)
    requires FindVariable(file, d.name).Some?
    ensures DimensionValuesOf(Some(file), d).Failure? <==> Rank(FindVariable(file, d.name).value) != 1
    ensures DimensionValuesOf(Some(file), d).Failure? ==>
      DimensionValuesOf(Some(file), d).error == InvalidCoordinateVariable(d.name)
    ensures DimensionValuesOf(Some(file), d).Success? ==>
      DimensionValuesOf(Some(file), d).value == FindVariable(file, d.name).value.data
  {
  }

  /** `value.toString()` of each value. */
  function Texts(vs: seq<Value>): (ts: seq<string>)
    ensures |ts| == |vs|
    ensures forall i :: 0 <= i < |vs| ==> ts[i] == ValueText(vs[i])
  {
    seq(|vs|, i requires 0 <= i < |vs| => ValueText(vs[i]))
  }

  /** `axesValues`: the eager `map` over the dimensions; the first dimension that throws wins. */
  function AxisValues(file: Option<NetcdfFile>, dims: seq<Dimension>): Result<seq<seq<string>>, Error>
    decreases |dims|
  {
    if dims == [] then Success([])
    else match AxisValues(file, dims[..|dims| - 1])
      case Failure(e) => Failure(e)
      case Success(axes) =>
        match DimensionValuesOf(file, dims[|dims| - 1])
        case Failure(e) => Failure(e)
        case Success(vs) => Success(axes + [Texts(vs)])
  }

  /** The axes are the stringified dimension values, one per dimension; a failure comes from some dimension. */
  lemma {:induction false} AxisValuesAre(file: Option<NetcdfFile>, dims: seq<Dimension>)
    ensures AxisValues(file, dims).Success? ==>
      |AxisValues(file, dims).value| == |dims| &&
      forall i :: 0 <= i < |dims| ==>
        DimensionValuesOf(file, dims[i]).Success? &&
        AxisValues(file, dims).value[i] == Texts(DimensionValuesOf(file, dims[i]).value)
    ensures AxisValues(file, dims).Failure? ==>
      exists i :: 0 <= i < |dims| && DimensionValuesOf(file, dims[i]) == Failure(AxisValues(file, dims).error)
    decreases |dims|
  {
    if dims != [] {
      var init := dims[..|dims| - 1];
      AxisValuesAre(file, init);
      if AxisValues(file, init).Failure? {
        var i :| 0 <= i < |init| && DimensionValuesOf(file, init[i]) == Failure(AxisValues(file, init).error);
        assert dims[i] == init[i];
      }
    }
  }

  // ---- `read` ----

  /** `_variables.filterKeys { varNames.contains(it) }.values`, in the map's order. */
  function Selected(entries: seq<Variable>, varNames: seq<string>): (r: seq<Variable>)
    ensures |r| <= |entries|
    decreases |entries|
  {
    if entries == [] then []
    else (if entries[0].name in varNames then [entries[0]] else []) + Selected(entries[1..], varNames)
  }

  /** The selection holds exactly the entries whose names were asked for. */
  lemma {:induction false} SelectedMembers(entries: seq<Variable>, varNames: seq<string>)
    ensures forall v :: v in Selected(entries, varNames) <==> v in entries && v.name in varNames
    decreases |entries|
  {
    if entries != [] {
      SelectedMembers(entries[1..], varNames);
      assert forall v :: v in entries <==> v == entries[0] || v in entries[1..];
    }
  }

  /** `zip`: pairs up to the shorter length. */
  function Zip<A, B>(a: seq<A>, b: seq<B>): (r: seq<(A, B)>)
    ensures |r| == if |a| <= |b| then |a| else |b|
    ensures forall i :: 0 <= i < |r| ==> r[i] == (a[i], b[i])
  {
    var n := if |a| <= |b| then |a| else |b|;
    seq(n, i requires 0 <= i < n => (a[i], b[i]))
  }

  /** `toMap`: a later pair overrides an earlier one with the same key. */
  function ToMap<K, V>(ps: seq<(K, V)>): map<K, V>
    decreases |ps|
  {
    if ps == [] then map[] else ToMap(ps[..|ps| - 1])[ps[|ps| - 1].0 := ps[|ps| - 1].1]
  }

  /** Every value of the map comes from some pair, and every first component is a key. */
  lemma {:induction false} ToMapEntries<K, V>(ps: seq<(K, V)>)
    ensures forall k :: k in ToMap(ps) ==> exists i :: 0 <= i < |ps| && ps[i] == (k, ToMap(ps)[k])
    ensures forall i :: 0 <= i < |ps| ==> ps[i].0 in ToMap(ps)
    decreases |ps|
  {
    if ps != [] {
      var init := ps[..|ps| - 1];
      ToMapEntries(init);
      forall k | k in ToMap(ps)
        ensures exists i :: 0 <= i < |ps| && ps[i] == (k, ToMap(ps)[k])
      {
        if k != ps[|ps| - 1].0 {
          var i :| 0 <= i < |init| && init[i] == (k, ToMap(init)[k]);
          assert ps[i] == init[i];
        }
      }
      forall i | 0 <= i < |ps|
        ensures ps[i].0 in ToMap(ps)
      {
        if i < |init| {
          assert ps[i] == init[i];
        }
      }
    }
  }

  /** With distinct keys, each key maps to its own pair's value. */
  lemma {:induction false} ToMapDistinct<K, V>(ps: seq<(K, V)>, i: nat)
    requires i < |ps|
    requires forall a, b :: 0 <= a < b < |ps| ==> ps[a].0 != ps[b].0
    ensures ps[i].0 in ToMap(ps) && ToMap(ps)[ps[i].0] == ps[i].1
    decreases |ps|
  {
    if i < |ps| - 1 {
      var init := ps[..|ps| - 1];
      assert init[i] == ps[i];
      ToMapDistinct(init, i);
    }
  }

  /** `it.read(coords, shape)` for each selected variable: a one-cell read at the tuple. */
  function Reads(vars: seq<Variable>, coords: seq<nat>): (r: seq<Slice>)
    ensures |r| == |vars|
  {
    seq(|vars|, i requires 0 <= i < |vars| => Slice(vars[i], coords, Columns.Ones(|coords|)))
  }

  /** The record for one coordinate tuple and its tuple of coordinate texts. */
  function Record(dimNames: seq<string>, varNames: seq<string>, vars: seq<Variable>,
                  coords: seq<nat>, values: seq<string>): DataRecord {
    DataRecord(ToMap(Zip(dimNames, values)), ToMap(Zip(varNames, Reads(vars, coords))))
  }

  /** `expandedCoords.zip(expandedValues).map { ... }`. */
  function Records(dims: seq<Dimension>, varNames: seq<string>, vars: seq<Variable>,
                   axes: seq<seq<string>>): seq<DataRecord> {
    var pairs := Zip(CartProd(Ranges(Lengths(dims))), CartProd(axes));
    seq(|pairs|, k requires 0 <= k < |pairs| =>
      Record(Names(dims), varNames, vars, pairs[k].0, pairs[k].1))
  }

  /** What `read(varNames)` returns or throws, given the reader's file and `variables`. */
  function ReadRecords(file: Option<NetcdfFile>, entries: seq<Variable>, varNames: seq<string>)
    : Result<seq<DataRecord>, Error>
  {
    var vars := Selected(entries, varNames);
    if vars == [] then Failure(NoSuchElement)
    else match AxisValues(file, vars[0].dimensions)
      case Failure(e) => Failure(e)
      case Success(axes) => Success(Records(vars[0].dimensions, varNames, vars, axes))
  }

  /** No dimension's values fail for want of an element. */
  lemma {:induction false} AxisValuesNotEmptyFailure(file: Option<NetcdfFile>, dims: seq<Dimension>)
    ensures AxisValues(file, dims) != Failure(NoSuchElement)
  {
    AxisValuesAre(file, dims);
    if AxisValues(file, dims).Failure? {
      var i :| 0 <= i < |dims| && DimensionValuesOf(file, dims[i]) == Failure(AxisValues(file, dims).error);
    }
  }

  /** `first()` throws exactly when no key of `variables` was asked for. */
  lemma ReadNothingSelected(file: Option<NetcdfFile>, entries: seq<Variable>, varNames: seq<string>)
    ensures ReadRecords(file, entries, varNames) == Failure(NoSuchElement) <==>
      forall v :: v in entries ==> v.name !in varNames
  {
    SelectedMembers(entries, varNames);
    var vars := Selected(entries, varNames);
    if vars != [] {
      assert vars[0] in vars;
      AxisValuesNotEmptyFailure(file, vars[0].dimensions);
    }
  }

  /** Once a prefix of the dimensions fails, the whole `map` fails the same way. */
  lemma {:induction false} AxisValuesPrefixFails(file: Option<NetcdfFile>, dims: seq<Dimension>, n: nat)
    requires n <= |dims| && AxisValues(file, dims[..n]).Failure?
    ensures AxisValues(file, dims) == AxisValues(file, dims[..n])
    decreases |dims|
  {
    if n == |dims| {
      assert dims[..n] == dims;
    } else {
      var init := dims[..|dims| - 1];
      assert init[..n] == dims[..n];
      AxisValuesPrefixFails(file, init, n);
    }
  }

  lemma RangesPick(lengths: seq<nat>, t: seq<nat>)
    requires InBounds(t, lengths)
    ensures AxisLengths(Ranges(lengths)) == lengths
    ensures Pick(Ranges(lengths), t) == t
  {
  }

  /** One record per tuple of the shorter of the two products. */
  lemma RecordCount(dims: seq<Dimension>, varNames: seq<string>, vars: seq<Variable>, axes: seq<seq<string>>)
    ensures var a := Product(Lengths(dims)); var b := Product(AxisLengths(axes));
      |Records(dims, varNames, vars, axes)| == if a <= b then a else b
  {
    CartProdLength(Ranges(Lengths(dims)));
    CartProdLength(axes);
  }

  /** When every axis has as many values as its dimension is long, there is one record per cell. */
  lemma RecordCountAligned(dims: seq<Dimension>, varNames: seq<string>, vars: seq<Variable>, axes: seq<seq<string>>)
    requires AxisLengths(axes) == Lengths(dims)
    ensures |Records(dims, varNames, vars, axes)| == Product(Lengths(dims))
  {
    RecordCount(dims, varNames, vars, axes);
  }

  /** Record `k` is built from the `k`-th row-major tuple of positions and of coordinate texts. */
  lemma RecordAt(dims: seq<Dimension>, varNames: seq<string>, vars: seq<Variable>, axes: seq<seq<string>>, k: nat)
    requires k < |Records(dims, varNames, vars, axes)|
    ensures k < Product(Lengths(dims)) && k < Product(AxisLengths(axes))
    ensures InBounds(Decode(k, AxisLengths(axes)), AxisLengths(axes))
    ensures Records(dims, varNames, vars, axes)[k] ==
      Record(Names(dims), varNames, vars, Decode(k, Lengths(dims)), Pick(axes, Decode(k, AxisLengths(axes))))
  {
    RecordCount(dims, varNames, vars, axes);
    var ls := Lengths(dims);
    CartProdAt(Ranges(ls), k);
    RangesPick(ls, Decode(k, ls));
    CartProdAt(axes, k);
  }

  /** Every read of record `k` is of a selected variable, at the `k`-th row-major tuple, one cell in each dimension. */
  lemma RecordReads(dims: seq<Dimension>, varNames: seq<string>, vars: seq<Variable>, axes: seq<seq<string>>, k: nat)
    requires k < |Records(dims, varNames, vars, axes)|
    ensures k < Product(Lengths(dims))
    ensures forall name :: name in Records(dims, varNames, vars, axes)[k].data ==>
      var s := Records(dims, varNames, vars, axes)[k].data[name];
      s.variable in vars && s.origin == Decode(k, Lengths(dims)) && s.shape == Columns.Ones(|dims|)
  {
    RecordAt(dims, varNames, vars, axes, k);
    var coords := Decode(k, Lengths(dims));
    var ps := Zip(varNames, Reads(vars, coords));
    ToMapEntries(ps);
    forall name | name in ToMap(ps)
      ensures var s := ToMap(ps)[name];
        s.variable in vars && s.origin == coords && s.shape == Columns.Ones(|dims|)
    {
      var i :| 0 <= i < |ps| && ps[i] == (name, ToMap(ps)[name]);
      assert ToMap(ps)[name] == Reads(vars, coords)[i];
    }
  }

  /** With distinct dimension names, a record's index maps each name to the text at its position. */
  lemma RecordIndexOf(dimNames: seq<string>, varNames: seq<string>, vars: seq<Variable>,
                      coords: seq<nat>, values: seq<string>, i: nat)
    requires i < |dimNames| == |values|
    requires forall a, b :: 0 <= a < b < |dimNames| ==> dimNames[a] != dimNames[b]
    ensures dimNames[i] in Record(dimNames, varNames, vars, coords, values).index
    ensures Record(dimNames, varNames, vars, coords, values).index[dimNames[i]] == values[i]
  {
    ToMapDistinct(Zip(dimNames, values), i);
  }

  /**
   * With distinct dimension names and one axis per dimension, record `k`'s
   * index maps each dimension name to the coordinate text at the same
   * position of the `k`-th tuple.
   */
  lemma RecordIndex(dims: seq<Dimension>, varNames: seq<string>, vars: seq<Variable>, axes: seq<seq<string>>, k: nat, i: nat)
    requires k < |Records(dims, varNames, vars, axes)|
    requires i < |dims| == |axes|
    requires forall a, b :: 0 <= a < b < |dims| ==> dims[a].name != dims[b].name
    ensures k < Product(AxisLengths(axes))
    ensures InBounds(Decode(k, AxisLengths(axes)), AxisLengths(axes))
    ensures dims[i].name in Records(dims, varNames, vars, axes)[k].index
    ensures Records(dims, varNames, vars, axes)[k].index[dims[i].name] ==
      axes[i][Decode(k, AxisLengths(axes))[i]]
  {
    RecordAt(dims, varNames, vars, axes, k);
    var values := Pick(axes, Decode(k, AxisLengths(axes)));
    RecordIndexOf(Names(dims), varNames, vars, Decode(k, Lengths(dims)), values, i);
  }

  /**
   * The data map pairs the caller's names with the selected variables in the
   * file's order, position by position: with distinct names, the name at
   * position `j` reads the `j`-th selected variable, whatever its own name.
   */
  lemma RecordDataByPosition(dims: seq<Dimension>, varNames: seq<string>, vars: seq<Variable>, axes: seq<seq<string>>, k: nat, j: nat)
    requires k < |Records(dims, varNames, vars, axes)|
    requires j < |varNames| && j < |vars|
    requires forall a, b :: 0 <= a < b < |varNames| ==> varNames[a] != varNames[b]
    ensures k < Product(Lengths(dims))
    ensures varNames[j] in Records(dims, varNames, vars, axes)[k].data
    ensures Records(dims, varNames, vars, axes)[k].data[varNames[j]] ==
      Slice(vars[j], Decode(k, Lengths(dims)), Columns.Ones(|dims|))
  {
    RecordAt(dims, varNames, vars, axes, k);
    var coords := Decode(k, Lengths(dims));
    ToMapDistinct(Zip(varNames, Reads(vars, coords)), j);
  }

  /**
   * Asking for "tas" then "pr" from a file that stores "pr" before "tas"
   * pairs the name "tas" with the variable "pr".
   */
  lemma MisalignedSelection(pr: Variable, tas: Variable)
    requires pr.name == "pr" && tas.name == "tas"
    ensures Selected([pr, tas], ["tas", "pr"]) == [pr, tas]
    ensures Zip(["tas", "pr"], Selected([pr, tas], ["tas", "pr"]))[0] == ("tas", pr)
  {
    assert [pr, tas][1..] == [tas];
  }

  /**
   * `NetcdfReader`: at most one open file and its variables keyed by full
   * name. `disk` stands for what `NetcdfFile.open` finds at each path.
   */
  class NetcdfReader {
    const disk: map<string, seq<Variable>>
    var file: Option<NetcdfFile>
    /** `_variables`: its entries in iteration order. */
    var variables: seq<Variable>

    /** `variables` is empty while closed and is the open file's variables keyed by name otherwise. */
    predicate Valid()
      reads this
    {
      DistinctNames(variables) &&
      (file.None? ==> variables == []) &&
      (file.Some? ==> variables == ByName(file.value.variables))
    }

    /** `isClosed`. */
    predicate IsClosed()
      reads this
    {
      file.None?
    }

    /** `NetcdfReader()`: closed, with no variables. */
    constructor(disk: map<string, seq<Variable>>)
      ensures this.disk == disk
      ensures IsClosed() && variables == []
      ensures Valid()
    {
      this.disk := disk;
      file := None;
      variables := [];
    }

    /** `NetcdfReader(path)`: a new reader with `open(path)` done, or the exception that open throws. */
    static method OpenedAt(disk: map<string, seq<Variable>>, path: string) returns (r: Result<NetcdfReader, Error>)
      ensures r.Success? <==> path in disk
      ensures r.Failure? ==> r.error == FileNotFound(path)
      ensures r.Success? ==> (fresh(r.value) && r.value.disk == disk && r.value.Valid() &&
        r.value.file == Some(NetcdfFile(path, disk[path])))
    {
      var reader := new NetcdfReader(disk);
      var outcome := reader.Open(path);
      if outcome.Pass? {
        r := Success(reader);
      } else {
        r := Failure(outcome.error);
      }
    }

    /**
     * `open(path)`: keeps the open file when its location is `path`, else
     * opens `path`; then keys the file's variables by full name. When the
     * path cannot be opened nothing here changes.
     */
    method Open(path: string) returns (outcome: Outcome<Error>)
      requires Valid()
      modifies this
      ensures Valid()
      ensures old(file).Some? && old(file).value.location == path ==> outcome.Pass? && file == old(file)
      ensures (old(file).None? || old(file).value.location != path) ==>
        if path in disk then outcome.Pass? && file == Some(NetcdfFile(path, disk[path]))
        else outcome == Fail(FileNotFound(path)) && file == old(file) && variables == old(variables)
      ensures outcome.Pass? ==> (!IsClosed() && file.value.location == path &&
        variables == ByName(file.value.variables))
    {
      if file.None? || path != file.value.location {
        if path !in disk {
          return Fail(FileNotFound(path));
        }
        file := Some(NetcdfFile(path, disk[path]));
      }
      variables := ByName(file.value.variables);
      ByNameDistinct(file.value.variables);
      outcome := Pass;
    }

    /** `close()`: closed with no variables, whatever the state before, so closing twice is closing once. */
    method Close()
      modifies this
      ensures IsClosed() && variables == []
      ensures Valid()
    {
      file := None;
      variables := [];
    }

    /** `dimensionValues(dimension)`: the loop copies the namesake's values in iteration order. */
    method DimensionValues(d: Dimension) returns (r: Result<seq<Value>, Error>)
      ensures r == DimensionValuesOf(file, d)
    {
      var found := if file.None? then None else FindVariable(file.value, d.name);
      if found.None? {
        return Success(seq(d.length, i => IntValue(i)));
      } else if Rank(found.value) != 1 {
        return Failure(InvalidCoordinateVariable(found.value.name));
      }
      var data := found.value.data;
      var values: seq<Value> := [];
      var i := 0;
      while i < |data|
        invariant 0 <= i <= |data|
        invariant values == data[..i]
      {
        values := values + [data[i]];
        i := i + 1;
      }
      assert data[..|data|] == data;
      return Success(values);
    }

    /** `read(varNames)`. */
    method Read(varNames: seq<string>) returns (r: Result<seq<DataRecord>, Error>)
      ensures r == ReadRecords(file, variables, varNames)
    {
      var vars := Selected(variables, varNames);
      if vars == [] {
        return Failure(NoSuchElement);
      }
      var dims := vars[0].dimensions;
      var axes: seq<seq<string>> := [];
      for i := 0 to |dims|
        invariant AxisValues(file, dims[..i]) == Success(axes)
      {
        assert dims[..i + 1][..i] == dims[..i];
        var values := DimensionValues(dims[i]);
        if values.Failure? {
          AxisValuesPrefixFails(file, dims, i + 1);
          return Failure(values.error);
        }
        axes := axes + [Texts(values.value)];
      }
      assert dims[..|dims|] == dims;
      r := Success(Records(dims, varNames, vars, axes));
    }
  }
}
