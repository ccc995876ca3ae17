/**
 * The part of the netCDF library (ucar.nc2) that the table views drive:
 * dimensions, variables, files, slice reads and the time conventions.
 * Everything here is data handed to the core; none of it is computed by it.
 */
module Netcdf {
  import opened Wrappers
  import Strings

  /** A named axis of fixed length. Two dimensions are equal when name and length agree. */
  datatype Dimension = Dimension(name: string, length: nat)

  /** The element types of `ucar.ma2.DataType`. */
  datatype DataType =
    | Boolean | Byte | UByte | Char | Short | UShort | Int | UInt | Long | ULong
    | Float | Double | String | Structure | Sequence | Enum1 | Enum2 | Enum4 | Opaque | Object

  /** `DataType.name`: the enum constant's upper-case name. */
  function TypeName(t: DataType): string {
    match t
    case Boolean => "BOOLEAN"
    case Byte => "BYTE"
    case UByte => "UBYTE"
    case Char => "CHAR"
    case Short => "SHORT"
    case UShort => "USHORT"
    case Int => "INT"
    case UInt => "UINT"
    case Long => "LONG"
    case ULong => "ULONG"
    case Float => "FLOAT"
    case Double => "DOUBLE"
    case String => "STRING"
    case Structure => "STRUCTURE"
    case Sequence => "SEQUENCE"
    case Enum1 => "ENUM1"
    case Enum2 => "ENUM2"
    case Enum4 => "ENUM4"
    case Opaque => "OPAQUE"
    case Object => "OBJECT"
  }

  /** `DataType.isIntegral`. */
  predicate IsIntegral(t: DataType) {
    t in {Byte, UByte, Short, UShort, Int, UInt, Long, ULong}
  }

  /** `DataType.isNumeric`: integral or floating point. */
  predicate IsNumeric(t: DataType) {
    IsIntegral(t) || t == Float || t == Double
  }

  /**
   * A value read from a file. Integers the core makes itself are `IntValue`;
   * every value the library returns is represented by its `toString()` text.
   */
  datatype Value = IntValue(i: int) | LibraryValue(text: string)

  /** `toString()` of a value. */
  function ValueText(v: Value): string {
    match v
    case IntValue(i) => if i < 0 then "-" + Strings.NatToString(-i) else Strings.NatToString(i)
    case LibraryValue(text) => text
  }

  /**
   * A variable as the library reports it: its full (escaped) name, its
   * ordered dimensions, its element type, its `units` and `calendar`
   * attributes, whether the library calls it a coordinate variable, and its
   * values in the library's iteration order.
   */
  datatype Variable = Variable(
    name: string,
    dimensions: seq<Dimension>,
    dataType: DataType,
    units: Option<string>,
    calendar: Option<string>,
    isCoordinate: bool,
    data: seq<Value>)

  /** `Variable.rank`. */
  function Rank(v: Variable): nat {
    |v.dimensions|
  }

  /** `Variable.shape`: the length of each dimension, in order. */
  function Shape(v: Variable): (s: seq<nat>)
    ensures |s| == Rank(v)
    ensures forall i :: 0 <= i < |s| ==> s[i] == v.dimensions[i].length
  {
    Lengths(v.dimensions)
  }

  function Lengths(dims: seq<Dimension>): (s: seq<nat>)
    ensures |s| == |dims|
    ensures forall i :: 0 <= i < |s| ==> s[i] == dims[i].length
  {
    seq(|dims|, i requires 0 <= i < |dims| => dims[i].length)
  }

  function Names(dims: seq<Dimension>): (s: seq<string>)
    ensures |s| == |dims|
    ensures forall i :: 0 <= i < |s| ==> s[i] == dims[i].name
  {
    seq(|dims|, i requires 0 <= i < |dims| => dims[i].name)
  }

  /** An open netCDF file: where it was opened from and its variables, in file order. */
  datatype NetcdfFile = NetcdfFile(location: string, variables: seq<Variable>)

  /** `NetcdfFile.findVariable(name)`: the variable with that full name, or null. */
  function FindVariable(file: NetcdfFile, name: string): (r: Option<Variable>)
    ensures r.Some? ==> r.value in file.variables && r.value.name == name
    ensures r.None? <==> forall v :: v in file.variables ==> v.name != name
  {
    FindIn(file.variables, name)
  }

  function FindIn(vs: seq<Variable>, name: string): (r: Option<Variable>)
    ensures r.Some? ==> r.value in vs && r.value.name == name
    ensures r.None? <==> forall v :: v in vs ==> v.name != name
  {
    if vs == [] then None
    else if vs[0].name == name then Some(vs[0])
    else FindIn(vs[1..], name)
  }

  /** A request to the library: read the section of `variable` at `origin` with extents `shape`. */
  datatype Slice = Slice(variable: Variable, origin: seq<int>, shape: seq<nat>)

  /** `CalendarDateUnit`: a calendar name paired with a "<unit> since <timestamp>" units string. */
  datatype DateUnit = DateUnit(calendar: string, units: string)

  /**
   * The library's time conventions, which the core consults but does not define:
   * whether a lower-cased units string matches `CalendarDateUnit.udunitPatternString`,
   * `Calendar.get(name)` (the calendar a name denotes, or null), and
   * the name of `Calendar.getDefault()`.
   */
  datatype Library = Library(
    matchesUdunit: string -> bool,
    calendarNamed: string -> Option<string>,
    defaultCalendar: string)
}
