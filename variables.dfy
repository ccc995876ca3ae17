/**
 * Variable.kt: the properties the table views derive from a library variable.
 * Each is a computed getter, so each is a function here.
 */
module Variables {
  import opened Wrappers
  import opened Strings
  import opened Netcdf

  /**
   * `isArrayString`: a "classic" fixed-length string, stored as a rank-2 CHAR
   * array. The source compares the lower-cased type name with "char";
   * `ArrayStringByTypeName` shows that this is the CHAR type.
   */
  predicate IsArrayString(v: Variable) {
    v.dataType == Char && Rank(v) == 2
  }

  /** The source's test, on the type name and the shape, is exactly `IsArrayString`. */
  lemma ArrayStringByTypeName(v: Variable)
    ensures IsArrayString(v) <==> Lower(TypeName(v.dataType)) == "char" && |Shape(v)| == 2
  {
    LowerTypeNameIsChar(v.dataType);
  }

  /** Only CHAR has the lower-cased type name "char". */
  lemma LowerTypeNameIsChar(t: DataType)
    ensures Lower(TypeName(t)) == "char" <==> t == Char
  {
    var n := TypeName(t);
    LowerPointwise(n);
    if t == Char {
      assert Lower(n) == [LowerChar('C'), LowerChar('H'), LowerChar('A'), LowerChar('R')];
    } else if |n| == 4 {
      // Every other four-letter name differs from CHAR in its first letter.
      assert n[0] != 'C';
    }
  }

  /**
   * `publicDimensions`: the dimensions without the private string-length
   * dimension, which is the last one exactly for array strings.
   */
  function PublicDimensions(v: Variable): (ds: seq<Dimension>)
    ensures ds <= v.dimensions
    ensures |ds| == if IsArrayString(v) then |v.dimensions| - 1 else |v.dimensions|
  {
    if IsArrayString(v) then v.dimensions[..|v.dimensions| - 1] else v.dimensions
  }

  /** `nameEscaped`: the base name, without its group prefixes. */
  function NameEscaped(v: Variable): string {
    LastSegment(v.name, '/')
  }

  /** The base name is the part of the full name after its last '/', and holds no '/' itself. */
  lemma NameEscapedIsLastSegment(v: Variable)
    ensures var n := NameEscaped(v);
      && '/' !in n
      && |n| <= |v.name| && n == v.name[|v.name| - |n|..]
      && (|n| < |v.name| ==> v.name[|v.name| - |n| - 1] == '/')
      && ('/' !in v.name ==> n == v.name)
  {
    LastSegmentIsSuffix(v.name, '/');
  }

  /**
   * `isTime`: the base name starts with "time", the type is numeric, and a
   * units attribute exists whose lower-cased text matches the udunit pattern.
   */
  predicate IsTime(v: Variable, lib: Library)
    ensures IsTime(v, lib) ==> v.units.Some? && IsNumeric(v.dataType)
  {
    var isTimeUnits := match v.units
      case None => None
      case Some(u) => Some(lib.matchesUdunit(Lower(u)));
    StartsWith(NameEscaped(v), "time") && IsNumeric(v.dataType) && isTimeUnits == Some(true)
  }

  /**
   * `calendar`: none unless the variable is a time variable; otherwise the
   * calendar its `calendar` attribute names, falling back to the default.
   */
  function Calendar(v: Variable, lib: Library): (c: Option<string>)
    ensures c.None? <==> !IsTime(v, lib)
    ensures c.Some? && v.calendar.Some? && lib.calendarNamed(v.calendar.value).Some? ==>
      c.value == lib.calendarNamed(v.calendar.value).value
    ensures c.Some? && (v.calendar.None? || lib.calendarNamed(v.calendar.value).None?) ==>
      c.value == lib.defaultCalendar
  {
    if !IsTime(v, lib) then None
    else
      var named := match v.calendar
        case None => None
        case Some(name) => lib.calendarNamed(name);
      Some(named.GetOr(lib.defaultCalendar))
  }

  /** `dateUnits`: the calendar paired with the units string, when there is a calendar. */
  function DateUnits(v: Variable, lib: Library): (u: Option<DateUnit>)
    ensures u.Some? <==> Calendar(v, lib).Some?
    ensures u.Some? ==> v.units.Some? && u.value == DateUnit(Calendar(v, lib).value, v.units.value)
  {
    match Calendar(v, lib)
    case None => None
    case Some(c) => Some(DateUnit(c, v.units.value))
  }

  /** The type description before any time wrapping. */
  function BaseTypeString(v: Variable): string {
    if IsArrayString(v) then "char[" + NatToString(Shape(v)[|Shape(v)| - 1]) + "]"
    else Lower(TypeName(v.dataType))
  }

  /** `typeString`: `char[n]` or the lower-cased type name, wrapped as `time<...>` for time variables. */
  function TypeString(v: Variable, lib: Library): (s: string)
    ensures StartsWith(s, "time<") <==> IsTime(v, lib)
  {
    var base := BaseTypeString(v);
    if IsTime(v, lib) then
      TimeWrappedStartsWith(base);
      TimeWrapped(base)
    else
      BaseTypeNotTimeWrapped(v);
      base
  }

  function TimeWrapped(base: string): string {
    "time<" + base + ">"
  }

  lemma TimeWrappedStartsWith(base: string)
    ensures StartsWith(TimeWrapped(base), "time<")
  {
    assert TimeWrapped(base)[..5] == "time<";
  }

  /** No base type description starts with "time<": each starts with "char[" or a lower-cased enum name. */
  lemma BaseTypeNotTimeWrapped(v: Variable)
    ensures !StartsWith(BaseTypeString(v), "time<")
  {
    var b := BaseTypeString(v);
    if IsArrayString(v) {
      assert b[0] == 'c';
    } else {
      LowerPointwise(TypeName(v.dataType));
      assert b[0] == LowerChar(TypeName(v.dataType)[0]);
    }
  }
}
