/**
 SQL values and the comparison that WHERE clauses use.

 Integer widths (TINYINT to BIGINT) and string kinds (CHAR, VARCHAR, TEXT) are
 schema information only: a value of either family carries no width, compares
 and encodes alike, so one constructor stands for the whole family.
 */
module SqlValues {
  import opened Wrappers
  import opened Bytes

  const INT64_LIMIT := 0x8000_0000_0000_0000

  type Int64 = x: int | -0x8000_0000_0000_0000 <= x < 0x8000_0000_0000_0000

  datatype DataType = Integer | Text | Boolean | Date | Time | DateTime | Unknown

  // DATE counts days, TIME and DATETIME count seconds.
  datatype Value =
    | Null
    | Int(n: Int64)
    | Str(s: Bytes)
    | Bool(b: bool)
    | Days(n: Int64)
    | Clock(n: Int64)
    | Stamp(n: Int64)

  function TypeOf(v: Value): DataType {
    match v
    case Null => Unknown
    case Int(_) => Integer
    case Str(_) => Text
    case Bool(_) => Boolean
    case Days(_) => Date
    case Clock(_) => Time
    case Stamp(_) => DateTime
  }

  // A value that a column of type `ty` may hold, NULL included.
  predicate Fits(v: Value, ty: DataType) {
    v.Null? || TypeOf(v) == ty
  }

  predicate IsTemporal(ty: DataType) {
    ty.Date? || ty.Time? || ty.DateTime?
  }

  // How text literals are read when they meet a number or a date, and how LIKE
  // patterns match; everything below holds for any such reader.
  datatype Reader = Reader(
    integer: Bytes -> Option<int>,
    date: Bytes -> Option<int>,
    time: Bytes -> Option<int>,
    dateTime: Bytes -> Option<int>,
    like: (Bytes, Bytes) -> bool)

  function CommonType(a: DataType, b: DataType): DataType {
    if a == b then a
    else if (a.Integer? && b.Boolean?) || (a.Boolean? && b.Integer?) then Integer
    else if (a.Date? && b.DateTime?) || (a.DateTime? && b.Date?) then DateTime
    else Unknown
  }

  function Number(v: Value): Option<int> {
    match v
    case Bool(b) => Some(if b then 1 else 0)
    case Int(n) => Some(n)
    case _ => None
  }

  function Seconds(v: Value): Option<int> {
    match v
    case Days(n) => Some(n * 86400)
    case Clock(n) => Some(n)
    case Stamp(n) => Some(n)
    case _ => None
  }

  function Sign(x: int, y: int): int {
    if x == y then 0 else if x < y then -1 else 1
  }

  function SignOf(x: Option<int>, y: Option<int>): Option<int> {
    if x.Some? && y.Some? then Some(Sign(x.value, y.value)) else None
  }

  // A number or a date against a text literal.
  function OrderAgainstText(t: Reader, other: Value, text: Bytes): Option<int> {
    match other
    case Int(_) => SignOf(Number(other), t.integer(text))
    case Bool(_) => SignOf(Number(other), t.integer(text))
    case Days(n) =>
      var parsed := t.date(text);
      if parsed.Some? then Some(Sign(n * 86400, parsed.value * 86400)) else None
    case Clock(_) => SignOf(Seconds(other), t.time(text))
    case Stamp(_) => SignOf(Seconds(other), t.dateTime(text))
    case _ => None
  }

  function Flipped(o: Option<int>): Option<int> {
    if o.Some? then Some(-o.value) else None
  }

  /** -1, 0 or 1, or nothing when the comparison is UNKNOWN. */
  function SqlOrder(t: Reader, a: Value, b: Value): Option<int> {
    if a.Null? || b.Null? then None
    else
      match CommonType(TypeOf(a), TypeOf(b))
      case Integer => SignOf(Number(a), Number(b))
      case Boolean => SignOf(Number(a), Number(b))
      case Text =>
        if a.Str? && b.Str? then
          Some(if a.s == b.s then 0 else if Less(a.s, b.s) then -1 else 1)
        else None
      case Unknown =>
        if a.Str? && !b.Str? then Flipped(OrderAgainstText(t, b, a.s))
        else if !a.Str? && b.Str? then OrderAgainstText(t, a, b.s)
        else None
      case _ => SignOf(Seconds(a), Seconds(b))
  }

}
