/**
 The laws of comparison and of the three truth values, for every value and every
 way of reading text.
 */
module TruthLaws {
  import opened Wrappers
  import opened Bytes
  import opened SqlValues
  import opened Conditions

  // ---------------------------------------------------------------- comparing

  // Numbers and booleans on one scale, dates and times on another.
  function Scale(v: Value): Option<(bool, int)> {
    match v
    case Int(n) => Some((true, n))
    case Bool(b) => Some((true, if b then 1 else 0))
    case Days(n) => Some((false, n * 86400))
    case Stamp(n) => Some((false, n))
    case _ => None
  }

  /**
   Comparing is antisymmetric, never an answer with NULL, and by place on a
   common scale: numbers with booleans as 0 and 1, dates with date-times in
   seconds; text by its bytes and time by time.
   */
  lemma OrderLaws(t: Reader, a: Value, b: Value)
    ensures SqlOrder(t, b, a) == Flipped(SqlOrder(t, a, b))
    ensures SqlOrder(t, a, b).Some? ==> SqlOrder(t, a, b).value in {-1, 0, 1}
    ensures a.Null? || b.Null? ==> SqlOrder(t, a, b).None?
    ensures Scale(a).Some? && Scale(b).Some? ==>
              var (ka, xa) := Scale(a).value; var (kb, xb) := Scale(b).value;
              && (SqlOrder(t, a, b).Some? <==> ka == kb)
              && (ka == kb ==> (SqlOrder(t, a, b).value < 0 <==> xa < xb) && (SqlOrder(t, a, b).value == 0 <==> xa == xb))
    ensures a.Clock? && !b.Str? ==> SqlOrder(t, a, b) == if b.Clock? then Some(Sign(a.n, b.n)) else None
    ensures a.Str? && b.Str? ==>
              SqlOrder(t, a, b) == Some(if Less(a.s, b.s) then -1 else if a == b then 0 else 1)
  {
    if a.Str? && b.Str? {
      LessIsTotal(a.s, b.s);
      if Less(a.s, b.s) { LessIsStrict(a.s, b.s); }
      if Less(b.s, a.s) { LessIsStrict(b.s, a.s); }
    }
  }

  // What a text has to be read as when it meets the value.
  function Reading(t: Reader, v: Value, text: Bytes): Option<Value>
    requires !v.Null? && !v.Str?
  {
    var r := match v
      case Int(_) => t.integer(text)
      case Bool(_) => t.integer(text)
      case Days(_) => t.date(text)
      case Clock(_) => t.time(text)
      case Stamp(_) => t.dateTime(text);
    if r.None? || !(-INT64_LIMIT <= r.value < INT64_LIMIT) then None
    else Some(match v
              case Int(_) => Int(r.value)
              case Bool(_) => Int(r.value)
              case Days(_) => Days(r.value)
              case Clock(_) => Clock(r.value)
              case Stamp(_) => Stamp(r.value))
  }

  /** A text that reads as a value of the other side's kind compares as that value does. */
  lemma TextReadsAs(t: Reader, v: Value, text: Bytes)
    requires !v.Null? && !v.Str? && Reading(t, v, text).Some?
    ensures SqlOrder(t, v, Str(text)) == SqlOrder(t, v, Reading(t, v, text).value)
  {
  }

  /** The six comparisons follow from the one order; without an order all of them are unknown. */
  lemma ComparisonLaws(t: Reader, a: Value, b: Value)
    ensures SqlOrder(t, a, b).None? ==>
              forall op :: op in {EQ, NE, LT, LE, GT, GE} ==> CompareValues(t, op, a, b).Maybe?
    ensures SqlOrder(t, a, b).Some? ==>
              && CompareValues(t, EQ, a, b) == OfBool(SqlOrder(t, a, b) == Some(0))
              && CompareValues(t, LT, a, b) == OfBool(SqlOrder(t, a, b) == Some(-1))
              && CompareValues(t, GT, a, b) == OfBool(SqlOrder(t, a, b) == Some(1))
    ensures CompareValues(t, NE, a, b) == Negate(CompareValues(t, EQ, a, b))
    ensures CompareValues(t, GE, a, b) == Negate(CompareValues(t, LT, a, b))
    ensures CompareValues(t, LE, a, b) == Negate(CompareValues(t, GT, a, b))
    ensures CompareValues(t, LE, a, b) == Either(CompareValues(t, LT, a, b), CompareValues(t, EQ, a, b))
    ensures CompareValues(t, GT, a, b) == CompareValues(t, LT, b, a)
    ensures CompareValues(t, IS_NULL, a, b) == OfBool(a == Null) == Negate(CompareValues(t, IS_NOT_NULL, a, b))
    ensures CompareValues(t, NOT_LIKE, a, b) == Negate(CompareValues(t, LIKE, a, b))
    ensures CompareValues(t, LIKE, a, b).Maybe? <==> !(a.Str? && b.Str?)
    ensures a.Str? && b.Str? ==> (CompareValues(t, LIKE, a, b).True? <==> t.like(a.s, b.s))
  {
    OrderLaws(t, a, b);
    hide SqlOrder;
  }

  // -------------------------------------------------------------- truth values

  function Rank(a: Truth): nat {
    match a case False => 0 case Maybe => 1 case True => 2
  }

  /** FALSE below UNKNOWN below TRUE: AND is the smaller, OR the larger, NOT turns the order around. */
  lemma TruthIsOrdered(a: Truth, b: Truth)
    ensures Rank(Both(a, b)) == if Rank(a) < Rank(b) then Rank(a) else Rank(b)
    ensures Rank(Either(a, b)) == if Rank(a) < Rank(b) then Rank(b) else Rank(a)
    ensures Rank(Negate(a)) == 2 - Rank(a)
    ensures Negate(Both(a, b)) == Either(Negate(a), Negate(b))
  {
  }

  /** IN is TRUE when some member equals, FALSE when every member differs, and UNKNOWN otherwise. */
  lemma {:induction false} InExact(t: Reader, x: Value, vs: seq<Value>)
    ensures EqualsAny(t, x, vs).True? <==> exists i :: 0 <= i < |vs| && CompareValues(t, EQ, x, vs[i]).True?
    ensures EqualsAny(t, x, vs).False? <==> forall i :: 0 <= i < |vs| ==> CompareValues(t, EQ, x, vs[i]).False?
  {
    hide CompareValues;
    if vs != [] {
      var n := |vs| - 1;
      var init := vs[..n];
      InExact(t, x, init);
      assert forall i :: 0 <= i < n ==> init[i] == vs[i];
      if i :| 0 <= i < |vs| && CompareValues(t, EQ, x, vs[i]).True? {
        if i < n { assert CompareValues(t, EQ, x, init[i]).True?; }
      }
    }
  }

  /** A column the row lacks makes its comparison unknown; NOT IN is NOT of IN. */
  lemma LeafTruth(t: Reader, row: Row, column: Column, op: CompareOp, v: Value, vs: seq<Value>)
    ensures column.name !in row ==>
              Eval(t, row, Compare(column, op, v)).Maybe? && Eval(t, row, In(column, false, vs)).Maybe?
    ensures column.name in row ==>
              && Eval(t, row, Compare(column, op, v)) == CompareValues(t, op, row[column.name], v)
              && (Eval(t, row, In(column, false, vs)).True? <==>
                    exists i :: 0 <= i < |vs| && CompareValues(t, EQ, row[column.name], vs[i]).True?)
    ensures Eval(t, row, In(column, true, vs)) == Negate(Eval(t, row, In(column, false, vs)))
  {
    hide CompareValues;
    if column.name in row { InExact(t, row[column.name], vs); }
  }
}
