/**
 Condition trees and their three-valued meaning. FALSE < UNKNOWN < TRUE is a
 lattice in which AND is the minimum and OR the maximum, so a list of operands
 is compared with another by showing that each operand of one is bounded by
 some operand of the other.
 */
module Conditions {
  import opened Wrappers
  import opened SqlValues

  datatype Truth = False | Maybe | True

  // Columns compare by their lower-cased name; the printed form may differ.
  datatype Column = Column(name: string, shown: string)

  datatype CompareOp = EQ | NE | GT | GE | LT | LE | LIKE | NOT_LIKE | IS_NULL | IS_NOT_NULL | UNKNOWN_OP

  datatype Kind = KCompare | KIn | KAnd | KOr | KNot

  datatype Cond =
    | Compare(column: Column, op: CompareOp, value: Value)
    | In(column: Column, negated: bool, values: seq<Value>)
    | And(left: Cond, right: Cond)
    | Or(left: Cond, right: Cond)
    | Not(child: Cond)

  type Row = map<string, Value>

  function KindOf(c: Cond): Kind {
    match c
    case Compare(_, _, _) => KCompare
    case In(_, _, _) => KIn
    case And(_, _) => KAnd
    case Or(_, _) => KOr
    case Not(_) => KNot
  }

  function Size(c: Cond): nat {
    match c
    case And(l, r) => 1 + Size(l) + Size(r)
    case Or(l, r) => 1 + Size(l) + Size(r)
    case Not(x) => 1 + Size(x)
    case _ => 0
  }

  function OfBool(b: bool): Truth {
    if b then True else False
  }

  function Negate(a: Truth): Truth {
    match a
    case True => False
    case False => True
    case Maybe => Maybe
  }

  function Both(a: Truth, b: Truth): Truth {
    if a.False? || b.False? then False
    else if a.Maybe? || b.Maybe? then Maybe
    else True
  }

  function Either(a: Truth, b: Truth): Truth {
    if a.True? || b.True? then True
    else if a.Maybe? || b.Maybe? then Maybe
    else False
  }

  predicate Below(a: Truth, b: Truth) {
    a.False? || b.True? || a == b
  }

  function OrderHolds(op: CompareOp, order: int): Truth {
    match op
    case EQ => OfBool(order == 0)
    case NE => OfBool(order != 0)
    case GT => OfBool(order > 0)
    case GE => OfBool(order >= 0)
    case LT => OfBool(order < 0)
    case LE => OfBool(order <= 0)
    case _ => Maybe
  }

  function CompareValues(t: Reader, op: CompareOp, a: Value, b: Value): Truth {
    match op
    case IS_NULL => OfBool(a.Null?)
    case IS_NOT_NULL => OfBool(!a.Null?)
    case LIKE => if a.Str? && b.Str? then OfBool(t.like(a.s, b.s)) else Maybe
    case NOT_LIKE => if a.Str? && b.Str? then OfBool(!t.like(a.s, b.s)) else Maybe
    case _ =>
      var order := SqlOrder(t, a, b);
      if order.None? then Maybe else OrderHolds(op, order.value)
  }

  function EqualsAny(t: Reader, x: Value, vs: seq<Value>): Truth {
    if vs == [] then False
    else Either(EqualsAny(t, x, vs[..|vs| - 1]), CompareValues(t, EQ, x, vs[|vs| - 1]))
  }

  /** The WHERE evaluator; a column the row does not have is UNKNOWN. */
  function Eval(t: Reader, row: Row, c: Cond): Truth {
    match c
    case Compare(column, op, v) =>
      if column.name in row then CompareValues(t, op, row[column.name], v) else Maybe
    case In(column, negated, vs) =>
      if column.name !in row then Maybe
      else if negated then Negate(EqualsAny(t, row[column.name], vs))
      else EqualsAny(t, row[column.name], vs)
    case And(l, r) => Both(Eval(t, row, l), Eval(t, row, r))
    case Or(l, r) => Either(Eval(t, row, l), Eval(t, row, r))
    case Not(x) => Negate(Eval(t, row, x))
  }

  ghost predicate SameMeaning(a: Cond, b: Cond) {
    forall t: Reader, row: Row :: Eval(t, row, a) == Eval(t, row, b)
  }

  // A missing tree is "no condition" and keeps every row.
  function Keeps(t: Reader, row: Row, c: Option<Cond>): bool {
    c.None? || Eval(t, row, c.value).True?
  }

  // ---------------------------------------------------------- operand lists

  function AllOf(t: Reader, row: Row, cs: seq<Cond>): Truth {
    if cs == [] then True else Both(Eval(t, row, cs[0]), AllOf(t, row, cs[1..]))
  }

  function AnyOf(t: Reader, row: Row, cs: seq<Cond>): Truth {
    if cs == [] then False else Either(Eval(t, row, cs[0]), AnyOf(t, row, cs[1..]))
  }

  lemma {:induction false} AnyOfBound(t: Reader, row: Row, cs: seq<Cond>, i: nat)
    requires i < |cs|
    ensures Below(Eval(t, row, cs[i]), AnyOf(t, row, cs))
  {
    if i > 0 {
      AnyOfBound(t, row, cs[1..], i - 1);
    }
  }

  lemma {:induction false} AnyOfReached(t: Reader, row: Row, cs: seq<Cond>) returns (i: nat)
    requires cs != []
    ensures i < |cs| && AnyOf(t, row, cs) == Eval(t, row, cs[i])
  {
    i := 0;
    if |cs| > 1 && AnyOf(t, row, cs) != Eval(t, row, cs[0]) {
      var j := AnyOfReached(t, row, cs[1..]);
      i := j + 1;
    }
  }

  lemma {:induction false} AllOfBound(t: Reader, row: Row, cs: seq<Cond>, i: nat)
    requires i < |cs|
    ensures Below(AllOf(t, row, cs), Eval(t, row, cs[i]))
  {
    if i > 0 {
      AllOfBound(t, row, cs[1..], i - 1);
    }
  }

  lemma {:induction false} AllOfReached(t: Reader, row: Row, cs: seq<Cond>) returns (i: nat)
    requires cs != []
    ensures i < |cs| && AllOf(t, row, cs) == Eval(t, row, cs[i])
  {
    i := 0;
    if |cs| > 1 && AllOf(t, row, cs) != Eval(t, row, cs[0]) {
      var j := AllOfReached(t, row, cs[1..]);
      i := j + 1;
    }
  }

  ghost predicate Dominated(t: Reader, row: Row, x: Cond, bs: seq<Cond>) {
    exists j :: 0 <= j < |bs| && Below(Eval(t, row, x), Eval(t, row, bs[j]))
  }

  ghost predicate Dominates(t: Reader, row: Row, x: Cond, bs: seq<Cond>) {
    exists j :: 0 <= j < |bs| && Below(Eval(t, row, bs[j]), Eval(t, row, x))
  }

  lemma AnyOfDominated(t: Reader, row: Row, cs: seq<Cond>, bs: seq<Cond>)
    requires forall i :: 0 <= i < |cs| ==> Dominated(t, row, cs[i], bs)
    ensures Below(AnyOf(t, row, cs), AnyOf(t, row, bs))
  {
    if cs != [] {
      var i := AnyOfReached(t, row, cs);
      assert Dominated(t, row, cs[i], bs);
      var j :| 0 <= j < |bs| && Below(Eval(t, row, cs[i]), Eval(t, row, bs[j]));
      AnyOfBound(t, row, bs, j);
    }
  }

  lemma AllOfDominates(t: Reader, row: Row, cs: seq<Cond>, bs: seq<Cond>)
    requires forall i :: 0 <= i < |cs| ==> Dominates(t, row, cs[i], bs)
    ensures Below(AllOf(t, row, bs), AllOf(t, row, cs))
  {
    if cs != [] {
      var i := AllOfReached(t, row, cs);
      assert Dominates(t, row, cs[i], bs);
      var j :| 0 <= j < |bs| && Below(Eval(t, row, bs[j]), Eval(t, row, cs[i]));
      AllOfBound(t, row, bs, j);
    }
  }

  lemma {:induction false} AnyOfConcat(t: Reader, row: Row, cs: seq<Cond>, bs: seq<Cond>)
    ensures AnyOf(t, row, cs + bs) == Either(AnyOf(t, row, cs), AnyOf(t, row, bs))
  {
    if cs == [] {
      assert cs + bs == bs;
    } else {
      AnyOfConcat(t, row, cs[1..], bs);
      assert (cs + bs)[1..] == cs[1..] + bs;
    }
  }

  lemma {:induction false} AllOfConcat(t: Reader, row: Row, cs: seq<Cond>, bs: seq<Cond>)
    ensures AllOf(t, row, cs + bs) == Both(AllOf(t, row, cs), AllOf(t, row, bs))
  {
    if cs == [] {
      assert cs + bs == bs;
    } else {
      AllOfConcat(t, row, cs[1..], bs);
      assert (cs + bs)[1..] == cs[1..] + bs;
    }
  }

  // ----------------------------------------------------------------- leaves

  // What a leaf mentions: its column, and its column with each of its literals.
  type LeafTest = (string, Option<Value>) -> bool

  ghost predicate AllLeaves(c: Cond, ok: LeafTest) {
    match c
    case Compare(column, _, v) => ok(column.name, None) && ok(column.name, Some(v))
    case In(column, _, vs) =>
      ok(column.name, None) && forall i :: 0 <= i < |vs| ==> ok(column.name, Some(vs[i]))
    case And(l, r) => AllLeaves(l, ok) && AllLeaves(r, ok)
    case Or(l, r) => AllLeaves(l, ok) && AllLeaves(r, ok)
    case Not(x) => AllLeaves(x, ok)
  }

}
