/**
 The optimizer: WHERE is split into conditions on the primary key, which become
 key ranges, and a residual filter. Cost figures are a free boolean choice.
 */
module Optimizer {
  import opened Wrappers
  import opened Bytes
  import opened SqlValues
  import opened KeyCodec
  import opened Conditions
  import R = Rewriter
  import opened KeyRanges

  // ------------------------------------------------------------- range lists

  // No lower bound sorts first, no upper bound last.
  predicate RangeLess(a: KeyRange, b: KeyRange) {
    if LowKey(a).Some? != LowKey(b).Some? then LowKey(a).None?
    else if LowKey(a).Some? && LowKey(a) != LowKey(b) then Less(LowKey(a).value, LowKey(b).value)
    else if HighKey(a).Some? != HighKey(b).Some? then HighKey(a).Some?
    else HighKey(a).Some? && Less(HighKey(a).value, HighKey(b).value)
  }

  function NonEmptyOnly(rs: seq<KeyRange>): seq<KeyRange> {
    if rs == [] then []
    else (if IsEmpty(rs[0]) then [] else [rs[0]]) + NonEmptyOnly(rs[1..])
  }

  // Behind everything that does not sort after it.
  function InsertSorted(sorted: seq<KeyRange>, r: KeyRange): seq<KeyRange> {
    if sorted == [] then [r]
    else if RangeLess(r, sorted[|sorted| - 1]) then
      InsertSorted(sorted[..|sorted| - 1], r) + [sorted[|sorted| - 1]]
    else sorted + [r]
  }

  function SortOnto(sorted: seq<KeyRange>, rs: seq<KeyRange>): seq<KeyRange>
    decreases |rs|
  {
    if rs == [] then sorted else SortOnto(InsertSorted(sorted, rs[0]), rs[1..])
  }

  function MergeNext(merged: seq<KeyRange>, r: KeyRange): seq<KeyRange> {
    if merged == [] then [r]
    else
      var last := merged[|merged| - 1];
      var united := Unite(last, r);
      if (Overlaps(last, r) || IsAdjacent(last, r)) && |united| == 1 then
        merged[..|merged| - 1] + [united[0]]
      else merged + [r]
  }

  function MergeOnto(merged: seq<KeyRange>, rs: seq<KeyRange>): seq<KeyRange>
    decreases |rs|
  {
    if rs == [] then merged else MergeOnto(MergeNext(merged, rs[0]), rs[1..])
  }

  /** Empty ranges dropped, the rest sorted, overlapping and touching ones merged. */
  function NormalizeRanges(rs: seq<KeyRange>): seq<KeyRange> {
    MergeOnto([], SortOnto([], NonEmptyOnly(rs)))
  }

  // Non-empty intersections of `a` with every range of `bs`.
  function Crossed(a: KeyRange, bs: seq<KeyRange>): seq<KeyRange> {
    if bs == [] then []
    else
      var inter := Intersect(a, bs[0]);
      (if IsEmpty(inter) then [] else [inter]) + Crossed(a, bs[1..])
  }

  function AllCrossed(as_: seq<KeyRange>, bs: seq<KeyRange>): seq<KeyRange> {
    if as_ == [] then [] else Crossed(as_[0], bs) + AllCrossed(as_[1..], bs)
  }

  function IntersectRanges(as_: seq<KeyRange>, bs: seq<KeyRange>): seq<KeyRange> {
    NormalizeRanges(AllCrossed(as_, bs))
  }

  function UniteRanges(as_: seq<KeyRange>, bs: seq<KeyRange>): seq<KeyRange> {
    NormalizeRanges(as_ + bs)
  }

  // ------------------------------------------------------- runs of neighbours

  // Position `last + 1` holds the integer point right after `end`.
  predicate Continues(rs: seq<KeyRange>, last: nat, end: Value) {
    last + 1 < |rs| && IsPoint(rs[last + 1]) &&
    (var next := PointValue(rs[last + 1]);
     next.Int? && end.Int? && end.n != INT64_LIMIT - 1 && next.n == end.n + 1)
  }

  // The last position of the run that `last` belongs to.
  function RunEnd(rs: seq<KeyRange>, last: nat): (e: nat)
    requires last < |rs|
    ensures last <= e < |rs|
    decreases |rs| - last
  {
    if Continues(rs, last, PointValue(rs[last])) then RunEnd(rs, last + 1) else last
  }

  function LastOfRun(rs: seq<KeyRange>, i: nat): (e: nat)
    requires i < |rs|
    ensures i <= e < |rs|
  {
    if !IsPoint(rs[i]) || PointValue(rs[i]).Null? then i else RunEnd(rs, i)
  }

  function HeadOfRun(rs: seq<KeyRange>, i: nat): KeyRange
    requires i < |rs|
  {
    var last := LastOfRun(rs, i);
    if last > i then Closed(PointValue(rs[i]), PointValue(rs[last])) else rs[i]
  }

  function CoalesceFrom(rs: seq<KeyRange>, i: nat): seq<KeyRange>
    requires i <= |rs|
    decreases |rs| - i
  {
    if i == |rs| then [] else [HeadOfRun(rs, i)] + CoalesceFrom(rs, LastOfRun(rs, i) + 1)
  }

  /** Consecutive integer points become one closed range; other types stay as they are. */
  function CoalescePoints(rs: seq<KeyRange>, ty: DataType): seq<KeyRange> {
    if ty.Integer? || IsTemporal(ty) then CoalesceFrom(rs, 0) else rs
  }

  predicate IsSparsePointSet(rs: seq<KeyRange>) {
    |rs| >= 2 && forall i :: 0 <= i < |rs| ==> IsPoint(rs[i]) && !IsEmpty(rs[i])
  }

  // ------------------------------------------------------ condition to ranges

  predicate IsIndexable(op: CompareOp) {
    op.EQ? || op.GT? || op.GE? || op.LT? || op.LE?
  }

  function PointsOf(vs: seq<Value>): seq<KeyRange> {
    if vs == [] then []
    else (if vs[0].Null? then [] else [Point(vs[0])]) + PointsOf(vs[1..])
  }

  function RangeOfCompare(op: CompareOp, v: Value, ty: DataType): Option<seq<KeyRange>> {
    if op.IS_NULL? then Some([NullOnly(ty)])
    else if op.IS_NOT_NULL? then Some([NonNull(ty)])
    else if !IsIndexable(op) then None
    else if v.Null? then Some([Empty(ty)])
    else
      match op
      case EQ => Some([Point(v)])
      case GT => Some([Gt(v)])
      case GE => Some([Ge(v)])
      case LT => Some([Lt(v)])
      case LE => Some([Le(v)])
      case _ => None
  }

  function RangeOfCondition(c: Cond, ty: DataType): Option<seq<KeyRange>> {
    match c
    case Compare(_, op, v) => RangeOfCompare(op, v, ty)
    case In(_, negated, vs) =>
      if negated then None
      else
        var points := PointsOf(vs);
        Some(if points == [] then [Empty(ty)] else points)
    case And(l, r) =>
      var left, right := RangeOfCondition(l, ty), RangeOfCondition(r, ty);
      if left.None? || right.None? then None else Some(IntersectRanges(left.value, right.value))
    case Or(l, r) =>
      var left, right := RangeOfCondition(l, ty), RangeOfCondition(r, ty);
      if left.None? || right.None? then None else Some(UniteRanges(left.value, right.value))
    case Not(_) => None
  }

  // ------------------------------------------------------------------- split

  function JoinAnd(a: Option<Cond>, b: Option<Cond>): Option<Cond> {
    if a.None? then b else if b.None? then a else Some(And(a.value, b.value))
  }

  function JoinOr(a: Option<Cond>, b: Option<Cond>): Option<Cond> {
    if a.None? then b else if b.None? then a else Some(Or(a.value, b.value))
  }

  datatype Split = Split(pk: Option<Cond>, remaining: Option<Cond>)

  function SplitPrimaryKey(c: Cond, pk: string): (s: Split)
    ensures s.pk.Some? || s.remaining.Some?
  {
    match c
    case Compare(column, op, _) =>
      if column.name == pk && (IsIndexable(op) || op.IS_NULL? || op.IS_NOT_NULL?) then
        Split(Some(c), None)
      else Split(None, Some(c))
    case In(column, negated, _) =>
      if column.name == pk && !negated then Split(Some(c), None) else Split(None, Some(c))
    case And(l, r) =>
      var left, right := SplitPrimaryKey(l, pk), SplitPrimaryKey(r, pk);
      Split(JoinAnd(left.pk, right.pk), JoinAnd(left.remaining, right.remaining))
    case Or(l, r) =>
      var left, right := SplitPrimaryKey(l, pk), SplitPrimaryKey(r, pk);
      if left.remaining.None? && right.remaining.None? then
        Split(JoinOr(left.pk, right.pk), None)
      else
        Split(None, Some(Or(JoinAnd(left.pk, left.remaining).value, JoinAnd(right.pk, right.remaining).value)))
    case Not(_) => Split(None, Some(c))
  }

  // -------------------------------------------------------------- exclusions

  // A key set holds no two values with the same key.
  predicate Excluded(keys: seq<Value>, v: Value) {
    exists i :: 0 <= i < |keys| && KeyOf(keys[i]) == KeyOf(v)
  }

  function Add(keys: seq<Value>, v: Value): seq<Value> {
    if Excluded(keys, v) then keys else keys + [v]
  }

  function AddAll(keys: seq<Value>, vs: seq<Value>): seq<Value>
    decreases |vs|
  {
    if vs == [] then keys
    else AddAll(if vs[0].Null? then keys else Add(keys, vs[0]), vs[1..])
  }

  function CollectExclusions(c: Cond, pk: string, out: seq<Value>): seq<Value>
    decreases c
  {
    match c
    case And(l, r) => CollectExclusions(r, pk, CollectExclusions(l, pk, out))
    case Compare(column, op, v) =>
      if column.name == pk && op.NE? && !v.Null? then Add(out, v) else out
    case In(column, negated, vs) =>
      if column.name == pk && negated then AddAll(out, vs) else out
    case _ => out
  }

  function ExclusionsOf(filter: Option<Cond>, pk: string): seq<Value> {
    if filter.None? then [] else CollectExclusions(filter.value, pk, [])
  }

  // -------------------------------------------------------------------- plan

  datatype Plan = Plan(ranges: seq<KeyRange>, filter: Option<Cond>, exclude: seq<Value>, isPoint: bool)

  // Rewriting an optional tree: nothing left is no condition, and a null
  // operand met on the way ends the process.
  datatype Rewritten = Done(tree: Option<Cond>) | Crashed

  function RewriteTree(text: R.Printer, c: Option<Cond>): Rewritten {
    if c.None? then Done(None)
    else
      match R.Rewrite(text, c.value)
      case Tree(x) => Done(Some(x))
      case Nothing => Done(None)
      case Crash => Crashed
  }

  datatype Planned = Ok(plan: Plan) | Failed

  function Candidates(ranges: seq<KeyRange>, ty: DataType): seq<KeyRange> {
    CoalescePoints(NormalizeRanges(ranges), ty)
  }

  function FullScanPlan(filter: Option<Cond>, pk: string, ty: DataType): Plan {
    Plan([All(ty)], filter, ExclusionsOf(filter, pk), false)
  }

  function RangePlan(candidates: seq<KeyRange>, filter: Option<Cond>, pk: string): Plan {
    Plan(candidates, filter, ExclusionsOf(filter, pk), |candidates| == 1 && IsPoint(candidates[0]))
  }

  /** `scanIsCheaper` is what the cost model answers about point lookups against a full scan. */
  function ConvertToKeyRange(text: R.Printer, pkCond: Option<Cond>, remaining: Option<Cond>,
                             pk: string, ty: DataType, scanIsCheaper: bool): Planned
  {
    if pkCond.None? then Ok(FullScanPlan(remaining, pk, ty))
    else
      var converted := RangeOfCondition(pkCond.value, ty);
      if converted.None? then
        match RewriteTree(text, JoinAnd(pkCond, remaining))
        case Done(filter) => Ok(FullScanPlan(filter, pk, ty))
        case Crashed => Failed
      else
        var candidates := Candidates(converted.value, ty);
        if scanIsCheaper && IsSparsePointSet(candidates) then
          match RewriteTree(text, JoinAnd(pkCond, remaining))
          case Done(filter) => Ok(FullScanPlan(filter, pk, ty))
          case Crashed => Failed
        else if candidates == [] then Ok(RangePlan([Empty(ty)], remaining, pk))
        else Ok(RangePlan(candidates, remaining, pk))
  }

  function Extract(where: Option<Cond>, pk: string): Split {
    if where.None? then Split(None, None) else SplitPrimaryKey(where.value, pk)
  }

  function Optimize(text: R.Printer, where: Option<Cond>, pk: string, ty: DataType,
                    scanIsCheaper: bool): Planned
  {
    var rewritten := RewriteTree(text, where);
    if rewritten.Crashed? then Failed
    else
      var split := Extract(rewritten.tree, pk);
      var pkCond, remaining := RewriteTree(text, split.pk), RewriteTree(text, split.remaining);
      if pkCond.Crashed? || remaining.Crashed? then Failed
      else ConvertToKeyRange(text, pkCond.tree, remaining.tree, pk, ty, scanIsCheaper)
  }

}
