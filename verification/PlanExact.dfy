/**
 The plan is exact whatever the statistics say: the rows whose key lies in a
 chosen range and is not excluded, and which pass the residual filter, are the
 rows whose WHERE is TRUE.
 */
module PlanExact {
  import opened Wrappers
  import opened Bytes
  import opened SqlValues
  import opened KeyCodec
  import opened Conditions
  import R = Rewriter
  import M = RewriterMeaning
  import L = RewriterLeaves
  import opened KeyRanges
  import opened Optimizer
  import opened OptimizerRanges
  import opened OptimizerPlan

  // Literals compared with the primary key have the key's type.
  function KeyTyped(pk: string, ty: DataType): LeafTest {
    (name: string, v: Option<Value>) => name == pk && v.Some? ==> Fits(v.value, ty)
  }

  // Moreover nothing but the primary key is mentioned.
  function OnlyKey(pk: string, ty: DataType): LeafTest {
    (name: string, v: Option<Value>) => name == pk && (v.Some? ==> Fits(v.value, ty))
  }

  // ------------------------------------------------------ condition to ranges

  lemma NullRanges(t: Reader, x: Value, op: CompareOp, v: Value, ty: DataType)
    requires Fits(x, ty) && Fits(v, ty) && !ty.Unknown? && (op.IS_NULL? || op.IS_NOT_NULL? || v.Null?)
    requires RangeOfCompare(op, v, ty).Some?
    ensures AllTyped(RangeOfCompare(op, v, ty).value, ty)
    ensures Contains(RangeOfCompare(op, v, ty).value[0], x) <==> CompareValues(t, op, x, v).True?
  {
    hide Contains, StoredKey;
    FactoryContains(RangeOfCompare(op, v, ty).value[0], x, ty);
  }

  lemma OrderRanges(t: Reader, x: Value, op: CompareOp, v: Value, ty: DataType)
    requires Fits(x, ty) && Fits(v, ty) && !ty.Unknown? && IsIndexable(op) && !v.Null?
    ensures AllTyped(RangeOfCompare(op, v, ty).value, ty)
    ensures Contains(RangeOfCompare(op, v, ty).value[0], x) <==> CompareValues(t, op, x, v).True?
  {
    FactoryRanges(x, v, ty);
    PrecedesIsTotal(x, v, ty);
    NullFirst(x, v);
    if !x.Null? {
      CompareByKey(t, x, v, ty);
    } else {
      NothingComparesToNull(t, x, v);
    }
    hide Contains, Precedes, Typed, SqlOrder, Point, Gt, Ge, Lt, Le, StoredKey;
  }

  lemma NullFirst(x: Value, v: Value)
    requires !v.Null?
    ensures x.Null? ==> Precedes(x, v) && !Precedes(v, x)
  {
  }

  lemma NothingComparesToNull(t: Reader, x: Value, v: Value)
    requires x.Null?
    ensures SqlOrder(t, x, v).None?
  {
  }

  lemma CompareRanges(t: Reader, x: Value, op: CompareOp, v: Value, ty: DataType)
    requires Fits(x, ty) && Fits(v, ty) && !ty.Unknown?
    requires RangeOfCompare(op, v, ty).Some?
    ensures AllTyped(RangeOfCompare(op, v, ty).value, ty)
    ensures Covers(RangeOfCompare(op, v, ty).value, x) <==> CompareValues(t, op, x, v).True?
  {
    hide Contains, Covers, CompareValues;
    var r := RangeOfCompare(op, v, ty).value[0];
    assert RangeOfCompare(op, v, ty).value == [r];
    CoversSingle(r, x);
    if op.IS_NULL? || op.IS_NOT_NULL? || v.Null? {
      NullRanges(t, x, op, v, ty);
    } else {
      OrderRanges(t, x, op, v, ty);
    }
  }

  lemma EqualsAnyIsMember(t: Reader, x: Value, vs: seq<Value>, ty: DataType)
    requires Fits(x, ty) && forall i :: 0 <= i < |vs| ==> Fits(vs[i], ty)
    ensures EqualsAny(t, x, vs).True? <==> !x.Null? && x in vs
  {
    if vs != [] {
      var i := M.EqualsAnyReached(t, x, vs);
      if !x.Null? && !vs[i].Null? {
        CompareByKey(t, x, vs[i], ty);
      }
    }
    if !x.Null? && x in vs {
      var j :| 0 <= j < |vs| && vs[j] == x;
      CompareByKey(t, x, x, ty);
      M.EqualsAnyBound(t, x, vs, j);
    }
  }

  lemma {:induction false} PointsCover(x: Value, vs: seq<Value>, ty: DataType)
    requires Fits(x, ty) && !ty.Unknown? && forall i :: 0 <= i < |vs| ==> Fits(vs[i], ty)
    ensures AllTyped(PointsOf(vs), ty)
    ensures Covers(PointsOf(vs), x) <==> !x.Null? && x in vs
  {
    if vs != [] {
      hide Contains, Point, Typed;
      PointsCover(x, vs[1..], ty);
      assert vs == [vs[0]] + vs[1..];
      if !vs[0].Null? {
        FactoryRanges(x, vs[0], ty);
        CoversSingle(Point(vs[0]), x);
      }
      CoversConcat(if vs[0].Null? then [] else [Point(vs[0])], PointsOf(vs[1..]), x);
    }
  }

  lemma InRanges(t: Reader, x: Value, vs: seq<Value>, ty: DataType)
    requires Fits(x, ty) && !ty.Unknown? && forall i :: 0 <= i < |vs| ==> Fits(vs[i], ty)
    ensures var rs := if PointsOf(vs) == [] then [Empty(ty)] else PointsOf(vs);
            AllTyped(rs, ty) && (Covers(rs, x) <==> EqualsAny(t, x, vs).True?)
  {
    EqualsAnyIsMember(t, x, vs, ty);
    PointsCover(x, vs, ty);
    CoversSingle(Empty(ty), x);
  }

  /** The ranges of a key condition cover exactly the keys that make it TRUE. */
  lemma {:induction false} RangeOfExact(t: Reader, row: Row, c: Cond, pk: string, ty: DataType)
    requires AllLeaves(c, OnlyKey(pk, ty)) && pk in row && Fits(row[pk], ty) && !ty.Unknown?
    requires RangeOfCondition(c, ty).Some?
    ensures AllTyped(RangeOfCondition(c, ty).value, ty)
    ensures Covers(RangeOfCondition(c, ty).value, row[pk]) <==> Eval(t, row, c).True?
  {
    hide Covers;
    match c {
      case Compare(_, op, v) => CompareRanges(t, row[pk], op, v, ty);
      case In(_, _, vs) =>
        forall i | 0 <= i < |vs|
          ensures Fits(vs[i], ty)
        {
          assert OnlyKey(pk, ty)(pk, Some(vs[i]));
        }
        InRanges(t, row[pk], vs, ty);
      case And(l, r) =>
        RangeOfExact(t, row, l, pk, ty);
        RangeOfExact(t, row, r, pk, ty);
        IntersectRangesExact(RangeOfCondition(l, ty).value, RangeOfCondition(r, ty).value, ty);
      case Or(l, r) =>
        RangeOfExact(t, row, l, pk, ty);
        RangeOfExact(t, row, r, pk, ty);
        UniteRangesExact(RangeOfCondition(l, ty).value, RangeOfCondition(r, ty).value, ty);
      case Not(_) =>
    }
  }

  /** So do the candidates the plan is made of, and they are ascending with gaps. */
  lemma CandidatesExact(t: Reader, row: Row, c: Cond, pk: string, ty: DataType)
    requires AllLeaves(c, OnlyKey(pk, ty)) && pk in row && Fits(row[pk], ty) && !ty.Unknown?
    requires RangeOfCondition(c, ty).Some?
    ensures var rs := Candidates(RangeOfCondition(c, ty).value, ty);
            Separated(rs, ty) && (Covers(rs, row[pk]) <==> Eval(t, row, c).True?)
  {
    var ranges := RangeOfCondition(c, ty).value;
    RangeOfExact(t, row, c, pk, ty);
    NormalizeExact(ranges, ty);
    CoalesceExact(NormalizeRanges(ranges), ty);
  }

  // ------------------------------------------------------------------- split

  lemma JoinAndKeeps(t: Reader, row: Row, a: Option<Cond>, b: Option<Cond>)
    ensures Keeps(t, row, JoinAnd(a, b)) <==> Keeps(t, row, a) && Keeps(t, row, b)
  {
  }

  /** Both halves of the split together keep what the whole keeps. */
  lemma {:induction false} SplitExact(t: Reader, row: Row, c: Cond, pk: string)
    ensures var s := SplitPrimaryKey(c, pk);
            Keeps(t, row, s.pk) && Keeps(t, row, s.remaining) <==> Eval(t, row, c).True?
  {
    match c {
      case And(l, r) =>
        SplitExact(t, row, l, pk);
        SplitExact(t, row, r, pk);
        var left, right := SplitPrimaryKey(l, pk), SplitPrimaryKey(r, pk);
        JoinAndKeeps(t, row, left.pk, right.pk);
        JoinAndKeeps(t, row, left.remaining, right.remaining);
      case Or(l, r) =>
        SplitExact(t, row, l, pk);
        SplitExact(t, row, r, pk);
        var left, right := SplitPrimaryKey(l, pk), SplitPrimaryKey(r, pk);
        JoinAndKeeps(t, row, left.pk, left.remaining);
        JoinAndKeeps(t, row, right.pk, right.remaining);
      case _ =>
    }
  }

  ghost predicate LeavesOf(c: Option<Cond>, ok: LeafTest) {
    c.Some? ==> AllLeaves(c.value, ok)
  }

  lemma {:induction false} SplitLeaves(c: Cond, pk: string, ty: DataType)
    requires AllLeaves(c, KeyTyped(pk, ty))
    ensures var s := SplitPrimaryKey(c, pk);
            LeavesOf(s.pk, OnlyKey(pk, ty)) && LeavesOf(s.pk, KeyTyped(pk, ty)) &&
            LeavesOf(s.remaining, KeyTyped(pk, ty))
  {
    match c {
      case And(l, r) =>
        SplitLeaves(l, pk, ty);
        SplitLeaves(r, pk, ty);
      case Or(l, r) =>
        SplitLeaves(l, pk, ty);
        SplitLeaves(r, pk, ty);
      case In(column, _, vs) =>
        if column.name == pk {
          forall i | 0 <= i < |vs|
            ensures OnlyKey(pk, ty)(pk, Some(vs[i]))
          {
            assert KeyTyped(pk, ty)(pk, Some(vs[i]));
          }
        }
      case Compare(column, _, v) =>
        assert KeyTyped(pk, ty)(column.name, Some(v));
      case Not(_) =>
    }
  }

  // -------------------------------------------------------------- exclusions

  lemma KeyTells(a: Value, b: Value, ty: DataType)
    requires Fits(a, ty) && Fits(b, ty) && KeyOf(a) == KeyOf(b)
    ensures a == b
  {
    if a.Null? || b.Null? {
      assert KeyOf(a)[1] == KeyOf(b)[1];
    } else {
      assert KeyOf(a) == StoredKey(a, ty) && KeyOf(b) == StoredKey(b, ty);
      KeyOrder(a, b, ty);
    }
  }

  lemma {:induction false} AddAllWithin(keys: seq<Value>, vs: seq<Value>)
    ensures forall v :: v in AddAll(keys, vs) ==> v in keys || (v in vs && !v.Null?)
    decreases |vs|
  {
    if vs != [] {
      AddAllWithin(if vs[0].Null? then keys else Add(keys, vs[0]), vs[1..]);
    }
  }

  // Every collected point makes the filter fail on the row that carries it.
  lemma {:induction false} ExclusionFails(t: Reader, row: Row, c: Cond, pk: string, ty: DataType,
                                          out: seq<Value>, v: Value)
    requires AllLeaves(c, KeyTyped(pk, ty)) && pk in row && Fits(row[pk], ty)
    requires v in CollectExclusions(c, pk, out) && v !in out
    ensures Fits(v, ty) && !v.Null?
    ensures v == row[pk] ==> !Eval(t, row, c).True?
    decreases c
  {
    match c {
      case And(l, r) =>
        var mid := CollectExclusions(l, pk, out);
        if v in mid {
          ExclusionFails(t, row, l, pk, ty, out, v);
        } else {
          ExclusionFails(t, row, r, pk, ty, mid, v);
        }
      case Compare(_, _, w) =>
        assert v == w;
        assert KeyTyped(pk, ty)(pk, Some(w));
        CompareByKey(t, w, w, ty);
      case In(_, _, vs) =>
        AddAllWithin(out, vs);
        forall i | 0 <= i < |vs|
          ensures Fits(vs[i], ty)
        {
          assert KeyTyped(pk, ty)(pk, Some(vs[i]));
        }
        EqualsAnyIsMember(t, row[pk], vs, ty);
    }
  }

  /** Skipping an excluded key never loses a row the filter would have kept. */
  lemma ExclusionsSound(t: Reader, row: Row, filter: Option<Cond>, pk: string, ty: DataType)
    requires LeavesOf(filter, KeyTyped(pk, ty)) && pk in row && Fits(row[pk], ty)
    requires Excluded(ExclusionsOf(filter, pk), row[pk])
    ensures !Keeps(t, row, filter)
  {
    var keys := ExclusionsOf(filter, pk);
    var i :| 0 <= i < |keys| && KeyOf(keys[i]) == KeyOf(row[pk]);
    ExclusionFails(t, row, filter.value, pk, ty, [], keys[i]);
    KeyTells(keys[i], row[pk], ty);
  }

  // -------------------------------------------------------------------- plan

  ghost predicate CleanTree(text: R.Printer, c: Option<Cond>) {
    c.Some? ==> M.Clean(text, R.Prepare(text, c.value))
  }

  // Every rewriting step of the planning meets a clean tree.
  ghost predicate CleanPlan(text: R.Printer, where: Option<Cond>, pk: string) {
    CleanTree(text, where) &&
    (RewriteTree(text, where).Done? ==>
       var split := Extract(RewriteTree(text, where).tree, pk);
       CleanTree(text, split.pk) && CleanTree(text, split.remaining) &&
       (RewriteTree(text, split.pk).Done? && RewriteTree(text, split.remaining).Done? ==>
          CleanTree(text, JoinAnd(RewriteTree(text, split.pk).tree, RewriteTree(text, split.remaining).tree))))
  }

  lemma RewriteTreeExact(text: R.Printer, c: Option<Cond>)
    requires M.Faithful(text) && CleanTree(text, c)
    ensures var r := RewriteTree(text, c);
            && r.Done? && (r.tree.None? <==> c.None?)
            && (forall t: Reader, row: Row :: Keeps(t, row, r.tree) <==> Keeps(t, row, c))
            && (forall ok: LeafTest :: LeavesOf(c, ok) ==> LeavesOf(r.tree, ok))
  {
    if c.Some? {
      hide Eval, M.Clean, M.Faithful, R.Rewrite, AllLeaves;
      M.RewriteMeaning(text, c.value);
      var r := RewriteTree(text, c);
      assert r.tree == Some(R.Rewrite(text, c.value).c);
      forall t: Reader, row: Row
        ensures Keeps(t, row, r.tree) <==> Keeps(t, row, c)
      {
        assert Eval(t, row, r.tree.value) == Eval(t, row, c.value);
      }
      forall ok: LeafTest | LeavesOf(c, ok)
        ensures LeavesOf(r.tree, ok)
      {
        L.RewriteLeaves(text, c.value, ok);
      }
    }
  }

  // A row the plan delivers: scanned, not skipped, and kept by the filter.
  predicate Selected(t: Reader, row: Row, plan: Plan, pk: string)
    requires pk in row
  {
    Covers(plan.ranges, row[pk]) && !Excluded(plan.exclude, row[pk]) && Keeps(t, row, plan.filter)
  }

  lemma FullScanExact(t: Reader, row: Row, filter: Option<Cond>, pk: string, ty: DataType)
    requires LeavesOf(filter, KeyTyped(pk, ty)) && pk in row && Fits(row[pk], ty) && !ty.Unknown?
    ensures Selected(t, row, FullScanPlan(filter, pk, ty), pk) <==> Keeps(t, row, filter)
    ensures Separated([All(ty)], ty)
  {
    CoversSingle(All(ty), row[pk]);
    FactoryContains(All(ty), row[pk], ty);
    if Excluded(ExclusionsOf(filter, pk), row[pk]) {
      ExclusionsSound(t, row, filter, pk, ty);
    }
  }

  lemma RangePlanExact(t: Reader, row: Row, rs: seq<KeyRange>, filter: Option<Cond>, pk: string, ty: DataType)
    requires LeavesOf(filter, KeyTyped(pk, ty)) && pk in row && Fits(row[pk], ty)
    ensures Selected(t, row, RangePlan(rs, filter, pk), pk) <==> Covers(rs, row[pk]) && Keeps(t, row, filter)
  {
    if Excluded(ExclusionsOf(filter, pk), row[pk]) {
      ExclusionsSound(t, row, filter, pk, ty);
    }
  }

  // Ascending with gaps, or the single empty range of an unsatisfiable key.
  ghost predicate GoodRanges(rs: seq<KeyRange>, ty: DataType) {
    Separated(rs, ty) || rs == [Empty(ty)]
  }

  lemma ConvertExact(t: Reader, row: Row, text: R.Printer, pkCond: Option<Cond>, remaining: Option<Cond>,
                     pk: string, ty: DataType, scanIsCheaper: bool)
    requires M.Faithful(text) && CleanTree(text, JoinAnd(pkCond, remaining))
    requires LeavesOf(pkCond, OnlyKey(pk, ty)) && LeavesOf(pkCond, KeyTyped(pk, ty))
    requires LeavesOf(remaining, KeyTyped(pk, ty))
    requires pk in row && Fits(row[pk], ty) && !ty.Unknown?
    ensures var planned := ConvertToKeyRange(text, pkCond, remaining, pk, ty, scanIsCheaper);
            && planned.Ok? && GoodRanges(planned.plan.ranges, ty)
            && (Selected(t, row, planned.plan, pk) <==> Keeps(t, row, pkCond) && Keeps(t, row, remaining))
  {
    hide Covers, Selected, Separated, Candidates, M.Faithful, CleanTree, RewriteTree, IsSparsePointSet, Eval,
      RangeOfCondition, RangePlan;
    var joined := JoinAnd(pkCond, remaining);
    JoinAndKeeps(t, row, pkCond, remaining);
    RewriteTreeExact(text, joined);
    assert LeavesOf(joined, KeyTyped(pk, ty));
    FullScanExact(t, row, remaining, pk, ty);
    FullScanExact(t, row, RewriteTree(text, joined).tree, pk, ty);
    if pkCond.Some? && RangeOfCondition(pkCond.value, ty).Some? {
      CandidatesExact(t, row, pkCond.value, pk, ty);
      var rs := Candidates(RangeOfCondition(pkCond.value, ty).value, ty);
      RangePlanExact(t, row, rs, remaining, pk, ty);
      RangePlanExact(t, row, [Empty(ty)], remaining, pk, ty);
      EmptyCovers(row[pk], ty);
      RangesOf(rs, remaining, pk);
      RangesOf([Empty(ty)], remaining, pk);
    }
  }

  lemma RangesOf(rs: seq<KeyRange>, filter: Option<Cond>, pk: string)
    ensures RangePlan(rs, filter, pk).ranges == rs
  {
  }

  lemma EmptyCovers(v: Value, ty: DataType)
    ensures !Covers([Empty(ty)], v) && !Covers([], v)
  {
    CoversSingle(Empty(ty), v);
  }

  /**
   Plan correctness: for every WHERE whose key literals are typed, every answer
   of the cost model and every row, the plan selects the row if and only if its
   WHERE is TRUE, and the ranges are ascending and disjoint.
   */
  lemma OptimizeExact(t: Reader, row: Row, text: R.Printer, where: Option<Cond>, pk: string, ty: DataType,
                      scanIsCheaper: bool)
    requires M.Faithful(text) && CleanPlan(text, where, pk)
    requires LeavesOf(where, KeyTyped(pk, ty))
    requires pk in row && Fits(row[pk], ty) && !ty.Unknown?
    ensures var planned := Optimize(text, where, pk, ty, scanIsCheaper);
            && planned.Ok? && GoodRanges(planned.plan.ranges, ty)
            && (Selected(t, row, planned.plan, pk) <==> Keeps(t, row, where))
  {
    hide Covers, Selected, Separated, M.Faithful, RewriteTree, ConvertToKeyRange, Eval, AllLeaves,
      CleanTree, GoodRanges;
    RewriteTreeExact(text, where);
    var tree := RewriteTree(text, where).tree;
    var split := Extract(tree, pk);
    if tree.Some? {
      SplitExact(t, row, tree.value, pk);
      SplitLeaves(tree.value, pk, ty);
    }
    RewriteTreeExact(text, split.pk);
    RewriteTreeExact(text, split.remaining);
    ConvertExact(t, row, text, RewriteTree(text, split.pk).tree, RewriteTree(text, split.remaining).tree,
                 pk, ty, scanIsCheaper);
  }

  // ------------------------------------------------------ why literals are typed

  /**
   The filter compares a number with a text literal by reading the text, but the
   range of that literal lies in the text family and covers no number.
   */
  lemma TextLiteralMisses(t: Reader, pk: string, n: Int64, text: Bytes)
    requires t.integer(text) == Some(n)
    ensures var c := Compare(Column(pk, pk), EQ, Str(text));
            && Eval(t, map[pk := Int(n)], c).True?
            && RangeOfCondition(c, Integer) == Some([Point(Str(text))])
            && !Covers([Point(Str(text))], Int(n))
  {
    CoversSingle(Point(Str(text)), Int(n));
    assert KeyOf(Int(n))[0] == TAG_INT64 && KeyOf(Str(text))[0] == TAG_STRING;
  }
}
