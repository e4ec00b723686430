/**
 The plan reads no more than it has to. Which conditions become ranges, which
 conjuncts go to the key half, which points are skipped and which neighbours
 are merged is told by the condition alone, and a full scan is chosen only
 where nothing else is possible or the cost model asks for it.
 */
module PlanTight {
  import opened Wrappers
  import opened Bytes
  import opened SqlValues
  import opened KeyCodec
  import opened Conditions
  import R = Rewriter
  import M = RewriterMeaning
  import opened RewriterConverts
  import opened KeyRanges
  import opened Optimizer
  import opened OptimizerRanges
  import opened OptimizerPlan
  import opened PlanExact

  // --------------------------------------------------------- becoming ranges

  /** Exactly the convertible conditions become ranges. */
  lemma {:induction false} ConvertedExactly(c: Cond, ty: DataType)
    ensures RangeOfCondition(c, ty).Some? <==> Convertible(c)
  {
    match c
    case Compare(_, _, _) =>
    case In(_, _, _) =>
    case And(l, r) =>
      ConvertedExactly(l, ty);
      ConvertedExactly(r, ty);
    case Or(l, r) =>
      ConvertedExactly(l, ty);
      ConvertedExactly(r, ty);
    case Not(_) =>
  }

  // ------------------------------------------------------------ the key half

  function Conjuncts(c: Cond): seq<Cond> {
    match c
    case And(l, r) => Conjuncts(l) + Conjuncts(r)
    case _ => [c]
  }

  function ConjunctsOf(c: Option<Cond>): seq<Cond> {
    if c.None? then [] else Conjuncts(c.value)
  }

  // Convertible and about nothing but the primary key.
  predicate KeyOnly(c: Cond, pk: string) {
    match c
    case Compare(column, op, _) => column.name == pk && op in RANGED
    case In(column, negated, _) => column.name == pk && !negated
    case And(l, r) => KeyOnly(l, pk) && KeyOnly(r, pk)
    case Or(l, r) => KeyOnly(l, pk) && KeyOnly(r, pk)
    case Not(_) => false
  }

  function KeyConjuncts(cs: seq<Cond>, pk: string): seq<Cond> {
    if cs == [] then []
    else (if KeyOnly(cs[0], pk) then [cs[0]] else []) + KeyConjuncts(cs[1..], pk)
  }

  lemma {:induction false} KeyConjunctsConcat(a: seq<Cond>, b: seq<Cond>, pk: string)
    ensures KeyConjuncts(a + b, pk) == KeyConjuncts(a, pk) + KeyConjuncts(b, pk)
  {
    hide KeyOnly;
    if a == [] {
      assert a + b == b;
    } else {
      var ab := a + b;
      assert ab[1..] == a[1..] + b && ab[0] == a[0];
      KeyConjunctsConcat(a[1..], b, pk);
      Associative(if KeyOnly(a[0], pk) then [a[0]] else [], KeyConjuncts(a[1..], pk), KeyConjuncts(b, pk));
    }
  }

  lemma Associative(a: seq<Cond>, b: seq<Cond>, c: seq<Cond>)
    ensures a + (b + c) == (a + b) + c
  {
  }

  /**
   The key half of the WHERE is the conjunction of exactly those conjuncts that
   are about the key alone and convertible; nothing is left over iff all are.
   */
  lemma {:induction false} SplitTight(c: Cond, pk: string)
    ensures var s := SplitPrimaryKey(c, pk);
            && ConjunctsOf(s.pk) == KeyConjuncts(Conjuncts(c), pk)
            && (s.remaining.None? <==> KeyOnly(c, pk))
            && (s.pk.Some? ==> KeyOnly(s.pk.value, pk) && Convertible(s.pk.value))
  {
    SplitPure(c, pk);
    hide KeyOnly, SplitPrimaryKey, Convertible;
    var s := SplitPrimaryKey(c, pk);
    if s.pk.Some? { KeyOnlyConverts(s.pk.value, pk); }
    if c.And? {
      SplitTight(c.left, pk);
      SplitTight(c.right, pk);
      KeyConjunctsConcat(Conjuncts(c.left), Conjuncts(c.right), pk);
      SplitOfAnd(c.left, c.right, pk);
    } else {
      assert Conjuncts(c)[1..] == [];
    }
  }

  lemma SplitOfAnd(l: Cond, r: Cond, pk: string)
    ensures SplitPrimaryKey(And(l, r), pk).pk == JoinAnd(SplitPrimaryKey(l, pk).pk, SplitPrimaryKey(r, pk).pk)
  {
  }

  // A condition about the key alone goes to the key half as it is, and no
  // conjunct that is not does.
  lemma {:induction false} SplitPure(c: Cond, pk: string)
    ensures var s := SplitPrimaryKey(c, pk);
            && (s.remaining.None? <==> KeyOnly(c, pk)) && (KeyOnly(c, pk) ==> s.pk == Some(c))
            && (s.pk.Some? ==> KeyOnly(s.pk.value, pk)) && (!c.And? && !KeyOnly(c, pk) ==> s.pk.None?)
  {
    match c
    case And(l, r) =>
      SplitPure(l, pk);
      SplitPure(r, pk);
    case Or(l, r) =>
      SplitPure(l, pk);
      SplitPure(r, pk);
    case _ =>
  }

  lemma {:induction false} KeyOnlyConverts(c: Cond, pk: string)
    requires KeyOnly(c, pk)
    ensures Convertible(c)
  {
    match c
    case And(l, r) =>
      KeyOnlyConverts(l, pk);
      KeyOnlyConverts(r, pk);
    case Or(l, r) =>
      KeyOnlyConverts(l, pk);
      KeyOnlyConverts(r, pk);
    case _ =>
  }

  // -------------------------------------------------------------- exclusions

  // The conjunct rules the key out: pk <> v, or pk NOT IN a list with v.
  ghost predicate RulesOut(c: Cond, pk: string, v: Value) {
    match c
    case Compare(column, op, w) => column.name == pk && op.NE? && !w.Null? && KeyOf(w) == KeyOf(v)
    case In(column, negated, ws) => column.name == pk && negated && ListsKey(ws, v)
    case _ => false
  }

  ghost predicate ListsKey(ws: seq<Value>, v: Value) {
    exists i :: 0 <= i < |ws| && !ws[i].Null? && KeyOf(ws[i]) == KeyOf(v)
  }

  lemma AddedExactly(keys: seq<Value>, w: Value, v: Value)
    ensures Excluded(Add(keys, w), v) <==> Excluded(keys, v) || KeyOf(w) == KeyOf(v)
  {
    hide KeyOf;
    if !Excluded(keys, w) {
      assert (keys + [w])[|keys|] == w;
      forall i | 0 <= i < |keys| ensures (keys + [w])[i] == keys[i] { }
    }
  }

  lemma {:induction false} AllAddedExactly(keys: seq<Value>, ws: seq<Value>, v: Value)
    ensures Excluded(AddAll(keys, ws), v) <==> Excluded(keys, v) || ListsKey(ws, v)
    decreases |ws|
  {
    hide KeyOf, Add, Excluded;
    if ws != [] {
      var next := if ws[0].Null? then keys else Add(keys, ws[0]);
      if !ws[0].Null? { AddedExactly(keys, ws[0], v); }
      AllAddedExactly(next, ws[1..], v);
      ListsKeyCons(ws, v);
    }
  }

  lemma ListsKeyCons(ws: seq<Value>, v: Value)
    requires ws != []
    ensures ListsKey(ws, v) <==> (!ws[0].Null? && KeyOf(ws[0]) == KeyOf(v)) || ListsKey(ws[1..], v)
  {
    hide KeyOf;
    var rest := ws[1..];
    if i :| 0 <= i < |rest| && !rest[i].Null? && KeyOf(rest[i]) == KeyOf(v) {
      assert ws[i + 1] == rest[i];
    }
    if i :| 0 < i < |ws| && !ws[i].Null? && KeyOf(ws[i]) == KeyOf(v) {
      assert rest[i - 1] == ws[i];
    }
  }

  ghost predicate SomeRulesOut(cs: seq<Cond>, pk: string, v: Value) {
    exists i :: 0 <= i < |cs| && RulesOut(cs[i], pk, v)
  }

  lemma SomeRulesOutConcat(a: seq<Cond>, b: seq<Cond>, pk: string, v: Value)
    ensures SomeRulesOut(a + b, pk, v) <==> SomeRulesOut(a, pk, v) || SomeRulesOut(b, pk, v)
  {
    hide RulesOut;
    var ab := a + b;
    if i :| 0 <= i < |a| && RulesOut(a[i], pk, v) { assert ab[i] == a[i]; }
    if i :| 0 <= i < |b| && RulesOut(b[i], pk, v) { assert ab[|a| + i] == b[i]; }
    if i :| 0 <= i < |ab| && RulesOut(ab[i], pk, v) {
      if i < |a| { assert a[i] == ab[i]; } else { assert b[i - |a|] == ab[i]; }
    }
  }

  lemma {:induction false} CollectedExactly(c: Cond, pk: string, out: seq<Value>, v: Value)
    ensures Excluded(CollectExclusions(c, pk, out), v) <==> Excluded(out, v) || SomeRulesOut(Conjuncts(c), pk, v)
    decreases c
  {
    hide KeyOf, Excluded, Add, AddAll, ListsKey;
    match c
    case And(l, r) =>
      hide RulesOut;
      CollectedExactly(l, pk, out, v);
      CollectedExactly(r, pk, CollectExclusions(l, pk, out), v);
      SomeRulesOutConcat(Conjuncts(l), Conjuncts(r), pk, v);
    case Compare(_, _, w) =>
      AddedExactly(out, w, v);
      assert SomeRulesOut([c], pk, v) <==> RulesOut([c][0], pk, v);
    case In(_, _, ws) =>
      AllAddedExactly(out, ws, v);
      assert SomeRulesOut([c], pk, v) <==> RulesOut([c][0], pk, v);
    case Or(_, _) => assert SomeRulesOut([c], pk, v) <==> RulesOut([c][0], pk, v);
    case Not(_) => assert SomeRulesOut([c], pk, v) <==> RulesOut([c][0], pk, v);
  }

  /** A key is skipped exactly when some conjunct of the filter rules it out. */
  lemma ExclusionsTight(filter: Option<Cond>, pk: string, v: Value)
    ensures Excluded(ExclusionsOf(filter, pk), v) <==> SomeRulesOut(ConjunctsOf(filter), pk, v)
  {
    hide RulesOut, CollectExclusions;
    if filter.Some? { CollectedExactly(filter.value, pk, [], v); }
  }

  // ------------------------------------------------------- points and neighbours

  /** Nothing compares with NULL: a range made from it holds no value. */
  lemma NullMakesNothing(v: Value, x: Value)
    ensures !Contains(Gt(Null), x) && !Contains(Ge(Null), x) && !Contains(Lt(Null), x) && !Contains(Le(Null), x)
    ensures !Contains(Point(Null), x) && !Contains(Closed(Null, v), x) && !Contains(Closed(v, Null), x)
  {
  }

  // The range is the single value v.
  ghost predicate Single(r: KeyRange, v: Value, ty: DataType) {
    forall x :: Fits(x, ty) ==> (Contains(r, x) <==> x == v)
  }

  /** A range taken for a point holds its value alone; points, NULL and [n, n + 1) are taken for points. */
  lemma PointsExact(r: KeyRange, ty: DataType, v: Value, n: Int64)
    requires Typed(r, ty)
    ensures IsPoint(r) ==> Single(r, PointValue(r), ty)
    ensures !v.Null? ==> IsPoint(Point(v)) && PointValue(Point(v)) == v
    ensures IsPoint(NullOnly(ty)) && PointValue(NullOnly(ty)).Null?
    ensures n + 1 < INT64_LIMIT ==>
              var next := KeyRange(Integer, Some(Int(n)), Some(Int(n + 1)), false, false);
              IsPoint(next) && PointValue(next) == Int(n)
  {
    if IsPoint(r) { PointIsSingle(r, ty); }
    PointShapes(ty, v, n);
  }

  lemma PointIsSingle(r: KeyRange, ty: DataType)
    requires Typed(r, ty) && IsPoint(r)
    ensures Single(r, PointValue(r), ty)
  {
    forall x | Fits(x, ty) ensures Contains(r, x) <==> x == PointValue(r) {
      FactoryContains(r, x, ty);
      hide Contains, IsEmpty;
      if r.low.Some? { PrecedesIsTotal(x, r.low.value, ty); }
      if r.high.Some? { PrecedesIsTotal(x, r.high.value, ty); }
    }
  }

  lemma PointShapes(ty: DataType, v: Value, n: Int64)
    requires !ty.Unknown?
    ensures !v.Null? ==> IsPoint(Point(v)) && PointValue(Point(v)) == v
    ensures IsPoint(NullOnly(ty)) && PointValue(NullOnly(ty)).Null?
    ensures n + 1 < INT64_LIMIT ==>
              var next := KeyRange(Integer, Some(Int(n)), Some(Int(n + 1)), false, false);
              IsPoint(next) && PointValue(next) == Int(n)
  {
    if !v.Null? {
      var k := StoredKey(v, TypeOf(v));
      SuccessorExact(k, k);
      LessIsIrreflexive(k);
    }
    if n + 1 < INT64_LIMIT { KeyOrder(Int(n), Int(n + 1), Integer); }
  }

  // Two integer points one after the other.
  predicate Neighbours(a: KeyRange, b: KeyRange) {
    IsPoint(a) && IsPoint(b) && PointValue(a).Int? && PointValue(b).Int? && PointValue(b).n == PointValue(a).n + 1
  }

  lemma {:induction false} NoNeighboursFrom(rs: seq<KeyRange>, i: nat)
    requires i <= |rs|
    ensures var cs := CoalesceFrom(rs, i);
            && (i < |rs| ==> cs != [] && cs[0] == HeadOfRun(rs, i))
            && forall j :: 0 <= j < |cs| - 1 ==> !Neighbours(cs[j], cs[j + 1])
    decreases |rs| - i
  {
    hide IsPoint, PointValue, HeadOfRun, LastOfRun;
    if i < |rs| {
      var next := LastOfRun(rs, i) + 1;
      NoNeighboursFrom(rs, next);
      var cs, rest := CoalesceFrom(rs, i), CoalesceFrom(rs, next);
      assert cs == [HeadOfRun(rs, i)] + rest;
      if next < |rs| { HeadsApart(rs, i); }
      forall j | 0 <= j < |cs| - 1 ensures !Neighbours(cs[j], cs[j + 1]) {
        if j > 0 { assert cs[j] == rest[j - 1] && cs[j + 1] == rest[j]; }
      }
    }
  }

  // A run is taken as far as it goes, so what follows it is no neighbour.
  lemma HeadsApart(rs: seq<KeyRange>, i: nat)
    requires i < |rs| && LastOfRun(rs, i) + 1 < |rs|
    ensures !Neighbours(HeadOfRun(rs, i), HeadOfRun(rs, LastOfRun(rs, i) + 1))
  {
    hide IsPoint, PointValue;
    var last := LastOfRun(rs, i);
    LongRunIsNoPoint(rs, i);
    LongRunIsNoPoint(rs, last + 1);
    if last == i { RunStops(rs, i); }
  }

  lemma LongRunIsNoPoint(rs: seq<KeyRange>, i: nat)
    requires i < |rs|
    ensures LastOfRun(rs, i) > i ==> !IsPoint(HeadOfRun(rs, i))
    ensures LastOfRun(rs, i) == i ==> HeadOfRun(rs, i) == rs[i]
  {
    var last := LastOfRun(rs, i);
    if last > i {
      hide IsPoint, PointValue;
      RunIsConsecutive(rs, i, last);
      LongIsNoPoint(PointValue(rs[i]), PointValue(rs[last]));
    }
  }

  lemma LongIsNoPoint(a: Value, b: Value)
    requires a.Int? && b.Int? && a.n < b.n
    ensures !IsPoint(Closed(a, b))
  {
  }

  lemma RunStops(rs: seq<KeyRange>, i: nat)
    requires i + 1 < |rs| && LastOfRun(rs, i) == i
    ensures !Neighbours(rs[i], rs[i + 1])
  {
    hide IsPoint, PointValue;
  }

  /** After coalescing no two neighbouring integer points are left. */
  lemma CoalesceTight(rs: seq<KeyRange>, ty: DataType)
    requires ty.Integer? || IsTemporal(ty)
    ensures var cs := CoalescePoints(rs, ty); forall j :: 0 <= j < |cs| - 1 ==> !Neighbours(cs[j], cs[j + 1])
  {
    hide IsPoint, PointValue, Neighbours;
    NoNeighboursFrom(rs, 0);
  }

  // ---------------------------------------------------------- overlap and touch

  /** Overlapping ranges share a key, adjacent ones meet at an end. */
  lemma OverlapExact(a: KeyRange, b: KeyRange, ty: DataType)
    requires Typed(a, ty) && Typed(b, ty)
    ensures Overlaps(a, b) <==> exists k :: Scanned(a, k, ty) && Scanned(b, k, ty)
    ensures IsAdjacent(a, b) <==>
            !IsEmpty(a) && !IsEmpty(b) && (End(a, ty) == Start(b, ty) || End(b, ty) == Start(a, ty))
  {
    hide IsEmpty, LowKey, HighKey, Start, End, NullKey, UpperKey, StoredKey;
    Ends(a, ty);
    Ends(b, ty);
    ApartOrShared(Start(a, ty), End(a, ty), Start(b, ty), End(b, ty));
    BoundPlace(Null, ty);
    NullIsFamilyMinimum(ty);
    LessIsIrreflexive(NullKey(ty));
    LessIsIrreflexive(UpperKey(ty));
    hide Less, StoredKey;
    assert (exists k :: Scanned(a, k, ty) && Scanned(b, k, ty)) <==>
           (exists k :: Between(Start(a, ty), k, End(a, ty)) && Between(Start(b, ty), k, End(b, ty))) by {
      assert forall k :: Scanned(a, k, ty) <==> Between(Start(a, ty), k, End(a, ty));
      assert forall k :: Scanned(b, k, ty) <==> Between(Start(b, ty), k, End(b, ty));
    }
  }

  /** Uniting yields one range exactly when one is empty or they overlap or touch, and always covers both. */
  lemma UniteExact(a: KeyRange, b: KeyRange, v: Value, ty: DataType)
    requires Typed(a, ty) && Typed(b, ty) && Fits(v, ty)
    ensures Unite(a, b) == [a, b] || |Unite(a, b)| == 1
    ensures |Unite(a, b)| == 1 <==> IsEmpty(a) || IsEmpty(b) || Overlaps(a, b) || IsAdjacent(a, b)
    ensures Covers(Unite(a, b), v) <==> Contains(a, v) || Contains(b, v)
  {
    EmptyHoldsNothing(a, v);
    EmptyHoldsNothing(b, v);
    hide IsEmpty, Contains, Overlaps, IsAdjacent, Joined;
    CoversSingle(a, v);
    CoversSingle(b, v);
    CoversConcat([a], [b], v);
    assert [a] + [b] == [a, b];
    if !IsEmpty(a) && !IsEmpty(b) && (Overlaps(a, b) || IsAdjacent(a, b)) {
      JoinedExact(a, b, v, ty);
      CoversSingle(Joined(a, b), v);
    }
  }

  /** Results are in normal form, and an untyped side takes the type of the other or of the column. */
  lemma ResultForms(a: KeyRange, b: KeyRange, ty: DataType)
    ensures forall r :: r in {Intersect(a, b), Joined(a, b)} ==> !(r.low == Some(Null) && !r.lowExclusive)
    ensures !IsEmpty(a) && !IsEmpty(b) ==> Intersect(a, b).ty == (if a.ty.Unknown? then b.ty else a.ty)
    ensures Joined(a, b).ty == (if a.ty.Unknown? then b.ty else a.ty)
    ensures Start(All(Unknown), ty) == [TagOf(ty), 0] && End(All(Unknown), ty) == UpperKey(ty)
    ensures !a.ty.Unknown? ==> Start(a, ty) == Start(a, a.ty) && End(a, ty) == End(a, a.ty)
  {
    hide StoredKey, Less;
  }

  /** Ranges are sorted by where they start, and those that start together by where they end. */
  lemma RangeOrderExact(a: KeyRange, b: KeyRange, ty: DataType)
    requires Typed(a, ty) && Typed(b, ty) && !IsEmpty(a) && !IsEmpty(b)
    ensures RangeLess(a, b) <==>
            Less(Start(a, ty), Start(b, ty)) || (Start(a, ty) == Start(b, ty) && Less(End(a, ty), End(b, ty)))
  {
    hide IsEmpty, LowKey, HighKey, Start, End, NullKey, UpperKey, StoredKey;
    Ends(a, ty);
    Ends(b, ty);
    LessIsIrreflexive(NullKey(ty));
    LessIsIrreflexive(UpperKey(ty));
    LessIsIrreflexive(Start(a, ty));
    if LowKey(a).Some? { LessIsStrict(NullKey(ty), LowKey(a).value); }
    if LowKey(b).Some? { LessIsStrict(NullKey(ty), LowKey(b).value); }
    if HighKey(a).Some? { LessIsStrict(HighKey(a).value, UpperKey(ty)); }
    if HighKey(b).Some? { LessIsStrict(HighKey(b).value, UpperKey(ty)); }
    hide Less;
  }

  predicate Between(low: Bytes, k: Bytes, high: Bytes) {
    AtMost(low, k) && Less(k, high)
  }

  lemma ApartOrShared(s: Bytes, e: Bytes, s2: Bytes, e2: Bytes)
    ensures (exists k :: Between(s, k, e) && Between(s2, k, e2)) <==>
            Less(s, e) && Less(s2, e2) && Less(s, e2) && Less(s2, e)
  {
    if k :| Between(s, k, e) && Between(s2, k, e2) {
      hide Less;
      AtMostLess(s, k, e);
      AtMostLess(s2, k, e2);
      AtMostLess(s, k, e2);
      AtMostLess(s2, k, e);
    }
    if Less(s, e) && Less(s2, e2) && Less(s, e2) && Less(s2, e) {
      LessIsTotal(s, s2);
      LessIsIrreflexive(s);
      LessIsIrreflexive(s2);
      hide Less;
      if Less(s, s2) {
        LessIsStrict(s, s2);
        assert Between(s, s2, e) && Between(s2, s2, e2);
      } else {
        assert Between(s, s, e) && Between(s2, s, e2);
      }
    }
  }

  // ------------------------------------------------------------------- plans

  // Nothing to convert, not convertible, or points the cost model finds too many.
  ghost predicate Scans(pkCond: Option<Cond>, ty: DataType, scanIsCheaper: bool) {
    pkCond.None? || !Convertible(pkCond.value) || (scanIsCheaper && PointsOnly(pkCond, ty))
  }

  ghost predicate PointsOnly(pkCond: Option<Cond>, ty: DataType) {
    pkCond.Some? && RangeOfCondition(pkCond.value, ty).Some? &&
    ManyPoints(Candidates(RangeOfCondition(pkCond.value, ty).value, ty))
  }

  ghost predicate ManyPoints(rs: seq<KeyRange>) {
    |rs| >= 2 && forall r :: r in rs ==> IsPoint(r)
  }

  lemma SparseIsManyPoints(rs: seq<KeyRange>)
    ensures IsSparsePointSet(rs) <==> ManyPoints(rs)
  {
    hide IsEmpty;
    if IsSparsePointSet(rs) {
      forall r | r in rs ensures IsPoint(r) {
        var i :| 0 <= i < |rs| && rs[i] == r;
      }
    }
  }

  /**
   Unless it has to scan everything the plan reads exactly the keys that
   satisfy the key condition, and leaves only the rest to the filter.
   */
  lemma ConvertTight(t: Reader, row: Row, text: R.Printer, pkCond: Option<Cond>, remaining: Option<Cond>,
                     pk: string, ty: DataType, scanIsCheaper: bool)
    requires LeavesOf(pkCond, OnlyKey(pk, ty)) && pk in row && Fits(row[pk], ty) && !ty.Unknown?
    ensures var planned := ConvertToKeyRange(text, pkCond, remaining, pk, ty, scanIsCheaper);
            if Scans(pkCond, ty, scanIsCheaper) then
              planned.Ok? ==> planned.plan.ranges == [All(ty)] && !planned.plan.isPoint
            else
              && planned.Ok? && planned.plan.filter == remaining && planned.plan.ranges != []
              && (Covers(planned.plan.ranges, row[pk]) <==> Keeps(t, row, pkCond))
              && (planned.plan.isPoint <==> |planned.plan.ranges| == 1 && IsPoint(planned.plan.ranges[0]))
  {
    hide Covers, RewriteTree, IsSparsePointSet, Candidates, RangeOfCondition, Convertible, ManyPoints, Eval, IsPoint;
    if pkCond.Some? {
      ConvertedExactly(pkCond.value, ty);
      if Convertible(pkCond.value) {
        var rs := Candidates(RangeOfCondition(pkCond.value, ty).value, ty);
        SparseIsManyPoints(rs);
        CandidatesExact(t, row, pkCond.value, pk, ty);
        EmptyCovers(row[pk], ty);
      }
    }
  }

  /**
   Over the whole pipeline: the ranges are those of the key conjuncts of the
   rewritten WHERE, and everything is scanned only when there are none, or when
   they are several points and the cost model prefers it.
   */
  lemma OptimizeTight(t: Reader, row: Row, text: R.Printer, where: Option<Cond>, pk: string, ty: DataType,
                      scanIsCheaper: bool)
    requires M.Faithful(text) && CleanPlan(text, where, pk)
    requires LeavesOf(where, KeyTyped(pk, ty))
    requires pk in row && Fits(row[pk], ty) && !ty.Unknown?
    ensures RewriteTree(text, where).Done?
    ensures var planned := Optimize(text, where, pk, ty, scanIsCheaper);
            var s := Extract(RewriteTree(text, where).tree, pk);
            && RewriteTree(text, s.pk).Done? && planned.Ok?
            && (if s.pk.None? || (scanIsCheaper && PointsOnly(RewriteTree(text, s.pk).tree, ty))
                then planned.plan.ranges == [All(ty)]
                else (Covers(planned.plan.ranges, row[pk]) <==> Keeps(t, row, s.pk)))
  {
    hide Covers, Selected, Separated, M.Faithful, RewriteTree, ConvertToKeyRange, Eval, AllLeaves,
      CleanTree, GoodRanges, PointsOnly, Optimize, Convertible;
    OptimizeExact(t, row, text, where, pk, ty, scanIsCheaper);
    RewriteTreeExact(text, where);
    var tree := RewriteTree(text, where).tree;
    var s := Extract(tree, pk);
    if tree.Some? { SplitLeaves(tree.value, pk, ty); }
    RewriteTreeExact(text, s.pk);
    RewriteTreeExact(text, s.remaining);
    KeyPartConverts(text, tree, pk);
    OptimizeParts(text, where, pk, ty, scanIsCheaper);
    ConvertTight(t, row, text, RewriteTree(text, s.pk).tree, RewriteTree(text, s.remaining).tree, pk, ty, scanIsCheaper);
  }

  lemma KeyPartConverts(text: R.Printer, tree: Option<Cond>, pk: string)
    ensures var r := RewriteTree(text, Extract(tree, pk).pk); r.Done? && r.tree.Some? ==> Convertible(r.tree.value)
  {
    hide Convertible, R.Rewrite;
    var s := Extract(tree, pk);
    if s.pk.Some? {
      SplitTight(tree.value, pk);
      RewriteConverts(text, s.pk.value);
    }
  }

  lemma OptimizeParts(text: R.Printer, where: Option<Cond>, pk: string, ty: DataType, scanIsCheaper: bool)
    requires RewriteTree(text, where).Done?
    requires var s := Extract(RewriteTree(text, where).tree, pk);
             RewriteTree(text, s.pk).Done? && RewriteTree(text, s.remaining).Done?
    ensures var s := Extract(RewriteTree(text, where).tree, pk);
            Optimize(text, where, pk, ty, scanIsCheaper) ==
            ConvertToKeyRange(text, RewriteTree(text, s.pk).tree, RewriteTree(text, s.remaining).tree,
                              pk, ty, scanIsCheaper)
  {
    hide RewriteTree, ConvertToKeyRange, Extract;
  }
}
