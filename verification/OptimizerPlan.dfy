/**
 What the plan is made of: merging neighbouring points keeps the cover, SQL
 comparison within a column is key order, and the range built for a comparison
 holds exactly the values on its side of the literal.
 */
module OptimizerPlan {
  import opened Wrappers
  import opened Bytes
  import opened SqlValues
  import opened KeyCodec
  import opened Conditions
  import opened KeyRanges
  import opened Optimizer
  import opened OptimizerRanges

  // --------------------------------------------------------- coalesced points

  lemma {:induction false} RunIsConsecutive(rs: seq<KeyRange>, i: nat, k: nat)
    requires i < |rs| && i <= k <= RunEnd(rs, i) && i < RunEnd(rs, i)
    ensures PointValue(rs[i]).Int? && PointValue(rs[k]).Int?
    ensures PointValue(rs[k]).n == PointValue(rs[i]).n + (k - i)
    ensures k > i ==> IsPoint(rs[k])
    decreases |rs| - i
  {
    hide PointValue, IsPoint;
    if k > i + 1 {
      RunIsConsecutive(rs, i + 1, k);
    }
  }

  lemma PointFits(r: KeyRange, ty: DataType)
    requires Typed(r, ty)
    ensures Fits(PointValue(r), ty)
  {
  }

  lemma ClosedEnds(a: Int64, b: Int64)
    requires a <= b
    ensures var r := Closed(Int(a), Int(b));
            && Typed(r, Integer) && !IsEmpty(r)
            && Start(r, Integer) == StoredKey(Int(a), Integer)
            && End(r, Integer) == StoredKey(Int(b), Integer) + [0]
  {
    var r := Closed(Int(a), Int(b));
    hide StoredKey;
    KeyOrder(Int(a), Int(b), Integer);
    SuccessorExact(StoredKey(Int(a), Integer), StoredKey(Int(b), Integer));
    Ends(r, Integer);
  }

  lemma ClosedExact(a: Int64, b: Int64, v: Value)
    requires a <= b && Fits(v, Integer)
    ensures Contains(Closed(Int(a), Int(b)), v) <==> v.Int? && a <= v.n <= b
  {
    ClosedEnds(a, b);
    hide StoredKey, Contains, Start, End, Closed, IsEmpty, Typed;
    ContainsIsScanned(Closed(Int(a), Int(b)), v, Integer);
    KeyOrder(v, Int(a), Integer);
    KeyOrder(v, Int(b), Integer);
    SuccessorExact(StoredKey(v, Integer), StoredKey(Int(b), Integer));
  }

  // The members of a run, as values.
  lemma RunMember(rs: seq<KeyRange>, i: nat, k: nat, v: Value, ty: DataType)
    requires AllTyped(rs, ty) && Fits(v, ty)
    requires i < |rs| && i < LastOfRun(rs, i) && i <= k <= LastOfRun(rs, i)
    ensures ty.Integer? && PointValue(rs[i]).Int? && PointValue(rs[k]).Int?
    ensures PointValue(rs[k]).n == PointValue(rs[i]).n + (k - i) && IsPoint(rs[k])
    ensures Contains(rs[k], v) <==> v == Int(PointValue(rs[i]).n + (k - i))
  {
    hide Contains, Typed, IsPoint, PointValue, RunEnd;
    RunIsConsecutive(rs, i, k);
    PointFits(rs[i], ty);
    PointExact(rs[k], v, ty);
  }

  // A run covers the same values as the closed range that replaces it.
  lemma RunCovers(rs: seq<KeyRange>, i: nat, v: Value, ty: DataType)
    requires AllTyped(rs, ty) && Fits(v, ty) && i < |rs|
    ensures Contains(HeadOfRun(rs, i), v) <==> Covers(rs[i..LastOfRun(rs, i) + 1], v)
  {
    hide Contains, Typed, IsPoint, PointValue, Closed, LastOfRun;
    var last := LastOfRun(rs, i);
    var run := rs[i..last + 1];
    if last == i {
      assert run == [rs[i]];
      CoversSingle(rs[i], v);
    } else {
      RunMember(rs, i, last, v, ty);
      var a, b := PointValue(rs[i]).n, PointValue(rs[last]).n;
      ClosedExact(a, b, v);
      if v.Int? && a <= v.n <= b {
        RunMember(rs, i, i + (v.n - a), v, ty);
        assert run[v.n - a] == rs[i + (v.n - a)];
      }
      if Covers(run, v) {
        var k :| 0 <= k < |run| && Contains(run[k], v);
        assert run[k] == rs[i + k];
        RunMember(rs, i, i + k, v, ty);
      }
    }
  }

  lemma {:induction false} CoalesceCovers(rs: seq<KeyRange>, i: nat, v: Value, ty: DataType)
    requires AllTyped(rs, ty) && Fits(v, ty) && i <= |rs|
    ensures Covers(CoalesceFrom(rs, i), v) <==> Covers(rs[i..], v)
    decreases |rs| - i
  {
    hide Contains, Covers, Typed, HeadOfRun, LastOfRun;
    if i == |rs| {
      assert CoalesceFrom(rs, i) == [] && rs[i..] == [];
    } else {
      var last, head := LastOfRun(rs, i), HeadOfRun(rs, i);
      var rest := CoalesceFrom(rs, last + 1);
      assert CoalesceFrom(rs, i) == [head] + rest;
      assert Covers(rest, v) <==> Covers(rs[last + 1..], v) by {
        CoalesceCovers(rs, last + 1, v, ty);
      }
      CoversConcat([head], rest, v);
      CoversSingle(head, v);
      SplitAt(rs, i, last + 1);
      CoversConcat(rs[i..last + 1], rs[last + 1..], v);
      RunCovers(rs, i, v, ty);
    }
  }

  lemma SplitAt(rs: seq<KeyRange>, i: nat, j: nat)
    requires i <= j <= |rs|
    ensures rs[i..] == rs[i..j] + rs[j..]
  {
  }

  // The point's own interval starts at its key and reaches no less far than
  // the key's successor.
  lemma PointEnds(r: KeyRange, ty: DataType)
    requires Typed(r, ty) && IsPoint(r) && !PointValue(r).Null?
    ensures Start(r, ty) == StoredKey(PointValue(r), ty)
    ensures AtMost(StoredKey(PointValue(r), ty) + [0], End(r, ty))
  {
    hide UpperKey, StoredKey, NullKey;
    Ends(r, ty);
    var k := StoredKey(PointValue(r), ty);
    SuccessorExact(End(r, ty), k);
    if r.highInclusive {
      LessIsIrreflexive(k + [0]);
    } else {
      KeyOrder(PointValue(r), r.high.value, ty);
      LessIsStrict(k, End(r, ty));
    }
  }

  lemma HeadEnds(rs: seq<KeyRange>, i: nat, ty: DataType)
    requires AllTyped(rs, ty) && AllNonEmpty(rs) && i < |rs|
    ensures var last, head := LastOfRun(rs, i), HeadOfRun(rs, i);
            && Typed(head, ty) && !IsEmpty(head)
            && Start(head, ty) == Start(rs[i], ty) && AtMost(End(head, ty), End(rs[last], ty))
  {
    hide Contains, Typed, IsPoint, PointValue, Closed, Start, End, IsEmpty, StoredKey, LastOfRun;
    var last := LastOfRun(rs, i);
    if last == i {
      LessIsIrreflexive(End(rs[i], ty));
    } else {
      RunMember(rs, i, i, Null, ty);
      RunMember(rs, i, last, Null, ty);
      ClosedEnds(PointValue(rs[i]).n, PointValue(rs[last]).n);
      PointEnds(rs[i], ty);
      PointEnds(rs[last], ty);
    }
  }

  lemma SeparatedCons(r: KeyRange, rs: seq<KeyRange>, ty: DataType)
    requires Separated(rs, ty) && Typed(r, ty) && !IsEmpty(r)
    requires rs != [] ==> Less(End(r, ty), Start(rs[0], ty))
    ensures Separated([r] + rs, ty)
  {
    hide Typed, IsEmpty, Start, End;
    var all := [r] + rs;
    forall i | 0 <= i < |all| - 1
      ensures Gap(all, i, ty)
    {
      if i > 0 {
        assert Gap(rs, i - 1, ty);
        assert all[i] == rs[i - 1] && all[i + 1] == rs[i];
      }
    }
  }

  lemma {:induction false} CoalesceSeparated(rs: seq<KeyRange>, i: nat, ty: DataType)
    requires Separated(rs, ty) && i <= |rs|
    ensures Separated(CoalesceFrom(rs, i), ty)
    ensures i < |rs| ==> CoalesceFrom(rs, i) != [] && Start(CoalesceFrom(rs, i)[0], ty) == Start(rs[i], ty)
    decreases |rs| - i
  {
    if i < |rs| {
      hide Typed, Start, End, IsEmpty, HeadOfRun, LastOfRun;
      var last, head := LastOfRun(rs, i), HeadOfRun(rs, i);
      CoalesceSeparated(rs, last + 1, ty);
      HeadEnds(rs, i, ty);
      if last + 1 < |rs| {
        assert Gap(rs, last, ty);
        AtMostLess(End(head, ty), End(rs[last], ty), Start(rs[last + 1], ty));
      }
      SeparatedCons(head, CoalesceFrom(rs, last + 1), ty);
    }
  }

  /** Coalescing keeps the cover and the ascending order. */
  lemma CoalesceExact(rs: seq<KeyRange>, ty: DataType)
    requires Separated(rs, ty)
    ensures Separated(CoalescePoints(rs, ty), ty)
    ensures forall v :: Fits(v, ty) ==> (Covers(CoalescePoints(rs, ty), v) <==> Covers(rs, v))
  {
    if ty.Integer? || IsTemporal(ty) {
      CoalesceSeparated(rs, 0, ty);
      forall v | Fits(v, ty)
        ensures Covers(CoalescePoints(rs, ty), v) <==> Covers(rs, v)
      {
        CoalesceCovers(rs, 0, v, ty);
        assert rs[0..] == rs;
      }
    }
  }

  // ------------------------------------------------ comparisons and key order

  // On values of one column SQL comparison is the order of the keys.
  lemma CompareByKey(t: Reader, x: Value, v: Value, ty: DataType)
    requires Fits(x, ty) && Fits(v, ty) && !x.Null? && !v.Null?
    ensures SqlOrder(t, x, v) == Some(if x == v then 0 else if Precedes(x, v) then -1 else 1)
  {
  }

  lemma PrecedesIsTotal(x: Value, v: Value, ty: DataType)
    requires Fits(x, ty) && Fits(v, ty)
    ensures x == v || Precedes(x, v) || Precedes(v, x)
    ensures !(x == v && Precedes(x, v)) && !(x == v && Precedes(v, x)) && !(Precedes(x, v) && Precedes(v, x))
  {
    KeyOrder(x, v, ty);
    KeyOrder(v, x, ty);
    LessIsTotal(StoredKey(x, ty), StoredKey(v, ty));
    Asymmetric(StoredKey(x, ty), StoredKey(v, ty));
    LessIsIrreflexive(StoredKey(x, ty));
  }

  // What each factory's range contains, in terms of the column's order.
  lemma FactoryRanges(x: Value, v: Value, ty: DataType)
    requires Fits(x, ty) && Fits(v, ty) && !v.Null? && !ty.Unknown?
    ensures Typed(Point(v), ty) && Typed(Gt(v), ty) && Typed(Ge(v), ty) && Typed(Lt(v), ty) && Typed(Le(v), ty)
    ensures Contains(Point(v), x) <==> x == v
    ensures Contains(Gt(v), x) <==> Precedes(v, x)
    ensures Contains(Ge(v), x) <==> !Precedes(x, v)
    ensures Contains(Lt(v), x) <==> !x.Null? && Precedes(x, v)
    ensures Contains(Le(v), x) <==> !x.Null? && !Precedes(v, x)
  {
    FactoryContains(Point(v), x, ty);
    FactoryContains(Gt(v), x, ty);
    FactoryContains(Ge(v), x, ty);
    FactoryContains(Lt(v), x, ty);
    FactoryContains(Le(v), x, ty);
    PrecedesIsTotal(x, v, ty);
  }

  // A bound admits a value according to the order of values.
  lemma FactoryContains(r: KeyRange, x: Value, ty: DataType)
    requires Typed(r, ty) && Fits(x, ty)
    ensures Contains(r, x) <==>
            && (r.low.Some? ==> if r.lowExclusive then Precedes(r.low.value, x) else !Precedes(x, r.low.value))
            && (r.high.Some? ==> if r.highInclusive then !Precedes(r.high.value, x) else Precedes(x, r.high.value))
  {
    hide StoredKey, NullKey, UpperKey, Contains;
    var k := StoredKey(x, ty);
    ContainsIsScanned(r, x, ty);
    Ends(r, ty);
    BoundPlace(x, ty);
    if r.low.Some? {
      BoundAdmits(r.low.value, x, ty);
    }
    if r.high.Some? {
      BoundAdmits(r.high.value, x, ty);
    }
    if IsEmpty(r) {
      NothingInside(Start(r, ty), End(r, ty), k);
      if LowKey(r).Some? && HighKey(r).Some? && !Less(LowKey(r).value, HighKey(r).value) {
        NothingInside(LowKey(r).value, HighKey(r).value, k);
      }
    }
  }

  lemma BoundAdmits(b: Value, x: Value, ty: DataType)
    requires Fits(b, ty) && Fits(x, ty)
    ensures var k, low := StoredKey(x, ty), StoredKey(b, ty);
            && (AtMost(low, k) <==> !Precedes(x, b)) && (AtMost(low + [0], k) <==> Precedes(b, x))
            && (Less(k, low) <==> Precedes(x, b)) && (Less(k, low + [0]) <==> !Precedes(b, x))
  {
    KeyOrder(x, b, ty);
    PrecedesIsTotal(x, b, ty);
    SuccessorExact(StoredKey(x, ty), StoredKey(b, ty));
  }

}
