/**
 Range lists: normalising, intersecting, uniting and coalescing keep the set of
 values covered, and leave the ranges ascending with gaps between them.
 */
module OptimizerRanges {
  import opened Bytes
  import opened SqlValues
  import opened KeyCodec
  import opened KeyRanges
  import opened Optimizer

  ghost predicate AllTyped(rs: seq<KeyRange>, ty: DataType) {
    forall i :: 0 <= i < |rs| ==> Typed(rs[i], ty)
  }

  predicate AllNonEmpty(rs: seq<KeyRange>) {
    forall i :: 0 <= i < |rs| ==> !IsEmpty(rs[i])
  }

  predicate Covers(rs: seq<KeyRange>, v: Value) {
    exists i :: 0 <= i < |rs| && Contains(rs[i], v)
  }

  // Ascending, and every range ends strictly before the next one starts.
  ghost predicate Separated(rs: seq<KeyRange>, ty: DataType) {
    && AllTyped(rs, ty) && AllNonEmpty(rs)
    && forall i :: 0 <= i < |rs| - 1 ==> Gap(rs, i, ty)
  }

  predicate Gap(rs: seq<KeyRange>, i: nat, ty: DataType)
    requires i + 1 < |rs|
  {
    Less(End(rs[i], ty), Start(rs[i + 1], ty))
  }

  ghost predicate ByStart(rs: seq<KeyRange>, ty: DataType) {
    forall i, j :: 0 <= i < j < |rs| ==> AtMost(Start(rs[i], ty), Start(rs[j], ty))
  }

  lemma CoversConcat(a: seq<KeyRange>, b: seq<KeyRange>, v: Value)
    ensures Covers(a + b, v) <==> Covers(a, v) || Covers(b, v)
  {
    if Covers(a, v) {
      var i :| 0 <= i < |a| && Contains(a[i], v);
      assert (a + b)[i] == a[i];
    }
    if Covers(b, v) {
      var i :| 0 <= i < |b| && Contains(b[i], v);
      assert (a + b)[|a| + i] == b[i];
    }
  }

  lemma CoversSingle(r: KeyRange, v: Value)
    ensures Covers([r], v) <==> Contains(r, v)
  {
    assert [r][0] == r;
  }

  // ---------------------------------------------------------- dropping empties

  lemma {:induction false} NonEmptyOnlyExact(rs: seq<KeyRange>, ty: DataType)
    requires AllTyped(rs, ty)
    ensures AllTyped(NonEmptyOnly(rs), ty) && AllNonEmpty(NonEmptyOnly(rs))
    ensures forall v :: Covers(NonEmptyOnly(rs), v) <==> Covers(rs, v)
  {
    if rs != [] {
      NonEmptyOnlyExact(rs[1..], ty);
      assert rs == [rs[0]] + rs[1..];
      forall v
        ensures Covers(NonEmptyOnly(rs), v) <==> Covers(rs, v)
      {
        CoversConcat([rs[0]], rs[1..], v);
        CoversConcat(if IsEmpty(rs[0]) then [] else [rs[0]], NonEmptyOnly(rs[1..]), v);
        CoversSingle(rs[0], v);
      }
    }
  }

  // ------------------------------------------------------------------ sorting

  // The comparator orders by start, then by end.
  lemma RangeLessByStart(a: KeyRange, b: KeyRange, ty: DataType)
    requires Typed(a, ty) && Typed(b, ty) && !IsEmpty(a) && !IsEmpty(b)
    ensures RangeLess(a, b) ==> AtMost(Start(a, ty), Start(b, ty))
    ensures !RangeLess(a, b) ==> AtMost(Start(b, ty), Start(a, ty))
  {
    hide StoredKey, NullKey, UpperKey, LowKey, HighKey, IsEmpty, Start, End;
    Ends(a, ty);
    Ends(b, ty);
    LessIsTotal(Start(a, ty), Start(b, ty));
    Asymmetric(Start(a, ty), Start(b, ty));
    LessIsIrreflexive(Start(a, ty));
  }

  lemma {:induction false} InsertSortedOk(sorted: seq<KeyRange>, r: KeyRange, ty: DataType)
    requires AllTyped(sorted, ty) && AllNonEmpty(sorted) && ByStart(sorted, ty)
    requires Typed(r, ty) && !IsEmpty(r)
    ensures multiset(InsertSorted(sorted, r)) == multiset(sorted) + multiset{r}
    ensures ByStart(InsertSorted(sorted, r), ty)
  {
    if sorted != [] {
      var n := |sorted| - 1;
      var last := sorted[n];
      assert sorted == sorted[..n] + [last];
      RangeLessByStart(r, last, ty);
      if RangeLess(r, last) {
        InsertSortedOk(sorted[..n], r, ty);
        var out := InsertSorted(sorted[..n], r);
        forall i | 0 <= i < |out|
          ensures AtMost(Start(out[i], ty), Start(last, ty))
        {
          assert out[i] in multiset(out);
          assert out[i] in sorted[..n] || out[i] == r;
        }
      } else {
        forall i | 0 <= i < |sorted|
          ensures AtMost(Start(sorted[i], ty), Start(r, ty))
        {
          if i < n {
            AtMostTransitive(Start(sorted[i], ty), Start(last, ty), Start(r, ty));
          }
        }
      }
    }
  }

  lemma MembersTyped(rs: seq<KeyRange>, bag: multiset<KeyRange>, ty: DataType)
    requires multiset(rs) == bag
    requires forall r :: r in bag ==> Typed(r, ty) && !IsEmpty(r)
    ensures AllTyped(rs, ty) && AllNonEmpty(rs)
  {
    forall i | 0 <= i < |rs|
      ensures Typed(rs[i], ty) && !IsEmpty(rs[i])
    {
      assert rs[i] in multiset(rs);
    }
  }

  lemma {:induction false} SortOntoOk(sorted: seq<KeyRange>, rs: seq<KeyRange>, ty: DataType)
    requires AllTyped(sorted, ty) && AllNonEmpty(sorted) && ByStart(sorted, ty)
    requires AllTyped(rs, ty) && AllNonEmpty(rs)
    ensures multiset(SortOnto(sorted, rs)) == multiset(sorted) + multiset(rs)
    ensures AllTyped(SortOnto(sorted, rs), ty) && AllNonEmpty(SortOnto(sorted, rs))
    ensures ByStart(SortOnto(sorted, rs), ty)
    decreases |rs|
  {
    if rs != [] {
      InsertSortedOk(sorted, rs[0], ty);
      MembersTyped(InsertSorted(sorted, rs[0]), multiset(sorted) + multiset{rs[0]}, ty);
      SortOntoOk(InsertSorted(sorted, rs[0]), rs[1..], ty);
      assert rs == [rs[0]] + rs[1..];
    }
  }

  lemma SameBagCovers(a: seq<KeyRange>, b: seq<KeyRange>, v: Value)
    requires multiset(a) == multiset(b)
    ensures Covers(a, v) <==> Covers(b, v)
  {
    if Covers(a, v) {
      var i :| 0 <= i < |a| && Contains(a[i], v);
      assert a[i] in multiset(b);
    }
    if Covers(b, v) {
      var i :| 0 <= i < |b| && Contains(b[i], v);
      assert b[i] in multiset(a);
    }
  }

  // ------------------------------------------------------------------ merging

  // A later range that does not reach back to `last` leaves a gap behind it.
  lemma GapOrReach(last: KeyRange, r: KeyRange, ty: DataType)
    requires Typed(last, ty) && Typed(r, ty) && !IsEmpty(last) && !IsEmpty(r)
    requires AtMost(Start(last, ty), Start(r, ty))
    ensures !(Overlaps(last, r) || IsAdjacent(last, r)) ==> Less(End(last, ty), Start(r, ty))
    ensures Overlaps(last, r) || IsAdjacent(last, r) ==>
              Start(Joined(last, r), ty) == Start(last, ty)
  {
    hide Start, End, IsEmpty, Overlaps, IsAdjacent, Joined;
    OverlapOrTouch(last, r, ty);
    JoinedEnds(last, r, ty);
    Ends(r, ty);
    AtMostLess(Start(last, ty), Start(r, ty), End(r, ty));
    LessIsStrict(Start(last, ty), End(r, ty));
  }

  lemma SeparatedSnoc(rs: seq<KeyRange>, r: KeyRange, ty: DataType)
    requires Separated(rs, ty) && Typed(r, ty) && !IsEmpty(r)
    requires rs != [] ==> Less(End(rs[|rs| - 1], ty), Start(r, ty))
    ensures Separated(rs + [r], ty)
  {
    hide Typed, IsEmpty, Start, End;
    forall i | 0 <= i < |rs + [r]| - 1
      ensures Gap(rs + [r], i, ty)
    {
      assert i < |rs| - 1 ==> Gap(rs, i, ty);
    }
  }

  lemma SeparatedPrefix(rs: seq<KeyRange>, n: nat, ty: DataType)
    requires Separated(rs, ty) && n <= |rs|
    ensures Separated(rs[..n], ty)
  {
    hide Typed, IsEmpty, Start, End;
    forall i | 0 <= i < n - 1
      ensures Gap(rs[..n], i, ty)
    {
      assert Gap(rs, i, ty);
    }
  }

  lemma MergeNextOk(merged: seq<KeyRange>, r: KeyRange, ty: DataType)
    requires Separated(merged, ty) && Typed(r, ty) && !IsEmpty(r)
    requires merged != [] ==> AtMost(Start(merged[|merged| - 1], ty), Start(r, ty))
    ensures var next := MergeNext(merged, r);
            && Separated(next, ty) && next != []
            && AtMost(Start(next[|next| - 1], ty), Start(r, ty))
  {
    hide Start, End, IsEmpty, Overlaps, IsAdjacent, Joined, Typed;
    LessIsIrreflexive(Start(r, ty));
    if merged == [] {
      assert MergeNext(merged, r) == [r];
      SeparatedSnoc([], r, ty);
      assert [] + [r] == [r];
    } else {
      var n := |merged| - 1;
      var last := merged[n];
      GapOrReach(last, r, ty);
      if Overlaps(last, r) || IsAdjacent(last, r) {
        JoinedEnds(last, r, ty);
        SeparatedPrefix(merged, n, ty);
        if n > 0 {
          assert Gap(merged, n - 1, ty);
          assert merged[..n][n - 1] == merged[n - 1];
        }
        SeparatedSnoc(merged[..n], Joined(last, r), ty);
      } else {
        SeparatedSnoc(merged, r, ty);
      }
    }
  }

  lemma MergeNextCovers(merged: seq<KeyRange>, r: KeyRange, v: Value, ty: DataType)
    requires AllTyped(merged, ty) && AllNonEmpty(merged) && Typed(r, ty) && !IsEmpty(r) && Fits(v, ty)
    ensures Covers(MergeNext(merged, r), v) <==> Covers(merged, v) || Contains(r, v)
  {
    CoversSingle(r, v);
    CoversConcat(merged, [r], v);
    if merged != [] {
      var n := |merged| - 1;
      var last := merged[n];
      if Overlaps(last, r) || IsAdjacent(last, r) {
        hide Contains, Overlaps, IsAdjacent, Joined, Typed;
        JoinedExact(last, r, v, ty);
        CoversConcat(merged[..n], [Joined(last, r)], v);
        CoversConcat(merged[..n], [last], v);
        CoversSingle(last, v);
        CoversSingle(Joined(last, r), v);
        assert merged == merged[..n] + [last];
      }
    }
  }

  lemma {:induction false} MergeOntoOk(merged: seq<KeyRange>, rs: seq<KeyRange>, ty: DataType)
    requires Separated(merged, ty) && AllTyped(rs, ty) && AllNonEmpty(rs) && ByStart(rs, ty)
    requires merged != [] && rs != [] ==> AtMost(Start(merged[|merged| - 1], ty), Start(rs[0], ty))
    ensures Separated(MergeOnto(merged, rs), ty)
    decreases |rs|
  {
    hide Start, End, IsEmpty, Typed, MergeNext, Separated;
    if rs != [] {
      MergeNextOk(merged, rs[0], ty);
      var next := MergeNext(merged, rs[0]);
      if |rs| > 1 {
        AtMostTransitive(Start(next[|next| - 1], ty), Start(rs[0], ty), Start(rs[1], ty));
      }
      MergeOntoOk(next, rs[1..], ty);
    }
  }

  lemma {:induction false} MergeOntoCovers(merged: seq<KeyRange>, rs: seq<KeyRange>, v: Value, ty: DataType)
    requires Separated(merged, ty) && AllTyped(rs, ty) && AllNonEmpty(rs) && ByStart(rs, ty) && Fits(v, ty)
    requires merged != [] && rs != [] ==> AtMost(Start(merged[|merged| - 1], ty), Start(rs[0], ty))
    ensures Covers(MergeOnto(merged, rs), v) <==> Covers(merged, v) || Covers(rs, v)
    decreases |rs|
  {
    hide Start, End, IsEmpty, Typed, MergeNext, Contains;
    if rs != [] {
      MergeNextOk(merged, rs[0], ty);
      MergeNextCovers(merged, rs[0], v, ty);
      var next := MergeNext(merged, rs[0]);
      if |rs| > 1 {
        AtMostTransitive(Start(next[|next| - 1], ty), Start(rs[0], ty), Start(rs[1], ty));
      }
      MergeOntoCovers(next, rs[1..], v, ty);
      CoversConcat([rs[0]], rs[1..], v);
      CoversSingle(rs[0], v);
      assert rs == [rs[0]] + rs[1..];
    }
  }

  /** Normalised ranges are ascending with gaps, and cover exactly what they did. */
  lemma NormalizeExact(rs: seq<KeyRange>, ty: DataType)
    requires AllTyped(rs, ty)
    ensures Separated(NormalizeRanges(rs), ty)
    ensures forall v :: Fits(v, ty) ==> (Covers(NormalizeRanges(rs), v) <==> Covers(rs, v))
  {
    var kept := NonEmptyOnly(rs);
    NonEmptyOnlyExact(rs, ty);
    var sorted := SortOnto([], kept);
    SortOntoOk([], kept, ty);
    MergeOntoOk([], sorted, ty);
    forall v | Fits(v, ty)
      ensures Covers(NormalizeRanges(rs), v) <==> Covers(rs, v)
    {
      SameBagCovers(sorted, kept, v);
      MergeOntoCovers([], sorted, v, ty);
    }
  }

  // ----------------------------------------------------- intersection and union

  lemma EmptyHoldsNothing(r: KeyRange, v: Value)
    ensures IsEmpty(r) ==> !Contains(r, v)
  {
  }

  lemma IntersectTyped(a: KeyRange, b: KeyRange, ty: DataType)
    requires Typed(a, ty) && Typed(b, ty)
    ensures !IsEmpty(Intersect(a, b)) ==> Typed(Intersect(a, b), ty)
  {
    if !IsEmpty(a) && !IsEmpty(b) {
      IntersectEnds(a, b, ty);
    }
  }

  lemma {:induction false} CrossedOk(a: KeyRange, bs: seq<KeyRange>, ty: DataType)
    requires Typed(a, ty) && AllTyped(bs, ty)
    ensures AllTyped(Crossed(a, bs), ty)
    ensures forall v :: Fits(v, ty) ==> (Covers(Crossed(a, bs), v) <==> Contains(a, v) && Covers(bs, v))
  {
    if bs != [] {
      CrossedOk(a, bs[1..], ty);
      hide Contains, Intersect, Typed, IsEmpty;
      var inter := Intersect(a, bs[0]);
      var head := if IsEmpty(inter) then [] else [inter];
      IntersectTyped(a, bs[0], ty);
      forall v | Fits(v, ty)
        ensures Covers(Crossed(a, bs), v) <==> Contains(a, v) && Covers(bs, v)
      {
        IntersectExact(a, bs[0], v, ty);
        EmptyHoldsNothing(inter, v);
        CoversSingle(inter, v);
        CoversConcat(head, Crossed(a, bs[1..]), v);
        CoversConcat([bs[0]], bs[1..], v);
        CoversSingle(bs[0], v);
        assert bs == [bs[0]] + bs[1..];
      }
    }
  }

  lemma {:induction false} AllCrossedOk(as_: seq<KeyRange>, bs: seq<KeyRange>, ty: DataType)
    requires AllTyped(as_, ty) && AllTyped(bs, ty)
    ensures AllTyped(AllCrossed(as_, bs), ty)
    ensures forall v :: Fits(v, ty) ==> (Covers(AllCrossed(as_, bs), v) <==> Covers(as_, v) && Covers(bs, v))
  {
    if as_ != [] {
      hide Contains, Typed, Crossed;
      AllCrossedOk(as_[1..], bs, ty);
      CrossedOk(as_[0], bs, ty);
      forall v | Fits(v, ty)
        ensures Covers(AllCrossed(as_, bs), v) <==> Covers(as_, v) && Covers(bs, v)
      {
        CoversConcat(Crossed(as_[0], bs), AllCrossed(as_[1..], bs), v);
        CoversConcat([as_[0]], as_[1..], v);
        CoversSingle(as_[0], v);
        assert as_ == [as_[0]] + as_[1..];
      }
    }
  }

  /** The intersection of two lists covers what both cover. */
  lemma IntersectRangesExact(as_: seq<KeyRange>, bs: seq<KeyRange>, ty: DataType)
    requires AllTyped(as_, ty) && AllTyped(bs, ty)
    ensures Separated(IntersectRanges(as_, bs), ty)
    ensures forall v :: Fits(v, ty) ==>
              (Covers(IntersectRanges(as_, bs), v) <==> Covers(as_, v) && Covers(bs, v))
  {
    AllCrossedOk(as_, bs, ty);
    NormalizeExact(AllCrossed(as_, bs), ty);
  }

  /** The union covers what either covers. */
  lemma UniteRangesExact(as_: seq<KeyRange>, bs: seq<KeyRange>, ty: DataType)
    requires AllTyped(as_, ty) && AllTyped(bs, ty)
    ensures Separated(UniteRanges(as_, bs), ty)
    ensures forall v :: Fits(v, ty) ==>
              (Covers(UniteRanges(as_, bs), v) <==> Covers(as_, v) || Covers(bs, v))
  {
    NormalizeExact(as_ + bs, ty);
    forall v | Fits(v, ty)
      ensures Covers(UniteRanges(as_, bs), v) <==> Covers(as_, v) || Covers(bs, v)
    {
      CoversConcat(as_, bs, v);
    }
  }

}
