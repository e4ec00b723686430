/**
 The optimizer's loops over range and key vectors, each shown to compute the
 corresponding function.
 */
module OptimizerLoops {
  import opened Wrappers
  import opened SqlValues
  import opened Conditions
  import opened KeyRanges
  import opened Optimizer

  lemma Regroup<T>(a: seq<T>, b: seq<T>, c: seq<T>)
    ensures a + (b + c) == (a + b) + c
  {
  }

  method Insert(sorted: seq<KeyRange>, r: KeyRange) returns (next: seq<KeyRange>)
    ensures next == InsertSorted(sorted, r)
  {
    hide RangeLess;
    var at := |sorted|;
    assert sorted[..at] == sorted && sorted[at..] == [];
    while at > 0 && RangeLess(r, sorted[at - 1])
      invariant 0 <= at <= |sorted|
      invariant InsertSorted(sorted, r) == InsertSorted(sorted[..at], r) + sorted[at..]
    {
      assert sorted[..at][..at - 1] == sorted[..at - 1];
      assert sorted[at - 1..] == [sorted[at - 1]] + sorted[at..];
      Regroup(InsertSorted(sorted[..at - 1], r), [sorted[at - 1]], sorted[at..]);
      at := at - 1;
    }
    assert InsertSorted(sorted[..at], r) == sorted[..at] + [r];
    next := sorted[..at] + [r] + sorted[at..];
  }

  method SortRanges(rs: seq<KeyRange>) returns (sorted: seq<KeyRange>)
    ensures sorted == SortOnto([], rs)
  {
    sorted := [];
    for i := 0 to |rs|
      invariant SortOnto(sorted, rs[i..]) == SortOnto([], rs)
    {
      assert rs[i..][1..] == rs[i + 1..];
      sorted := Insert(sorted, rs[i]);
    }
    assert rs[|rs|..] == [];
  }

  method Normalize(ranges: seq<KeyRange>) returns (merged: seq<KeyRange>)
    ensures merged == NormalizeRanges(ranges)
  {
    hide NonEmptyOnly, SortOnto, MergeOnto;
    var kept := KeepNonEmpty(ranges);
    var sorted := SortRanges(kept);
    merged := MergeSorted(sorted);
  }

  method KeepNonEmpty(ranges: seq<KeyRange>) returns (kept: seq<KeyRange>)
    ensures kept == NonEmptyOnly(ranges)
  {
    hide IsEmpty;
    kept := [];
    assert ranges[0..] == ranges && [] + NonEmptyOnly(ranges) == NonEmptyOnly(ranges);
    for i := 0 to |ranges|
      invariant kept + NonEmptyOnly(ranges[i..]) == NonEmptyOnly(ranges)
    {
      NonEmptyNext(ranges, i, kept);
      if !IsEmpty(ranges[i]) {
        kept := kept + [ranges[i]];
      }
    }
    assert kept + [] == kept;
  }

  lemma NonEmptyNext(ranges: seq<KeyRange>, i: nat, kept: seq<KeyRange>)
    requires i < |ranges|
    ensures kept + NonEmptyOnly(ranges[i..]) ==
            (if IsEmpty(ranges[i]) then kept else kept + [ranges[i]]) + NonEmptyOnly(ranges[i + 1..])
  {
    hide IsEmpty;
    assert ranges[i..][1..] == ranges[i + 1..];
    var rest := NonEmptyOnly(ranges[i + 1..]);
    assert NonEmptyOnly(ranges[i..]) == (if IsEmpty(ranges[i]) then [] else [ranges[i]]) + rest;
    hide NonEmptyOnly;
    Regroup(kept, [ranges[i]], rest);
    assert [] + rest == rest;
  }

  method MergeSorted(sorted: seq<KeyRange>) returns (merged: seq<KeyRange>)
    ensures merged == MergeOnto([], sorted)
  {
    hide MergeNext;
    merged := [];
    assert sorted[0..] == sorted;
    for i := 0 to |sorted|
      invariant MergeOnto(merged, sorted[i..]) == MergeOnto([], sorted)
    {
      assert sorted[i..][1..] == sorted[i + 1..];
      merged := MergeStep(merged, sorted[i]);
    }
  }

  method MergeStep(merged: seq<KeyRange>, r: KeyRange) returns (next: seq<KeyRange>)
    ensures next == MergeNext(merged, r)
  {
    if merged != [] {
      var last := merged[|merged| - 1];
      if Overlaps(last, r) || IsAdjacent(last, r) {
        var united := Unite(last, r);
        if |united| == 1 {
          return merged[|merged| - 1 := united[0]];
        }
      }
    }
    return merged + [r];
  }

  method CrossInto(out: seq<KeyRange>, a: KeyRange, b: seq<KeyRange>) returns (result: seq<KeyRange>)
    ensures result == out + Crossed(a, b)
  {
    hide Intersect, IsEmpty;
    result := out;
    for j := 0 to |b|
      invariant result + Crossed(a, b[j..]) == out + Crossed(a, b)
    {
      assert b[j..][1..] == b[j + 1..];
      var inter := Intersect(a, b[j]);
      if !IsEmpty(inter) {
        Regroup(result, [inter], Crossed(a, b[j + 1..]));
        result := result + [inter];
      } else {
        Regroup(result, [], Crossed(a, b[j + 1..]));
        assert result + [] == result;
      }
    }
    assert b[|b|..] == [] && result + [] == result;
  }

  method IntersectAll(a: seq<KeyRange>, b: seq<KeyRange>) returns (r: seq<KeyRange>)
    ensures r == IntersectRanges(a, b)
  {
    hide Crossed, NormalizeRanges;
    var result := [];
    assert a[0..] == a && [] + AllCrossed(a, b) == AllCrossed(a, b);
    for i := 0 to |a|
      invariant result + AllCrossed(a[i..], b) == AllCrossed(a, b)
    {
      assert a[i..][1..] == a[i + 1..];
      Regroup(result, Crossed(a[i], b), AllCrossed(a[i + 1..], b));
      result := CrossInto(result, a[i], b);
    }
    assert a[|a|..] == [] && result + [] == result;
    r := Normalize(result);
  }

  method CoalesceAdjacent(ranges: seq<KeyRange>, ty: DataType) returns (result: seq<KeyRange>)
    ensures result == CoalescePoints(ranges, ty)
  {
    hide IsPoint, PointValue, Closed, CoalesceFrom, RunEnd;
    if !ty.Integer? && !IsTemporal(ty) {
      return ranges;
    }
    result := [];
    var i := 0;
    assert [] + CoalesceFrom(ranges, 0) == CoalesceFrom(ranges, 0);
    while i < |ranges|
      invariant 0 <= i <= |ranges|
      invariant result + CoalesceFrom(ranges, i) == CoalesceFrom(ranges, 0)
    {
      CoalesceNext(ranges, i, result);
      if !IsPoint(ranges[i]) || PointValue(ranges[i]).Null? {
        result := result + [ranges[i]];
        i := i + 1;
        continue;
      }
      var start := PointValue(ranges[i]);
      var last := ExtendRun(ranges, i);
      result := result + [if last > i then Closed(start, PointValue(ranges[last])) else ranges[i]];
      i := last + 1;
    }
    NoneLeft(ranges);
    assert result + [] == result;
  }

  lemma CoalesceNext(ranges: seq<KeyRange>, i: nat, result: seq<KeyRange>)
    requires i < |ranges|
    ensures result + CoalesceFrom(ranges, i) ==
            (result + [HeadOfRun(ranges, i)]) + CoalesceFrom(ranges, LastOfRun(ranges, i) + 1)
  {
    hide HeadOfRun, LastOfRun;
    Regroup(result, [HeadOfRun(ranges, i)], CoalesceFrom(ranges, LastOfRun(ranges, i) + 1));
  }

  lemma NoneLeft(ranges: seq<KeyRange>)
    ensures CoalesceFrom(ranges, |ranges|) == []
  {
  }

  method ExtendRun(ranges: seq<KeyRange>, i: nat) returns (last: nat)
    requires i < |ranges|
    ensures last == RunEnd(ranges, i)
  {
    hide IsPoint, PointValue;
    last := i;
    var end := PointValue(ranges[i]);
    while Continues(ranges, last, end)
      invariant i <= last < |ranges| && end == PointValue(ranges[last])
      invariant RunEnd(ranges, last) == RunEnd(ranges, i)
      decreases |ranges| - last
    {
      last := last + 1;
      end := PointValue(ranges[last]);
    }
  }

  method PointRanges(vs: seq<Value>, ty: DataType) returns (r: seq<KeyRange>)
    ensures r == if PointsOf(vs) == [] then [Empty(ty)] else PointsOf(vs)
  {
    hide Point;
    var result := [];
    assert vs[0..] == vs && [] + PointsOf(vs) == PointsOf(vs);
    for i := 0 to |vs|
      invariant result + PointsOf(vs[i..]) == PointsOf(vs)
    {
      assert vs[i..][1..] == vs[i + 1..];
      if !vs[i].Null? {
        Regroup(result, [Point(vs[i])], PointsOf(vs[i + 1..]));
        result := result + [Point(vs[i])];
      } else {
        Regroup(result, [], PointsOf(vs[i + 1..]));
        assert result + [] == result;
      }
    }
    assert vs[|vs|..] == [] && result + [] == result;
    r := if result == [] then [Empty(ty)] else result;
  }

  method Exclusions(c: Cond, pk: string, out: seq<Value>) returns (r: seq<Value>)
    ensures r == CollectExclusions(c, pk, out)
    decreases c
  {
    hide Excluded;
    r := out;
    if c.And? {
      r := Exclusions(c.left, pk, r);
      r := Exclusions(c.right, pk, r);
    } else if c.Compare? {
      if c.column.name == pk && c.op.NE? && !c.value.Null? {
        r := Add(r, c.value);
      }
    } else if c.In? && c.column.name == pk && c.negated {
      for i := 0 to |c.values|
        invariant AddAll(r, c.values[i..]) == AddAll(out, c.values)
      {
        assert c.values[i..][1..] == c.values[i + 1..];
        if !c.values[i].Null? {
          r := Add(r, c.values[i]);
        }
      }
    }
  }

}
