/**
 The bounded heap behind ORDER BY with LIMIT: a binary max-heap of rows whose
 front is the worst row kept so far.
 */
module RowHeap {
  import opened SqlValues
  import opened Conditions
  import opened RowOrder

  // Rows of one table under comparator keys that tell any two of them apart.
  ghost predicate Linear(t: Reader, s: Schema, keys: seq<SortKey>, bag: multiset<Row>) {
    && KnownColumns(s, keys)
    && (forall a :: a in bag ==> RowFits(s, a))
    && (forall a, b :: a in bag && b in bag && a != b ==> RowLess(t, keys, a, b) || RowLess(t, keys, b, a))
  }

  function Parent(i: nat): nat
    requires i > 0
  {
    (i - 1) / 2
  }

  // No parent sorts before its child.
  predicate HeapAt(t: Reader, keys: seq<SortKey>, h: seq<Row>, i: nat)
    requires i < |h|
  {
    i > 0 ==> !RowLess(t, keys, h[Parent(i)], h[i])
  }

  predicate IsHeap(t: Reader, keys: seq<SortKey>, h: seq<Row>) {
    forall i :: 0 <= i < |h| ==> HeapAt(t, keys, h, i)
  }

  lemma {:induction false} RowLessIrreflexive(t: Reader, keys: seq<SortKey>, a: Row)
    requires forall i :: 0 <= i < |keys| ==> keys[i].column in a
    requires forall i :: 0 <= i < |keys| ==> CompareForSort(t, a[keys[i].column], a[keys[i].column]) == 0
    ensures !RowLess(t, keys, a, a)
  {
    if keys != [] {
      RowLessIrreflexive(t, keys[1..], a);
    }
  }

  lemma NotBeforeItself(t: Reader, s: Schema, keys: seq<SortKey>, a: Row)
    requires RowFits(s, a) && KnownColumns(s, keys)
    ensures !RowLess(t, keys, a, a)
  {
    forall i | 0 <= i < |keys|
      ensures CompareForSort(t, a[keys[i].column], a[keys[i].column]) == 0
    {
      CompareIsOrder(t, a[keys[i].column], a[keys[i].column], s.columns[keys[i].column]);
    }
    RowLessIrreflexive(t, keys, a);
  }

  lemma NotBefore(t: Reader, s: Schema, keys: seq<SortKey>, bag: multiset<Row>, a: Row, b: Row, c: Row)
    requires Linear(t, s, keys, bag) && a in bag && b in bag && c in bag
    requires !RowLess(t, keys, a, b) && !RowLess(t, keys, b, c)
    ensures !RowLess(t, keys, a, c)
  {
    hide RowLess, RowFits;
    if a != b && b != c {
      RowLessTransitive(t, s, keys, c, b, a);
      RowLessAsymmetric(t, s, keys, c, a);
    }
  }

  lemma Flip(t: Reader, s: Schema, keys: seq<SortKey>, bag: multiset<Row>, a: Row, b: Row)
    requires Linear(t, s, keys, bag) && a in bag && b in bag && RowLess(t, keys, a, b)
    ensures !RowLess(t, keys, b, a)
  {
    RowLessAsymmetric(t, s, keys, a, b);
  }

  /** The front of a heap is a worst row: nothing in the heap sorts after it. */
  lemma {:induction false} FrontIsWorst(t: Reader, s: Schema, keys: seq<SortKey>, h: seq<Row>, i: nat)
    requires Linear(t, s, keys, multiset(h)) && IsHeap(t, keys, h) && i < |h|
    ensures !RowLess(t, keys, h[0], h[i])
  {
    hide RowLess;
    if i == 0 {
      assert h[0] in multiset(h);
      NotBeforeItself(t, s, keys, h[0]);
    } else {
      FrontIsWorst(t, s, keys, h, Parent(i));
      assert HeapAt(t, keys, h, i);
      NotBefore(t, s, keys, multiset(h), h[0], h[Parent(i)], h[i]);
    }
  }

  function Swap(h: seq<Row>, i: nat, j: nat): (r: seq<Row>)
    requires i < |h| && j < |h|
    ensures |r| == |h| && r[i] == h[j] && r[j] == h[i]
    ensures forall k :: 0 <= k < |h| && k != i && k != j ==> r[k] == h[k]
    ensures multiset(r) == multiset(h)
  {
    h[i := h[j]][j := h[i]]
  }

  // Everything is in place except possibly the row at `hole` and its parent.
  ghost predicate AlmostUp(t: Reader, keys: seq<SortKey>, h: seq<Row>, hole: nat) {
    && hole < |h|
    && (forall i :: 0 <= i < |h| && i != hole ==> HeapAt(t, keys, h, i))
    && (forall i :: 0 < i < |h| && Parent(i) == hole && hole > 0 ==> !RowLess(t, keys, h[Parent(hole)], h[i]))
  }

  lemma StepUp(t: Reader, s: Schema, keys: seq<SortKey>, h: seq<Row>, hole: nat)
    requires Linear(t, s, keys, multiset(h)) && AlmostUp(t, keys, h, hole) && hole > 0
    requires RowLess(t, keys, h[Parent(hole)], h[hole])
    ensures AlmostUp(t, keys, Swap(h, Parent(hole), hole), Parent(hole))
  {
    hide RowLess, RowFits;
    var p := Parent(hole);
    var g := Swap(h, p, hole);
    assert h[p] in multiset(h) && h[hole] in multiset(h);
    Flip(t, s, keys, multiset(h), h[p], h[hole]);
    forall i | 0 <= i < |g| && i != p
      ensures HeapAt(t, keys, g, i)
    {
      assert i == hole || HeapAt(t, keys, h, i);
      if i > 0 && i != hole && Parent(i) == p {
        assert h[i] in multiset(h);
        NotBefore(t, s, keys, multiset(h), h[hole], h[p], h[i]);
      }
    }
    forall i | 0 < i < |g| && Parent(i) == p && p > 0
      ensures !RowLess(t, keys, g[Parent(p)], g[i])
    {
      assert HeapAt(t, keys, h, p);
      if i != hole {
        assert HeapAt(t, keys, h, i);
        assert h[i] in multiset(h) && h[Parent(p)] in multiset(h);
        NotBefore(t, s, keys, multiset(h), h[Parent(p)], h[p], h[i]);
      }
    }
  }

  /** Sifts the last row up into a heap. */
  method PushHeap(t: Reader, ghost s: Schema, keys: seq<SortKey>, rows: seq<Row>) returns (h: seq<Row>)
    requires rows != [] && Linear(t, s, keys, multiset(rows))
    requires IsHeap(t, keys, rows[..|rows| - 1])
    ensures IsHeap(t, keys, h) && multiset(h) == multiset(rows)
  {
    hide RowLess, RowFits, Linear;
    h := rows;
    var hole: nat := |h| - 1;
    assert AlmostUp(t, keys, h, hole) by {
      forall i | 0 <= i < |h| && i != hole
        ensures HeapAt(t, keys, h, i)
      {
        assert HeapAt(t, keys, rows[..|rows| - 1], i);
      }
    }
    while hole > 0 && RowLess(t, keys, h[Parent(hole)], h[hole])
      invariant hole < |h| == |rows| && multiset(h) == multiset(rows)
      invariant AlmostUp(t, keys, h, hole)
    {
      StepUp(t, s, keys, h, hole);
      h := Swap(h, Parent(hole), hole);
      hole := Parent(hole);
    }
  }

  // Everything is in place except possibly the row at `hole` and its children.
  ghost predicate AlmostDown(t: Reader, keys: seq<SortKey>, h: seq<Row>, hole: nat) {
    && hole < |h|
    && (forall i :: 0 < i < |h| && Parent(i) != hole ==> HeapAt(t, keys, h, i))
    && (forall i :: 0 < i < |h| && Parent(i) == hole && hole > 0 ==> !RowLess(t, keys, h[Parent(hole)], h[i]))
  }

  lemma StepDown(t: Reader, s: Schema, keys: seq<SortKey>, h: seq<Row>, hole: nat, child: nat)
    requires Linear(t, s, keys, multiset(h)) && AlmostDown(t, keys, h, hole)
    requires 0 < child < |h| && Parent(child) == hole && RowLess(t, keys, h[hole], h[child])
    requires forall i :: 0 < i < |h| && Parent(i) == hole ==> !RowLess(t, keys, h[child], h[i])
    ensures AlmostDown(t, keys, Swap(h, hole, child), child)
  {
    hide RowLess, RowFits;
    var g := Swap(h, hole, child);
    assert h[hole] in multiset(h) && h[child] in multiset(h);
    Flip(t, s, keys, multiset(h), h[hole], h[child]);
    forall i | 0 < i < |g| && Parent(i) != child
      ensures HeapAt(t, keys, g, i)
    {
      if Parent(i) != hole && i != hole {
        assert HeapAt(t, keys, h, i);
      }
    }
    forall i | 0 < i < |g| && Parent(i) == child
      ensures !RowLess(t, keys, g[Parent(child)], g[i])
    {
      assert HeapAt(t, keys, h, i);
    }
  }

  /** Moves the front to the back and restores the heap before it. */
  method PopHeap(t: Reader, ghost s: Schema, keys: seq<SortKey>, rows: seq<Row>) returns (h: seq<Row>)
    requires rows != [] && Linear(t, s, keys, multiset(rows)) && IsHeap(t, keys, rows)
    ensures |h| == |rows| && h[|h| - 1] == rows[0] && multiset(h) == multiset(rows)
    ensures IsHeap(t, keys, h[..|h| - 1])
  {
    hide RowLess, RowFits, Linear;
    var n := |rows| - 1;
    var swapped := Swap(rows, 0, n);
    var front := swapped[..n];
    ghost var bag := multiset(front);
    assert swapped == front + [rows[0]];
    assert Linear(t, s, keys, bag) by {
      SmallerBag(t, s, keys, multiset(rows), bag);
    }
    if n > 0 {
      assert AlmostDown(t, keys, front, 0) by {
        forall i | 0 < i < |front| && Parent(i) != 0
          ensures HeapAt(t, keys, front, i)
        {
          assert HeapAt(t, keys, rows, i);
        }
      }
      front := SiftDown(t, s, keys, front);
    }
    h := front + [rows[0]];
    assert h[..n] == front;
  }

  lemma SmallerBag(t: Reader, s: Schema, keys: seq<SortKey>, bag: multiset<Row>, part: multiset<Row>)
    requires Linear(t, s, keys, bag) && part <= bag
    ensures Linear(t, s, keys, part)
  {
    hide RowLess, RowFits;
  }

  method SiftDown(t: Reader, ghost s: Schema, keys: seq<SortKey>, rows: seq<Row>) returns (h: seq<Row>)
    requires Linear(t, s, keys, multiset(rows)) && AlmostDown(t, keys, rows, 0)
    ensures IsHeap(t, keys, h) && multiset(h) == multiset(rows) && |h| == |rows|
  {
    hide RowLess, RowFits, Linear;
    h := rows;
    var hole: nat := 0;
    while 2 * hole + 1 < |h|
      invariant hole < |h| == |rows| && multiset(h) == multiset(rows)
      invariant AlmostDown(t, keys, h, hole)
      decreases |h| - hole
    {
      var child := WorseChild(t, s, keys, h, hole);
      if !RowLess(t, keys, h[hole], h[child]) {
        assert IsHeap(t, keys, h) by {
          Settled(t, s, keys, h, hole, child);
        }
        return;
      }
      StepDown(t, s, keys, h, hole, child);
      h := Swap(h, hole, child);
      hole := child;
    }
  }

  lemma Settled(t: Reader, s: Schema, keys: seq<SortKey>, h: seq<Row>, hole: nat, child: nat)
    requires Linear(t, s, keys, multiset(h)) && AlmostDown(t, keys, h, hole)
    requires 0 < child < |h| && Parent(child) == hole && !RowLess(t, keys, h[hole], h[child])
    requires forall i :: 0 < i < |h| && Parent(i) == hole ==> !RowLess(t, keys, h[child], h[i])
    ensures IsHeap(t, keys, h)
  {
    hide RowLess, RowFits;
    forall i | 0 < i < |h| && Parent(i) == hole
      ensures HeapAt(t, keys, h, i)
    {
      assert h[i] in multiset(h) && h[hole] in multiset(h) && h[child] in multiset(h);
      NotBefore(t, s, keys, multiset(h), h[hole], h[child], h[i]);
    }
  }

  method WorseChild(t: Reader, ghost s: Schema, keys: seq<SortKey>, h: seq<Row>, hole: nat) returns (child: nat)
    requires Linear(t, s, keys, multiset(h)) && 2 * hole + 1 < |h|
    ensures 0 < child < |h| && Parent(child) == hole
    ensures forall i :: 0 < i < |h| && Parent(i) == hole ==> !RowLess(t, keys, h[child], h[i])
  {
    hide RowLess, RowFits;
    child := 2 * hole + 1;
    ghost var left, right := child, child + 1;
    assert h[left] in multiset(h);
    NotBeforeItself(t, s, keys, h[left]);
    assert forall i :: 0 < i < |h| && Parent(i) == hole ==> i == left || i == right;
    if child + 1 < |h| {
      assert h[right] in multiset(h);
      NotBeforeItself(t, s, keys, h[right]);
      if RowLess(t, keys, h[child], h[child + 1]) {
        Flip(t, s, keys, multiset(h), h[left], h[right]);
        child := child + 1;
      }
    }
  }

}
