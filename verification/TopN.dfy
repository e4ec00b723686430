/**
 Keeping only the first `k` rows of a sort while rows arrive one by one: a full
 buffer changes only when the new row beats its worst member.
 */
module TopN {
  import opened SqlValues
  import opened Conditions
  import opened RowOrder
  import opened Execution
  import opened RowHeap

  function Top(t: Reader, keys: seq<SortKey>, rows: seq<Row>, k: nat): seq<Row> {
    Take(SortRows(t, keys, rows), k)
  }

  lemma {:induction false} TakeInsert(t: Reader, keys: seq<SortKey>, sorted: seq<Row>, row: Row, k: nat)
    ensures Take(InsertRow(t, keys, sorted, row), k) == Take(InsertRow(t, keys, Take(sorted, k), row), k)
  {
    hide RowLess;
    if k < |sorted| && k > 0 {
      var cut := Take(sorted, k);
      assert cut[0] == sorted[0] && cut[1..] == Take(sorted[1..], k - 1);
      if !RowLess(t, keys, row, sorted[0]) {
        TakeInsert(t, keys, sorted[1..], row, k - 1);
        TakeCons(sorted[0], InsertRow(t, keys, sorted[1..], row), k);
        TakeCons(sorted[0], InsertRow(t, keys, cut[1..], row), k);
      } else {
        TakeCons(row, sorted, k);
        TakeCons(row, cut, k);
        assert Take(cut, k - 1) == Take(sorted, k - 1);
      }
    } else if k == 0 {
      assert Take(InsertRow(t, keys, sorted, row), 0) == [];
      assert Take(InsertRow(t, keys, Take(sorted, 0), row), 0) == [];
    } else {
      assert Take(sorted, k) == sorted;
    }
  }

  lemma TakeCons(x: Row, rest: seq<Row>, k: nat)
    requires k > 0
    ensures Take([x] + rest, k) == [x] + Take(rest, k - 1)
  {
  }

  lemma {:induction false} InsertAtEnd(t: Reader, keys: seq<SortKey>, sorted: seq<Row>, row: Row)
    requires forall i :: 0 <= i < |sorted| ==> !RowLess(t, keys, row, sorted[i])
    ensures InsertRow(t, keys, sorted, row) == sorted + [row]
  {
    if sorted != [] {
      InsertAtEnd(t, keys, sorted[1..], row);
    }
  }

  lemma {:induction false} InsertBeforeLast(t: Reader, keys: seq<SortKey>, sorted: seq<Row>, row: Row)
    requires sorted != [] && RowLess(t, keys, row, sorted[|sorted| - 1])
    ensures |InsertRow(t, keys, sorted, row)| == |sorted| + 1
    ensures InsertRow(t, keys, sorted, row)[|sorted|] == sorted[|sorted| - 1]
  {
    if !RowLess(t, keys, row, sorted[0]) {
      InsertBeforeLast(t, keys, sorted[1..], row);
    }
  }

  // ------------------------------------------------------------ comparability

  lemma {:induction false} ComparablePrefix(t: Reader, s: Schema, keys: seq<SortKey>, rows: seq<Row>, n: nat)
    requires Comparable(t, s, keys, rows) && n <= |rows|
    ensures Comparable(t, s, keys, rows[..n])
  {
  }

  lemma RowsAreLinear(t: Reader, s: Schema, keys: seq<SortKey>, rows: seq<Row>)
    requires Comparable(t, s, keys, rows)
    ensures Linear(t, s, keys, multiset(rows))
  {
    hide RowLess;
    var k :| 0 <= k < |keys| && keys[k].column == s.pk;
    forall a, b | a in multiset(rows) && b in multiset(rows) && a != b
      ensures RowLess(t, keys, a, b) || RowLess(t, keys, b, a)
    {
      var i :| 0 <= i < |rows| && rows[i] == a;
      var j :| 0 <= j < |rows| && rows[j] == b;
      assert if i < j then Apart(s.pk, rows[i], rows[j]) else Apart(s.pk, rows[j], rows[i]);
      RowLessTotal(t, s, keys, a, b, k);
    }
    forall a | a in multiset(rows)
      ensures RowFits(s, a)
    {
      var i :| 0 <= i < |rows| && rows[i] == a;
    }
  }

  // --------------------------------------------------------------- one row more

  lemma SortSnoc(t: Reader, keys: seq<SortKey>, rows: seq<Row>, n: nat)
    requires n < |rows|
    ensures SortRows(t, keys, rows[..n + 1]) == InsertRow(t, keys, SortRows(t, keys, rows[..n]), rows[n])
  {
    assert rows[..n + 1][..n] == rows[..n];
  }

  // Facts about the rows kept so far and the one that arrives.
  lemma KeptFacts(t: Reader, s: Schema, keys: seq<SortKey>, rows: seq<Row>, n: nat, k: nat)
    requires Comparable(t, s, keys, rows) && n < |rows|
    ensures var kept := Top(t, keys, rows[..n], k);
            && RowsFit(s, kept) && Ordered(t, keys, kept) && RowFits(s, rows[n])
            && multiset(kept) <= multiset(rows[..n]) && KnownColumns(s, keys)
            && (forall i :: 0 <= i < |kept| ==>
                  RowLess(t, keys, rows[n], kept[i]) || RowLess(t, keys, kept[i], rows[n]))
  {
    hide RowLess, RowFits, SortRows, Ordered, Comparable;
    ComparablePrefix(t, s, keys, rows, n);
    SortRowsOk(t, s, keys, rows[..n]);
    var sorted := SortRows(t, keys, rows[..n]);
    ComparablePrefix(t, s, keys, rows, n + 1);
    var all := rows[..n + 1];
    assert all[..n] == rows[..n] && all[n] == rows[n];
    ComparableParts(t, s, keys, all);
    LastComparable(t, s, keys, all, sorted);
    BagFits(s, sorted, rows[..n]);
    TakeOrdered(t, keys, sorted, k);
    TakeBag(sorted, k);
  }

  lemma TakeOrdered(t: Reader, keys: seq<SortKey>, rows: seq<Row>, k: nat)
    requires Ordered(t, keys, rows)
    ensures Ordered(t, keys, Take(rows, k))
  {
    hide RowLess;
  }

  lemma TakeBag(rows: seq<Row>, k: nat)
    ensures multiset(Take(rows, k)) <= multiset(rows)
  {
    var kept := Take(rows, k);
    assert rows == kept + rows[|kept|..];
  }

  lemma LastDropped(kept: seq<Row>, row: Row, grown: seq<Row>, k: nat)
    requires 0 < k == |kept| && |grown| == k + 1 && grown[k] == kept[k - 1]
    requires multiset(grown) == multiset(kept) + multiset{row}
    ensures multiset(Take(grown, k)) == multiset(kept) - multiset{kept[k - 1]} + multiset{row}
  {
    assert grown == grown[..k] + [grown[k]];
    assert kept == kept[..k - 1] + [kept[k - 1]];
    var last, rest := multiset{kept[k - 1]}, multiset(kept[..k - 1]);
    assert multiset(kept) == rest + last;
    assert multiset(grown) == multiset(grown[..k]) + last;
    assert multiset(grown[..k]) == multiset(grown) - last == rest + multiset{row};
    assert multiset(kept) - last == rest;
  }

  /** How the kept rows change when one more row has been read. */
  lemma TopStep(t: Reader, s: Schema, keys: seq<SortKey>, rows: seq<Row>, n: nat, k: nat)
    requires Comparable(t, s, keys, rows) && n < |rows|
    ensures var kept, next, row := Top(t, keys, rows[..n], k), Top(t, keys, rows[..n + 1], k), rows[n];
            && |kept| <= k
            && (|kept| < k ==> multiset(next) == multiset(kept) + multiset{row})
            && (|kept| == k && k > 0 && RowLess(t, keys, row, kept[k - 1]) ==>
                  multiset(next) == multiset(kept) - multiset{kept[k - 1]} + multiset{row})
            && (|kept| == k && (k == 0 || !RowLess(t, keys, row, kept[k - 1])) ==> next == kept)
  {
    hide RowLess, SortRows, RowFits;
    var kept, row := Top(t, keys, rows[..n], k), rows[n];
    SortSnoc(t, keys, rows, n);
    TakeInsert(t, keys, SortRows(t, keys, rows[..n]), row, k);
    KeptFacts(t, s, keys, rows, n, k);
    InsertBag(t, keys, kept, row);
    var grown := InsertRow(t, keys, kept, row);
    if |kept| < k {
      assert Take(grown, k) == grown;
    } else if k > 0 {
      if RowLess(t, keys, row, kept[k - 1]) {
        InsertBeforeLast(t, keys, kept, row);
        LastDropped(kept, row, grown, k);
      } else {
        forall i | 0 <= i < k
          ensures !RowLess(t, keys, row, kept[i])
        {
          if i < k - 1 {
            RowLessTransitive(t, s, keys, kept[i], kept[k - 1], row);
          }
          RowLessAsymmetric(t, s, keys, kept[i], row);
        }
        InsertAtEnd(t, keys, kept, row);
      }
    }
  }

  /** In a full buffer the front of the heap is the last of the kept rows. */
  lemma FrontIsLast(t: Reader, s: Schema, keys: seq<SortKey>, rows: seq<Row>, n: nat, k: nat, h: seq<Row>)
    requires Comparable(t, s, keys, rows) && n < |rows| && k > 0
    requires |Top(t, keys, rows[..n], k)| == k
    requires multiset(h) == multiset(Top(t, keys, rows[..n], k)) && IsHeap(t, keys, h)
    ensures h != [] && h[0] == Top(t, keys, rows[..n], k)[k - 1]
  {
    hide RowLess, SortRows, RowFits;
    var kept := Top(t, keys, rows[..n], k);
    assert |h| == |multiset(h)| == |multiset(kept)| == k;
    KeptFacts(t, s, keys, rows, n, k);
    ComparablePrefix(t, s, keys, rows, n);
    RowsAreLinear(t, s, keys, rows[..n]);
    SmallerBag(t, s, keys, multiset(rows[..n]), multiset(h));
    var last := kept[k - 1];
    assert last in multiset(h) && h[0] in multiset(kept);
    var i :| 0 <= i < |h| && h[i] == last;
    FrontIsWorst(t, s, keys, h, i);
    var j :| 0 <= j < |kept| && kept[j] == h[0];
  }

  lemma OfferedLinear(t: Reader, s: Schema, keys: seq<SortKey>, rows: seq<Row>, n: nat, k: nat, h: seq<Row>)
    requires Comparable(t, s, keys, rows) && n < |rows|
    requires multiset(h) == multiset(Top(t, keys, rows[..n], k)) + multiset{rows[n]}
    ensures Linear(t, s, keys, multiset(h))
  {
    hide RowLess, SortRows, RowFits;
    KeptFacts(t, s, keys, rows, n, k);
    ComparablePrefix(t, s, keys, rows, n + 1);
    RowsAreLinear(t, s, keys, rows[..n + 1]);
    assert rows[..n + 1] == rows[..n] + [rows[n]];
    SmallerBag(t, s, keys, multiset(rows[..n + 1]), multiset(h));
  }

}
