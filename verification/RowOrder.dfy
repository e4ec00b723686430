/**
 ORDER BY: the row comparator, sorting, and why the order is unique. Ties are
 broken by the primary key, which is unique within a table.
 */
module RowOrder {
  import opened Wrappers
  import opened Bytes
  import opened SqlValues
  import opened KeyCodec
  import opened Conditions
  import opened OptimizerPlan
  import opened TruthLaws

  datatype Schema = Schema(columns: map<string, DataType>, pk: string)

  datatype SortKey = SortKey(column: string, ascending: bool)

  // The rows a table of this schema may hold.
  predicate RowFits(s: Schema, row: Row) {
    && s.pk in s.columns && !s.columns[s.pk].Unknown?
    && forall c :: c in s.columns ==> c in row && Fits(row[c], s.columns[c])
  }

  predicate RowsFit(s: Schema, rows: seq<Row>) {
    forall i :: 0 <= i < |rows| ==> RowFits(s, rows[i])
  }

  // NULL sorts first; values that SQL cannot compare fall back to their keys.
  function CompareForSort(t: Reader, a: Value, b: Value): int {
    if a.Null? || b.Null? then
      (if a.Null? && b.Null? then 0 else if a.Null? then -1 else 1)
    else
      var order := SqlOrder(t, a, b);
      if order.Some? then order.value
      else if KeyOf(a) == KeyOf(b) then 0
      else if Less(KeyOf(a), KeyOf(b)) then -1 else 1
  }

  // ORDER BY columns, then the primary key unless it already comes last.
  function SortKeys(s: Schema, orderBy: seq<SortKey>): seq<SortKey> {
    if orderBy == [] || orderBy[|orderBy| - 1].column != s.pk then orderBy + [SortKey(s.pk, true)]
    else orderBy
  }

  predicate KnownColumns(s: Schema, keys: seq<SortKey>) {
    forall i :: 0 <= i < |keys| ==> keys[i].column in s.columns
  }

  predicate RowLess(t: Reader, keys: seq<SortKey>, a: Row, b: Row) {
    if keys == [] then false
    else
      var k := keys[0];
      if k.column !in a || k.column !in b then RowLess(t, keys[1..], a, b)
      else
        var cmp := CompareForSort(t, a[k.column], b[k.column]);
        if cmp == 0 then RowLess(t, keys[1..], a, b)
        else if k.ascending then cmp < 0 else cmp > 0
  }

  // On one column's values the comparison is the order of the keys.
  lemma CompareIsOrder(t: Reader, a: Value, b: Value, ty: DataType)
    requires Fits(a, ty) && Fits(b, ty)
    ensures CompareForSort(t, a, b) == if a == b then 0 else if Precedes(a, b) then -1 else 1
  {
    if !a.Null? && !b.Null? {
      CompareByKey(t, a, b, ty);
    }
  }

  /** Whatever the two values: antisymmetric, NULL first, and by stored key where SQL has no order. */
  lemma SortCompareLaws(t: Reader, a: Value, b: Value)
    ensures CompareForSort(t, b, a) == -CompareForSort(t, a, b)
    ensures a.Null? ==> CompareForSort(t, a, b) == if b.Null? then 0 else -1
    ensures !a.Null? && !b.Null? && SqlOrder(t, a, b).None? ==>
              && (CompareForSort(t, a, b) == 0 <==> KeyOf(a) == KeyOf(b))
              && (CompareForSort(t, a, b) < 0 <==> Less(KeyOf(a), KeyOf(b)))
  {
    OrderLaws(t, a, b);
    hide SqlOrder, KeyOf;
    LessIsIrreflexive(KeyOf(a));
    LessIsTotal(KeyOf(a), KeyOf(b));
    if Less(KeyOf(a), KeyOf(b)) { LessIsStrict(KeyOf(a), KeyOf(b)); }
    if Less(KeyOf(b), KeyOf(a)) { LessIsStrict(KeyOf(b), KeyOf(a)); }
  }

  // keys[i] puts a first and all keys in front of it are equal.
  ghost predicate DecidedAt(keys: seq<SortKey>, a: Row, b: Row, i: nat) {
    && i < |keys| && Same(keys[..i], a, b) && keys[i].column in a && keys[i].column in b
    && var x, y := a[keys[i].column], b[keys[i].column];
       if keys[i].ascending then Precedes(x, y) else Precedes(y, x)
  }

  ghost predicate Same(keys: seq<SortKey>, a: Row, b: Row) {
    forall k :: k in keys ==> k.column in a && k.column in b && a[k.column] == b[k.column]
  }

  /**
   The comparator is lexicographic: one row comes before another exactly when
   some key puts it first and all the keys in front of that one are equal.
   */
  lemma {:induction false} RowLessExact(t: Reader, s: Schema, keys: seq<SortKey>, a: Row, b: Row)
    requires RowFits(s, a) && RowFits(s, b) && KnownColumns(s, keys)
    ensures RowLess(t, keys, a, b) <==> exists i :: DecidedAt(keys, a, b, i)
  {
    if keys != [] {
      var k := keys[0];
      var x, y, ty := a[k.column], b[k.column], s.columns[k.column];
      CompareIsOrder(t, x, y, ty);
      PrecedesIsTotal(x, y, ty);
      if x == y {
        RowLessExact(t, s, keys[1..], a, b);
        DecidedLater(keys, a, b);
      } else {
        assert RowLess(t, keys, a, b) <==> DecidedAt(keys, a, b, 0);
        forall i | 0 < i < |keys| ensures !DecidedAt(keys, a, b, i) {
          assert k == keys[..i][0];
        }
      }
    }
  }

  lemma SameCons(k: SortKey, keys: seq<SortKey>, a: Row, b: Row)
    requires k.column in a && k.column in b && a[k.column] == b[k.column]
    ensures Same([k] + keys, a, b) <==> Same(keys, a, b)
  {
    if Same([k] + keys, a, b) {
      forall q | q in keys ensures q.column in a && q.column in b && a[q.column] == b[q.column] {
        assert q in [k] + keys;
      }
    }
  }

  lemma DecidedLater(keys: seq<SortKey>, a: Row, b: Row)
    requires keys != [] && keys[0].column in a && keys[0].column in b
    requires var x := a[keys[0].column]; x == b[keys[0].column] && !Precedes(x, x)
    ensures (exists i :: DecidedAt(keys, a, b, i)) <==> (exists i :: DecidedAt(keys[1..], a, b, i))
  {
    var rest := keys[1..];
    assert !DecidedAt(keys, a, b, 0);
    forall i: nat | i < |rest| ensures DecidedAt(rest, a, b, i) <==> DecidedAt(keys, a, b, i + 1) {
      assert rest[i] == keys[i + 1];
      assert keys[..i + 1] == [keys[0]] + rest[..i];
      SameCons(keys[0], rest[..i], a, b);
    }
    if i: nat :| DecidedAt(keys, a, b, i) {
      assert DecidedAt(rest, a, b, i - 1);
    }
    if i: nat :| DecidedAt(rest, a, b, i) {
      assert DecidedAt(keys, a, b, i + 1);
    }
  }

  /** ORDER BY decides, and among rows equal in all its columns the smaller primary key comes first. */
  lemma OrderByExact(t: Reader, s: Schema, orderBy: seq<SortKey>, a: Row, b: Row)
    requires RowFits(s, a) && RowFits(s, b) && KnownColumns(s, orderBy)
    ensures RowLess(t, SortKeys(s, orderBy), a, b) <==>
            (exists i :: DecidedAt(orderBy, a, b, i)) || (Same(orderBy, a, b) && Precedes(a[s.pk], b[s.pk]))
  {
    var keys, n := SortKeys(s, orderBy), |orderBy|;
    hide RowLess;
    RowLessExact(t, s, keys, a, b);
    forall i: nat | i < n ensures DecidedAt(keys, a, b, i) <==> DecidedAt(orderBy, a, b, i) {
      assert keys[..i] == orderBy[..i] && keys[i] == orderBy[i];
    }
    if n == 0 || orderBy[n - 1].column != s.pk {
      assert keys[..n] == orderBy;
      assert DecidedAt(keys, a, b, n) <==> Same(orderBy, a, b) && Precedes(a[s.pk], b[s.pk]);
    } else if Same(orderBy, a, b) {
      assert orderBy[n - 1] in orderBy;
      PrecedesIsTotal(a[s.pk], b[s.pk], s.columns[s.pk]);
    }
  }

  lemma PrecedesTransitive(a: Value, b: Value, c: Value, ty: DataType)
    requires Fits(a, ty) && Fits(b, ty) && Fits(c, ty) && Precedes(a, b) && Precedes(b, c)
    ensures Precedes(a, c)
  {
    KeyOrder(a, b, ty);
    KeyOrder(b, c, ty);
    KeyOrder(a, c, ty);
    LessTransitive(StoredKey(a, ty), StoredKey(b, ty), StoredKey(c, ty));
  }

  lemma {:induction false} RowLessTransitive(t: Reader, s: Schema, keys: seq<SortKey>, a: Row, b: Row, c: Row)
    requires RowFits(s, a) && RowFits(s, b) && RowFits(s, c) && KnownColumns(s, keys)
    requires RowLess(t, keys, a, b) && RowLess(t, keys, b, c)
    ensures RowLess(t, keys, a, c)
  {
    var k := keys[0];
    var x, y, z, ty := a[k.column], b[k.column], c[k.column], s.columns[k.column];
    CompareIsOrder(t, x, y, ty);
    CompareIsOrder(t, y, z, ty);
    CompareIsOrder(t, x, z, ty);
    PrecedesIsTotal(x, y, ty);
    PrecedesIsTotal(y, z, ty);
    PrecedesIsTotal(x, z, ty);
    if x == y && y == z {
      RowLessTransitive(t, s, keys[1..], a, b, c);
    } else if Precedes(x, y) && Precedes(y, z) {
      PrecedesTransitive(x, y, z, ty);
    } else if Precedes(y, x) && Precedes(z, y) {
      PrecedesTransitive(z, y, x, ty);
    }
  }

  lemma {:induction false} RowLessAsymmetric(t: Reader, s: Schema, keys: seq<SortKey>, a: Row, b: Row)
    requires RowFits(s, a) && RowFits(s, b) && KnownColumns(s, keys) && RowLess(t, keys, a, b)
    ensures !RowLess(t, keys, b, a)
  {
    var k := keys[0];
    var x, y, ty := a[k.column], b[k.column], s.columns[k.column];
    CompareIsOrder(t, x, y, ty);
    CompareIsOrder(t, y, x, ty);
    PrecedesIsTotal(x, y, ty);
    if x == y {
      RowLessAsymmetric(t, s, keys[1..], a, b);
    }
  }

  // Some key tells the two rows apart, so one of them comes first.
  lemma {:induction false} RowLessTotal(t: Reader, s: Schema, keys: seq<SortKey>, a: Row, b: Row, i: nat)
    requires RowFits(s, a) && RowFits(s, b) && KnownColumns(s, keys)
    requires i < |keys| && keys[i].column == s.pk && a[s.pk] != b[s.pk]
    ensures RowLess(t, keys, a, b) || RowLess(t, keys, b, a)
  {
    var k := keys[0];
    var x, y, ty := a[k.column], b[k.column], s.columns[k.column];
    CompareIsOrder(t, x, y, ty);
    CompareIsOrder(t, y, x, ty);
    PrecedesIsTotal(x, y, ty);
    if x == y {
      RowLessTotal(t, s, keys[1..], a, b, i - 1);
    }
  }

  // ------------------------------------------------------------------ sorting

  // Strictly ascending under the comparator.
  predicate Ordered(t: Reader, keys: seq<SortKey>, rows: seq<Row>) {
    forall i, j :: 0 <= i < j < |rows| ==> RowLess(t, keys, rows[i], rows[j])
  }

  // The two rows have different keys.
  predicate Apart(pk: string, a: Row, b: Row) {
    pk in a && pk in b && a[pk] != b[pk]
  }

  predicate DistinctKeys(pk: string, rows: seq<Row>) {
    forall i, j :: 0 <= i < j < |rows| ==> Apart(pk, rows[i], rows[j])
  }

  function InsertRow(t: Reader, keys: seq<SortKey>, sorted: seq<Row>, row: Row): seq<Row> {
    if sorted == [] then [row]
    else if RowLess(t, keys, row, sorted[0]) then [row] + sorted
    else [sorted[0]] + InsertRow(t, keys, sorted[1..], row)
  }

  function SortRows(t: Reader, keys: seq<SortKey>, rows: seq<Row>): seq<Row> {
    if rows == [] then []
    else InsertRow(t, keys, SortRows(t, keys, rows[..|rows| - 1]), rows[|rows| - 1])
  }

  // Any two distinct rows of the list are comparable.
  ghost predicate Comparable(t: Reader, s: Schema, keys: seq<SortKey>, rows: seq<Row>) {
    RowsFit(s, rows) && KnownColumns(s, keys) && DistinctKeys(s.pk, rows) &&
    exists i :: 0 <= i < |keys| && keys[i].column == s.pk
  }

  lemma {:induction false} InsertBag(t: Reader, keys: seq<SortKey>, sorted: seq<Row>, row: Row)
    ensures multiset(InsertRow(t, keys, sorted, row)) == multiset(sorted) + multiset{row}
    ensures |InsertRow(t, keys, sorted, row)| == |sorted| + 1
  {
    hide RowLess;
    if sorted != [] {
      InsertBag(t, keys, sorted[1..], row);
      assert sorted == [sorted[0]] + sorted[1..];
    }
  }

  lemma {:induction false} OrderedCons(t: Reader, keys: seq<SortKey>, first: Row, rest: seq<Row>)
    requires Ordered(t, keys, rest) && forall j :: 0 <= j < |rest| ==> RowLess(t, keys, first, rest[j])
    ensures Ordered(t, keys, [first] + rest)
  {
    hide RowLess;
  }

  lemma {:induction false} InsertRowOk(t: Reader, s: Schema, keys: seq<SortKey>, sorted: seq<Row>, row: Row)
    requires RowsFit(s, sorted) && RowFits(s, row) && KnownColumns(s, keys) && Ordered(t, keys, sorted)
    requires forall i :: 0 <= i < |sorted| ==>
               RowLess(t, keys, row, sorted[i]) || RowLess(t, keys, sorted[i], row)
    ensures Ordered(t, keys, InsertRow(t, keys, sorted, row))
    ensures multiset(InsertRow(t, keys, sorted, row)) == multiset(sorted) + multiset{row}
  {
    hide RowLess, RowFits;
    InsertBag(t, keys, sorted, row);
    if sorted != [] {
      if RowLess(t, keys, row, sorted[0]) {
        forall j | 0 <= j < |sorted|
          ensures RowLess(t, keys, row, sorted[j])
        {
          if j > 0 {
            RowLessTransitive(t, s, keys, row, sorted[0], sorted[j]);
          }
        }
        OrderedCons(t, keys, row, sorted);
      } else {
        InsertRowOk(t, s, keys, sorted[1..], row);
        var rest := InsertRow(t, keys, sorted[1..], row);
        forall j | 0 <= j < |rest|
          ensures RowLess(t, keys, sorted[0], rest[j])
        {
          MemberOf(rest, j, sorted[1..], row);
        }
        OrderedCons(t, keys, sorted[0], rest);
      }
    }
  }

  lemma MemberOf(rest: seq<Row>, j: nat, tail: seq<Row>, row: Row)
    requires j < |rest| && multiset(rest) == multiset(tail) + multiset{row}
    ensures rest[j] == row || rest[j] in tail
  {
    assert rest[j] in multiset(rest);
  }

  lemma BagFits(s: Schema, rows: seq<Row>, bag: seq<Row>)
    requires multiset(rows) == multiset(bag) && RowsFit(s, bag)
    ensures RowsFit(s, rows)
  {
    forall i | 0 <= i < |rows|
      ensures RowFits(s, rows[i])
    {
      assert rows[i] in multiset(bag);
    }
  }

  lemma LastComparable(t: Reader, s: Schema, keys: seq<SortKey>, rows: seq<Row>, sorted: seq<Row>)
    requires Comparable(t, s, keys, rows) && rows != []
    requires multiset(sorted) == multiset(rows[..|rows| - 1])
    ensures Comparable(t, s, keys, rows[..|rows| - 1])
    ensures forall i :: 0 <= i < |sorted| ==>
              RowLess(t, keys, rows[|rows| - 1], sorted[i]) || RowLess(t, keys, sorted[i], rows[|rows| - 1])
  {
    var n := |rows| - 1;
    var k :| 0 <= k < |keys| && keys[k].column == s.pk;
    forall i | 0 <= i < |sorted|
      ensures RowLess(t, keys, rows[n], sorted[i]) || RowLess(t, keys, sorted[i], rows[n])
    {
      assert sorted[i] in multiset(rows[..n]);
      var m :| 0 <= m < n && rows[m] == sorted[i];
      assert Apart(s.pk, rows[m], rows[n]);
      RowLessTotal(t, s, keys, rows[n], rows[m], k);
    }
  }

  lemma ComparableParts(t: Reader, s: Schema, keys: seq<SortKey>, rows: seq<Row>)
    requires Comparable(t, s, keys, rows) && rows != []
    ensures KnownColumns(s, keys) && RowFits(s, rows[|rows| - 1]) && RowsFit(s, rows[..|rows| - 1])
  {
  }

  lemma {:induction false} SortRowsOk(t: Reader, s: Schema, keys: seq<SortKey>, rows: seq<Row>)
    requires Comparable(t, s, keys, rows)
    ensures Ordered(t, keys, SortRows(t, keys, rows))
    ensures multiset(SortRows(t, keys, rows)) == multiset(rows)
  {
    hide RowLess, RowFits, InsertRow, Comparable;
    if rows == [] {
      assert SortRows(t, keys, rows) == [];
    } else {
      var n := |rows| - 1;
      LastComparable(t, s, keys, rows, rows[..n]);
      SortRowsOk(t, s, keys, rows[..n]);
      var sorted := SortRows(t, keys, rows[..n]);
      LastComparable(t, s, keys, rows, sorted);
      ComparableParts(t, s, keys, rows);
      BagFits(s, sorted, rows[..n]);
      InsertRowOk(t, s, keys, sorted, rows[n]);
      assert rows == rows[..n] + [rows[n]];
    }
  }

  lemma SameFirst(t: Reader, s: Schema, keys: seq<SortKey>, a: seq<Row>, b: seq<Row>)
    requires RowsFit(s, a) && KnownColumns(s, keys) && a != [] && b != []
    requires Ordered(t, keys, a) && Ordered(t, keys, b) && multiset(a) == multiset(b)
    ensures a[0] == b[0]
  {
    hide RowLess, RowFits, KnownColumns;
    BagFits(s, b, a);
    assert a[0] in multiset(b) && b[0] in multiset(a);
    if a[0] != b[0] {
      var i :| 0 <= i < |b| && b[i] == a[0];
      var j :| 0 <= j < |a| && a[j] == b[0];
      RowLessAsymmetric(t, s, keys, a[0], b[0]);
    }
  }

  /** Whatever sorting algorithm is used, there is only one ordered arrangement. */
  lemma {:induction false} OrderIsUnique(t: Reader, s: Schema, keys: seq<SortKey>, a: seq<Row>, b: seq<Row>)
    requires RowsFit(s, a) && KnownColumns(s, keys)
    requires Ordered(t, keys, a) && Ordered(t, keys, b) && multiset(a) == multiset(b)
    ensures a == b
  {
    assert |a| == |multiset(a)| == |multiset(b)| == |b|;
    if a != [] {
      SameFirst(t, s, keys, a, b);
      TailBag(a);
      TailBag(b);
      hide RowLess, RowFits, KnownColumns;
      OrderIsUnique(t, s, keys, a[1..], b[1..]);
      assert a == [a[0]] + a[1..] && b == [b[0]] + b[1..];
    }
  }

  lemma TailBag(rows: seq<Row>)
    requires rows != []
    ensures multiset(rows[1..]) == multiset(rows) - multiset{rows[0]}
  {
    assert rows == [rows[0]] + rows[1..];
  }
}
