/**
 What the plan operators deliver, as functions on row sequences: range scans in
 either direction, filters, sorting, the N first rows of a sort, and limits.
 */
module Execution {
  import opened Wrappers
  import opened Bytes
  import opened SqlValues
  import opened KeyCodec
  import opened Conditions
  import opened KeyRanges
  import opened Optimizer
  import opened RowOrder

  const SIZE_MAX: nat := 0xFFFF_FFFF_FFFF_FFFF

  type RowTest = Row -> bool

  function Select(p: RowTest, rows: seq<Row>): seq<Row> {
    if rows == [] then []
    else (if p(rows[0]) then [rows[0]] else []) + Select(p, rows[1..])
  }

  function Reversed(rows: seq<Row>): seq<Row> {
    if rows == [] then [] else Reversed(rows[1..]) + [rows[0]]
  }

  function KeyTypeOf(s: Schema): DataType {
    if s.pk in s.columns then s.columns[s.pk] else Unknown
  }

  // The storage key of a row.
  function RowKey(s: Schema, row: Row): Bytes {
    StoredKey(if s.pk in row then row[s.pk] else Null, KeyTypeOf(s))
  }

  // A table: rows of its schema, one per key, iterated in key order.
  predicate IsTable(s: Schema, rows: seq<Row>) {
    RowsFit(s, rows) && forall i, j :: 0 <= i < j < |rows| ==> Less(RowKey(s, rows[i]), RowKey(s, rows[j]))
  }

  // ------------------------------------------------------------------- scans

  function InRange(s: Schema, r: KeyRange): RowTest {
    row => !IsEmpty(r) && Scanned(r, RowKey(s, row), KeyTypeOf(s))
  }

  function NotExcluded(s: Schema, exclude: seq<Value>): RowTest {
    row => !(s.pk in row && Excluded(exclude, row[s.pk]))
  }

  // One range, forwards.
  function ScanRange(s: Schema, rows: seq<Row>, r: KeyRange, exclude: seq<Value>): seq<Row> {
    Select(NotExcluded(s, exclude), Select(InRange(s, r), rows))
  }

  function ScanAscending(s: Schema, rows: seq<Row>, rs: seq<KeyRange>, exclude: seq<Value>): seq<Row> {
    if rs == [] then []
    else ScanRange(s, rows, rs[0], exclude) + ScanAscending(s, rows, rs[1..], exclude)
  }

  // Last range first, each backwards.
  function ScanDescending(s: Schema, rows: seq<Row>, rs: seq<KeyRange>, exclude: seq<Value>): seq<Row> {
    if rs == [] then []
    else
      Reversed(ScanRange(s, rows, rs[|rs| - 1], exclude)) +
      ScanDescending(s, rows, rs[..|rs| - 1], exclude)
  }

  function Scan(s: Schema, rows: seq<Row>, rs: seq<KeyRange>, exclude: seq<Value>, ascending: bool): seq<Row> {
    if ascending then ScanAscending(s, rows, rs, exclude) else ScanDescending(s, rows, rs, exclude)
  }

  function Passes(t: Reader, filter: Option<Cond>): RowTest {
    row => Keeps(t, row, filter)
  }

  // ------------------------------------------------------------------- limits

  datatype Limit = Limit(count: Option<nat>, offset: Option<nat>)

  // Both numbers are machine words.
  predicate LimitFits(l: Limit) {
    (l.count.Some? ==> l.count.value <= SIZE_MAX) && (l.offset.Some? ==> l.offset.value <= SIZE_MAX)
  }

  function Offset(l: Limit): nat {
    if l.offset.Some? then l.offset.value else 0
  }

  function Wanted(l: Limit): nat {
    if l.count.Some? then l.count.value else SIZE_MAX
  }

  function Take(rows: seq<Row>, n: nat): seq<Row> {
    if n <= |rows| then rows[..n] else rows
  }

  function Drop(rows: seq<Row>, n: nat): seq<Row> {
    if n <= |rows| then rows[n..] else []
  }

  function LimitRows(rows: seq<Row>, l: Limit): seq<Row> {
    Take(Drop(rows, Offset(l)), Wanted(l))
  }

  // What LIMIT and OFFSET mean, without machine words.
  function Page(rows: seq<Row>, l: Limit): seq<Row> {
    var rest := Drop(rows, Offset(l));
    if l.count.Some? then Take(rest, l.count.value) else rest
  }

  // OFFSET + LIMIT, saturating at the largest machine word.
  function TopNCount(l: Limit): nat
    requires LimitFits(l)
  {
    if l.count.None? then 0
    else if Offset(l) > SIZE_MAX - l.count.value then SIZE_MAX
    else l.count.value + Offset(l)
  }

  // -------------------------------------------------------------- whole plans

  datatype Outcome = Rows(rows: seq<Row>) | ColumnNotFound | MemoryLimit

  datatype Statement = Statement(where: Option<Cond>, orderBy: seq<SortKey>, limit: Limit)

  // ORDER BY led by the primary key is satisfied by scanning in its direction.
  predicate SatisfiedByScan(s: Schema, q: Statement) {
    q.orderBy != [] && q.orderBy[0].column == s.pk
  }

  function Direction(s: Schema, q: Statement): bool {
    if SatisfiedByScan(s, q) then q.orderBy[0].ascending else true
  }

  function SortNode(t: Reader, s: Schema, q: Statement, rowLimit: nat, rows: seq<Row>): Outcome
    requires LimitFits(q.limit)
  {
    if q.orderBy == [] || SatisfiedByScan(s, q) then Rows(rows)
    else if !KnownColumns(s, q.orderBy) then ColumnNotFound
    else if q.limit.count.Some? then
      Rows(Take(SortRows(t, SortKeys(s, q.orderBy), rows), TopNCount(q.limit)))
    else if |rows| > rowLimit then MemoryLimit
    else Rows(SortRows(t, SortKeys(s, q.orderBy), rows))
  }

  function LimitNode(q: Statement, input: Outcome): Outcome {
    if input.Rows? && (q.limit.count.Some? || q.limit.offset.Some?) then Rows(LimitRows(input.rows, q.limit))
    else input
  }

  /** The operator tree that planning builds over the chosen ranges and filter. */
  function Execute(t: Reader, s: Schema, table: seq<Row>, q: Statement, plan: Plan, rowLimit: nat): Outcome
    requires LimitFits(q.limit)
  {
    var scanned := Scan(s, table, plan.ranges, plan.exclude, Direction(s, q));
    var kept := Select(Passes(t, plan.filter), scanned);
    LimitNode(q, SortNode(t, s, q, rowLimit, kept))
  }

  /** The meaning of the statement: keep what WHERE keeps, order it, cut it. */
  function Reference(t: Reader, s: Schema, table: seq<Row>, q: Statement): seq<Row> {
    var kept := Select(Passes(t, q.where), table);
    var ordered := if q.orderBy == [] then kept else SortRows(t, SortKeys(s, q.orderBy), kept);
    Page(ordered, q.limit)
  }

  // ------------------------------------------------------------ row selections

  lemma {:induction false} SelectConcat(p: RowTest, a: seq<Row>, b: seq<Row>)
    ensures Select(p, a + b) == Select(p, a) + Select(p, b)
  {
    if a == [] {
      assert a + b == b;
    } else {
      assert (a + b)[1..] == a[1..] + b;
      SelectConcat(p, a[1..], b);
    }
  }

  lemma SelectSnoc(p: RowTest, rows: seq<Row>, k: nat)
    requires k < |rows|
    ensures Select(p, rows[..k + 1]) == Select(p, rows[..k]) + if p(rows[k]) then [rows[k]] else []
  {
    assert rows[..k + 1] == rows[..k] + [rows[k]];
    SelectConcat(p, rows[..k], [rows[k]]);
    assert [rows[k]][1..] == [];
  }

  lemma {:induction false} SelectSame(p: RowTest, q: RowTest, rows: seq<Row>)
    requires forall i :: 0 <= i < |rows| ==> p(rows[i]) == q(rows[i])
    ensures Select(p, rows) == Select(q, rows)
  {
    if rows != [] {
      SelectSame(p, q, rows[1..]);
    }
  }

  lemma {:induction false} SelectNone(p: RowTest, rows: seq<Row>)
    requires forall i :: 0 <= i < |rows| ==> !p(rows[i])
    ensures Select(p, rows) == []
  {
    if rows != [] {
      SelectNone(p, rows[1..]);
    }
  }

  lemma {:induction false} SelectTwice(p: RowTest, q: RowTest, both: RowTest, rows: seq<Row>)
    requires forall i :: 0 <= i < |rows| ==> both(rows[i]) == (p(rows[i]) && q(rows[i]))
    ensures Select(q, Select(p, rows)) == Select(both, rows)
  {
    if rows != [] {
      SelectTwice(p, q, both, rows[1..]);
      SelectConcat(q, if p(rows[0]) then [rows[0]] else [], Select(p, rows[1..]));
      if p(rows[0]) {
        assert [rows[0]][1..] == [];
        assert Select(q, [rows[0]]) == if q(rows[0]) then [rows[0]] else [];
      }
    }
  }

  // When everything `p` selects comes before everything `q` selects.
  lemma {:induction false} SelectEither(p: RowTest, q: RowTest, either: RowTest, rows: seq<Row>)
    requires forall i :: 0 <= i < |rows| ==> either(rows[i]) == (p(rows[i]) || q(rows[i]))
    requires forall i, j :: 0 <= i <= j < |rows| && q(rows[i]) ==> !p(rows[j])
    ensures Select(p, rows) + Select(q, rows) == Select(either, rows)
  {
    if rows != [] {
      if q(rows[0]) {
        SelectNone(p, rows);
        SelectSame(q, either, rows);
      } else {
        SelectEither(p, q, either, rows[1..]);
        var head := if p(rows[0]) then [rows[0]] else [];
        assert head + Select(p, rows[1..]) + Select(q, rows[1..]) == head + (Select(p, rows[1..]) + Select(q, rows[1..]));
      }
    }
  }

  lemma {:induction false} SelectSubset(p: RowTest, rows: seq<Row>, i: nat)
    requires i < |Select(p, rows)|
    ensures p(Select(p, rows)[i]) && Select(p, rows)[i] in rows
  {
    if p(rows[0]) {
      if i > 0 {
        SelectSubset(p, rows[1..], i - 1);
      }
    } else {
      SelectSubset(p, rows[1..], i);
    }
  }

  lemma {:induction false} SelectTable(s: Schema, p: RowTest, rows: seq<Row>)
    requires IsTable(s, rows)
    ensures IsTable(s, Select(p, rows))
  {
    if rows != [] {
      SelectTable(s, p, rows[1..]);
      var rest := Select(p, rows[1..]);
      forall i | 0 <= i < |rest|
        ensures Less(RowKey(s, rows[0]), RowKey(s, rest[i])) && RowFits(s, rest[i])
      {
        SelectSubset(p, rows[1..], i);
        var j :| 0 <= j < |rows[1..]| && rows[1..][j] == rest[i];
        assert rest[i] == rows[j + 1];
      }
    }
  }

  // ---------------------------------------------------------------- reversing

  lemma {:induction false} ReversedConcat(a: seq<Row>, b: seq<Row>)
    ensures Reversed(a + b) == Reversed(b) + Reversed(a)
  {
    if a == [] {
      assert a + b == b;
      assert Reversed(b) + [] == Reversed(b);
    } else {
      assert (a + b)[1..] == a[1..] + b;
      ReversedConcat(a[1..], b);
    }
  }

  lemma {:induction false} ReversedAt(rows: seq<Row>, i: nat)
    requires i < |rows|
    ensures |Reversed(rows)| == |rows| && Reversed(rows)[i] == rows[|rows| - 1 - i]
  {
    if |rows| > 1 {
      ReversedAt(rows[1..], if i < |rows| - 1 then i else 0);
    }
  }

  lemma {:induction false} ReversedBag(rows: seq<Row>)
    ensures multiset(Reversed(rows)) == multiset(rows)
  {
    if rows != [] {
      ReversedBag(rows[1..]);
      assert rows == [rows[0]] + rows[1..];
    }
  }

  lemma {:induction false} SelectReversed(p: RowTest, rows: seq<Row>)
    ensures Select(p, Reversed(rows)) == Reversed(Select(p, rows))
  {
    if rows != [] {
      SelectReversed(p, rows[1..]);
      SelectConcat(p, Reversed(rows[1..]), [rows[0]]);
      var head := if p(rows[0]) then [rows[0]] else [];
      assert [rows[0]][1..] == [];
      assert Select(p, [rows[0]]) == head;
      ReversedConcat(head, Select(p, rows[1..]));
      if p(rows[0]) {
        assert head[1..] == [] && Reversed(head) == [rows[0]];
      }
    }
  }

  lemma {:induction false} DescendingIsReversed(s: Schema, rows: seq<Row>, rs: seq<KeyRange>, exclude: seq<Value>)
    ensures ScanDescending(s, rows, rs, exclude) == Reversed(ScanAscending(s, rows, rs, exclude))
  {
    if rs != [] {
      var n := |rs| - 1;
      DescendingIsReversed(s, rows, rs[..n], exclude);
      AscendingSnoc(s, rows, rs, exclude);
      ReversedConcat(ScanAscending(s, rows, rs[..n], exclude), ScanRange(s, rows, rs[n], exclude));
    }
  }

  lemma {:induction false} AscendingSnoc(s: Schema, rows: seq<Row>, rs: seq<KeyRange>, exclude: seq<Value>)
    requires rs != []
    ensures ScanAscending(s, rows, rs, exclude) ==
            ScanAscending(s, rows, rs[..|rs| - 1], exclude) + ScanRange(s, rows, rs[|rs| - 1], exclude)
  {
    hide ScanRange;
    var n := |rs| - 1;
    if n == 0 {
      assert rs[1..] == [] && rs[..n] == [];
    } else {
      AscendingSnoc(s, rows, rs[1..], exclude);
      assert rs[1..][..n - 1] == rs[..n][1..] && rs[1..][n - 1] == rs[n] && rs[..n][0] == rs[0];
    }
  }

}
