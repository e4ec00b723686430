/**
 The pull-based operators. Each is opened once and then asked for rows one at a
 time; what it delivers, call by call, is the sequence given in Execution.
 */
module Executors {
  import opened Wrappers
  import opened SqlValues
  import opened KeyCodec
  import opened Conditions
  import opened KeyRanges
  import opened Bytes
  import opened Optimizer
  import opened OptimizerRanges
  import opened OptimizerPlan
  import opened SelectExact
  import opened RowOrder
  import opened RowHeap
  import opened Execution
  import opened TopN

  datatype Fetched = Got(row: Row) | End | Error(code: nat)

  datatype Status = Ready | AlreadyOpen | NoSuchColumn | OverMemory | ReadFailed(code: nat) | ChildFailed(code: nat)

  // A storage read that fails: which one of a call, and with what.
  datatype BadRead = BadRead(at: nat, code: nat)

  // Request number `i` of a stream that ends after `rows`.
  function Nth(rows: seq<Row>, failure: Option<nat>, i: nat): Fetched {
    if i < |rows| then Got(rows[i])
    else if failure.Some? then Error(failure.value)
    else End
  }

  // ------------------------------------------------------------ child operator

  // An operator seen from its parent: the rows it is going to deliver, and
  // the error it ends with, if any.
  class Source {
    const rows: seq<Row>
    const failure: Option<nat>
    var pos: nat

    constructor (rows: seq<Row>, failure: Option<nat>)
      ensures this.rows == rows && this.failure == failure && pos == 0
    {
      this.rows := rows;
      this.failure := failure;
      pos := 0;
    }

    ghost predicate Valid()
      reads this
    {
      pos <= |rows|
    }

    method Next() returns (r: Fetched)
      requires Valid()
      modifies this`pos
      ensures Valid() && r == Nth(rows, failure, old(pos))
      ensures pos == if r.Got? then old(pos) + 1 else old(pos)
    {
      if pos < |rows| {
        r := Got(rows[pos]);
        pos := pos + 1;
      } else {
        r := if failure.Some? then Error(failure.value) else End;
      }
    }
  }

  // --------------------------------------------------------------------- scan

  function Lookup(s: Schema, table: seq<Row>, key: Value): Option<Row> {
    if table == [] then None
    else if RowKey(s, table[0]) == StoredKey(key, KeyTypeOf(s)) then Some(table[0])
    else Lookup(s, table[1..], key)
  }

  lemma PointTest(s: Schema, row: Row, r: KeyRange)
    requires RowFits(s, row) && Typed(r, KeyTypeOf(s)) && IsPoint(r)
    ensures InRange(s, r)(row) <==> row[s.pk] == PointValue(r)
    ensures row[s.pk] == PointValue(r) <==> RowKey(s, row) == StoredKey(PointValue(r), KeyTypeOf(s))
  {
    hide IsPoint, PointValue, StoredKey, Typed, InRange;
    PointFits(r, KeyTypeOf(s));
    PointExact(r, row[s.pk], KeyTypeOf(s));
    InRangeIsContains(s, row, r);
    KeyOrder(row[s.pk], PointValue(r), KeyTypeOf(s));
  }

  lemma {:induction false} PointSelect(s: Schema, table: seq<Row>, r: KeyRange)
    requires IsTable(s, table) && Typed(r, KeyTypeOf(s)) && IsPoint(r)
    ensures var found := Lookup(s, table, PointValue(r));
            Select(InRange(s, r), table) == (if found.Some? then [found.value] else [])
            && (found.Some? ==> s.pk in found.value && found.value[s.pk] == PointValue(r))
  {
    if table != [] {
      hide IsPoint, PointValue, Typed, InRange, RowKey, StoredKey;
      PointTest(s, table[0], r);
      PointSelect(s, table[1..], r);
      if InRange(s, r)(table[0]) {
        forall i | 0 <= i < |table[1..]|
          ensures !InRange(s, r)(table[1..][i])
        {
          PointTest(s, table[i + 1], r);
          LessIsStrict(RowKey(s, table[0]), RowKey(s, table[i + 1]));
        }
        SelectNone(InRange(s, r), table[1..]);
      }
    }
  }

  // Fetching one key directly is the scan of its one-point range.
  lemma PointIsScan(s: Schema, table: seq<Row>, rs: seq<KeyRange>, exclude: seq<Value>, ascending: bool)
    requires IsTable(s, table) && AllTyped(rs, KeyTypeOf(s)) && |rs| == 1 && IsPoint(rs[0])
    requires !Excluded(exclude, PointValue(rs[0]))
    ensures var found := Lookup(s, table, PointValue(rs[0]));
            Scan(s, table, rs, exclude, ascending) == if found.Some? then [found.value] else []
  {
    hide IsPoint, PointValue, Typed, InRange, Excluded;
    PointSelect(s, table, rs[0]);
    DescendingIsReversed(s, table, rs, exclude);
    assert rs[1..] == [];
    var found := Lookup(s, table, PointValue(rs[0]));
    if found.Some? {
      assert [found.value][1..] == [] && Reversed([found.value]) == [found.value];
      assert Select(NotExcluded(s, exclude), [found.value]) == [found.value];
    }
  }

  lemma EmptySelects(s: Schema, table: seq<Row>, r: KeyRange)
    requires IsEmpty(r)
    ensures Select(InRange(s, r), table) == []
  {
    SelectNone(InRange(s, r), table);
  }

  lemma SelectCons(p: RowTest, rows: seq<Row>, rest: seq<Row>)
    requires rows != []
    ensures Select(p, rows) + rest == (if p(rows[0]) then [rows[0]] else []) + (Select(p, rows[1..]) + rest)
  {
    SelectFirst(p, rows);
    hide Select;
    Regroup(if p(rows[0]) then [rows[0]] else [], Select(p, rows[1..]), rest);
  }

  lemma SelectFirst(p: RowTest, rows: seq<Row>)
    requires rows != []
    ensures Select(p, rows) == (if p(rows[0]) then [rows[0]] else []) + Select(p, rows[1..])
  {
  }

  lemma Regroup(a: seq<Row>, b: seq<Row>, c: seq<Row>)
    ensures (a + b) + c == a + (b + c)
  {
  }

  class ScanExecutor {
    const schema: Schema
    const table: seq<Row>
    const ranges: seq<KeyRange>
    const exclude: seq<Value>
    const ascending: bool
    var rangeIndex: nat
    var cursor: Option<seq<Row>>
    var pointRow: Option<Row>
    var pointLookup: bool
    var done: bool
    var isOpen: bool
    var error: Option<nat>

    constructor (schema: Schema, table: seq<Row>, ranges: seq<KeyRange>, exclude: seq<Value>, ascending: bool)
      requires IsTable(schema, table)
      ensures this.schema == schema && this.table == table && this.ranges == ranges
      ensures this.exclude == exclude && this.ascending == ascending && !isOpen
    {
      this.schema := schema;
      this.table := table;
      this.ranges := ranges;
      this.exclude := exclude;
      this.ascending := ascending;
      rangeIndex, cursor, pointRow, pointLookup, done := 0, None, None, false, false;
      isOpen, error := false, None;
    }

    // Slot of the i-th range visited.
    function Slot(i: nat): nat
      requires i < |ranges|
    {
      if ascending then i else |ranges| - 1 - i
    }

    // All rows of the i-th range visited, in visiting order.
    ghost function Visit(i: nat): seq<Row>
      requires i < |ranges|
    {
      var hits := Select(InRange(schema, ranges[Slot(i)]), table);
      if ascending then hits else Reversed(hits)
    }

    // What the ranges visited from number `i` on contribute.
    ghost function VisitsFrom(i: nat): seq<Row>
      requires i <= |ranges|
      decreases |ranges| - i
    {
      if i == |ranges| then []
      else Select(NotExcluded(schema, exclude), Visit(i)) + VisitsFrom(i + 1)
    }

    ghost predicate Valid()
      reads this
    {
      && rangeIndex <= |ranges|
      && (cursor.Some? ==> rangeIndex < |ranges|)
    }

    // What a cursor and the ranges behind it still contribute.
    ghost function Ahead(left: Option<seq<Row>>, at: nat): seq<Row>
      requires left.Some? ==> at < |ranges|
    {
      if left.None? then []
      else Select(NotExcluded(schema, exclude), left.value) + VisitsFrom(at + 1)
    }

    // The rows still to come.
    ghost function Pending(): seq<Row>
      reads this
      requires Valid()
    {
      if done then []
      else if pointLookup then (if pointRow.Some? then [pointRow.value] else [])
      else Ahead(cursor, rangeIndex)
    }

    // Moves to the first non-empty range visited at or after `index`.
    method OpenRange(index: nat) returns (found: bool)
      requires index <= |ranges|
      modifies this`rangeIndex, this`cursor
      ensures Valid() && (found <==> cursor.Some?)
      ensures Ahead(cursor, rangeIndex) == VisitsFrom(index)
      ensures rangeIndex >= index
    {
      hide VisitsFrom, IsEmpty, NotExcluded, InRange;
      var i := index;
      while i < |ranges|
        invariant index <= i <= |ranges| && VisitsFrom(i) == VisitsFrom(index)
      {
        rangeIndex := i;
        if IsEmpty(ranges[Slot(i)]) {
          EmptyVisit(i);
          i := i + 1;
          continue;
        }
        var hits := FindRange(ranges[Slot(i)]);
        cursor := Some(hits);
        OneVisit(i);
        return true;
      }
      rangeIndex := |ranges|;
      cursor := None;
      NoVisits();
      return false;
    }

    lemma OneVisit(i: nat)
      requires i < |ranges|
      ensures VisitsFrom(i) == Select(NotExcluded(schema, exclude), Visit(i)) + VisitsFrom(i + 1)
    {
    }

    lemma NoVisits()
      ensures VisitsFrom(|ranges|) == []
    {
    }

    lemma EmptyVisit(i: nat)
      requires i < |ranges| && IsEmpty(ranges[Slot(i)])
      ensures VisitsFrom(i) == VisitsFrom(i + 1)
    {
      hide NotExcluded, IsEmpty;
      OneVisit(i);
      EmptySelects(schema, table, ranges[Slot(i)]);
    }

    // The storage scan of one range, in the direction of the plan.
    method FindRange(r: KeyRange) returns (hits: seq<Row>)
      ensures hits == if ascending then Select(InRange(schema, r), table)
                      else Reversed(Select(InRange(schema, r), table))
    {
      hide InRange;
      hits := [];
      for k := 0 to |table|
        invariant hits == if ascending then Select(InRange(schema, r), table[..k])
                          else Reversed(Select(InRange(schema, r), table[..k]))
      {
        SelectSnoc(InRange(schema, r), table, k);
        if InRange(schema, r)(table[k]) {
          ReversedConcat(Select(InRange(schema, r), table[..k]), [table[k]]);
          assert [table[k]][1..] == [] && Reversed([table[k]]) == [table[k]];
          hits := if ascending then hits + [table[k]] else [table[k]] + hits;
        } else {
          assert Select(InRange(schema, r), table[..k]) + [] == Select(InRange(schema, r), table[..k]);
        }
      }
      assert table[..|table|] == table;
    }

    lemma AheadOne(left: seq<Row>, at: nat)
      requires at < |ranges| && left != []
      ensures Ahead(Some(left), at) ==
              (if NotExcluded(schema, exclude)(left[0]) then [left[0]] else []) + Ahead(Some(left[1..]), at)
    {
      hide NotExcluded, VisitsFrom, Select;
      SelectCons(NotExcluded(schema, exclude), left, VisitsFrom(at + 1));
    }

    lemma AheadNone(at: nat)
      requires at < |ranges|
      ensures Ahead(Some([]), at) == VisitsFrom(at + 1)
    {
    }

    method NextInRanges(bad: Option<BadRead>) returns (r: Fetched)
      requires Valid()
      modifies this`rangeIndex, this`cursor, this`error
      ensures Valid()
      ensures if r.Error? then bad.Some? && r.code == bad.value.code && error == Some(r.code)
              else r == Nth(old(Ahead(cursor, rangeIndex)), None, 0) && error == old(error)
      ensures !r.Error? ==>
                Ahead(cursor, rangeIndex) == if r.Got? then old(Ahead(cursor, rangeIndex))[1..] else []
    {
      hide Ahead, VisitsFrom;
      ghost var all := Ahead(cursor, rangeIndex);
      var fetches := 0;
      while cursor.Some?
        invariant Valid() && Ahead(cursor, rangeIndex) == all && error == old(error)
        decreases |ranges| - rangeIndex, cursor.Some?, if cursor.Some? then |cursor.value| else 0
      {
        if bad.Some? && bad.value.at == fetches {
          error := Some(bad.value.code);
          return Error(bad.value.code);
        }
        fetches := fetches + 1;
        var left := cursor.value;
        if left != [] {
          AheadOne(left, rangeIndex);
          cursor := Some(left[1..]);
          if schema.pk in left[0] && Excluded(exclude, left[0][schema.pk]) {
            continue;
          }
          return Got(left[0]);
        }
        AheadNone(rangeIndex);
        var found := OpenRange(rangeIndex + 1);
      }
      assert all == [] by {
        NothingAhead();
      }
      return End;
    }

    lemma NothingAhead()
      ensures Ahead(None, rangeIndex) == []
    {
    }

    lemma VisitIsRange(i: nat)
      requires i < |ranges|
      ensures var scanned := ScanRange(schema, table, ranges[Slot(i)], exclude);
              Select(NotExcluded(schema, exclude), Visit(i)) == if ascending then scanned else Reversed(scanned)
    {
      SelectReversed(NotExcluded(schema, exclude), Select(InRange(schema, ranges[Slot(i)]), table));
    }

    lemma {:induction false} VisitsAscending(i: nat)
      requires i <= |ranges| && ascending
      ensures VisitsFrom(i) == ScanAscending(schema, table, ranges[i..], exclude)
      decreases |ranges| - i
    {
      hide Visit, ScanRange, Select, InRange, NotExcluded;
      if i < |ranges| {
        VisitsAscending(i + 1);
        OneVisit(i);
        VisitIsRange(i);
        assert ranges[i..][1..] == ranges[i + 1..];
      }
    }

    lemma {:induction false} VisitsDescending(i: nat)
      requires i <= |ranges| && !ascending
      ensures VisitsFrom(i) == ScanDescending(schema, table, ranges[..|ranges| - i], exclude)
      decreases |ranges| - i
    {
      hide Visit, ScanRange, Select, InRange, NotExcluded, Reversed;
      if i < |ranges| {
        var n := |ranges| - i;
        VisitsDescending(i + 1);
        OneVisit(i);
        VisitIsRange(i);
        assert ranges[..n][..n - 1] == ranges[..n - 1] && ranges[..n][n - 1] == ranges[n - 1];
      }
    }

    lemma VisitsAreScan()
      ensures VisitsFrom(0) == Scan(schema, table, ranges, exclude, ascending)
    {
      if ascending {
        VisitsAscending(0);
        assert ranges[0..] == ranges;
      } else {
        VisitsDescending(0);
        assert ranges[..|ranges| - 0] == ranges;
      }
    }

    // The point lookup of the storage.
    method Find(key: Value) returns (found: Option<Row>)
      requires IsTable(schema, table) && Fits(key, KeyTypeOf(schema))
      ensures found == Lookup(schema, table, key)
    {
      for k := 0 to |table|
        invariant Lookup(schema, table[k..], key) == Lookup(schema, table, key)
      {
        assert table[k..][1..] == table[k + 1..];
        if RowKey(schema, table[k]) == StoredKey(key, KeyTypeOf(schema)) {
          return Some(table[k]);
        }
      }
      return None;
    }

    /**
     After opening, the rows to come are the scan of the planned ranges. Only
     the point lookup reads the storage, so only it can fail; opening again is
     refused and changes nothing.
     */
    method Open(bad: Option<nat>) returns (status: Status)
      requires IsTable(schema, table) && AllTyped(ranges, KeyTypeOf(schema))
      modifies this
      ensures old(isOpen) ==> status == AlreadyOpen && unchanged(this)
      ensures !old(isOpen) ==> isOpen && Valid()
      ensures !old(isOpen) && status == Ready ==>
                error.None? && Pending() == Scan(schema, table, ranges, exclude, ascending)
      ensures !old(isOpen) && status != Ready ==>
                bad.Some? && status == ReadFailed(bad.value) && error == bad && |ranges| == 1 && IsPoint(ranges[0])
    {
      hide Scan, AllTyped, IsTable, IsPoint, Excluded;
      if isOpen {
        return AlreadyOpen;
      }
      isOpen, error := true, None;
      rangeIndex, cursor, pointRow, pointLookup, done := 0, None, None, false, false;
      if |ranges| == 1 && IsPoint(ranges[0]) {
        var key := PointValue(ranges[0]);
        if !key.Null? && !Excluded(exclude, key) {
          status := OpenPoint(key, bad);
          return;
        }
      }
      var found := OpenRange(0);
      VisitsAreScan();
      done := !found;
      return Ready;
    }

    // One point that is not skipped is a single lookup.
    method OpenPoint(key: Value, bad: Option<nat>) returns (status: Status)
      requires IsTable(schema, table) && AllTyped(ranges, KeyTypeOf(schema)) && Valid() && !done && error.None?
      requires |ranges| == 1 && IsPoint(ranges[0]) && key == PointValue(ranges[0]) && !Excluded(exclude, key)
      modifies this`pointLookup, this`pointRow, this`done, this`error
      ensures Valid()
      ensures bad.None? ==>
                status == Ready && error.None? && Pending() == Scan(schema, table, ranges, exclude, ascending)
      ensures bad.Some? ==> status == ReadFailed(bad.value) && error == bad
    {
      pointLookup := true;
      if bad.Some? {
        error := bad;
        return ReadFailed(bad.value);
      }
      PointFits(ranges[0], KeyTypeOf(schema));
      hide Scan, IsTable, IsPoint, Excluded, Lookup;
      pointRow := Find(key);
      PointIsScan(schema, table, ranges, exclude, ascending);
      done := pointRow.None?;
      return Ready;
    }

    /**
     Pulls the next row; skipped keys and range changes stay invisible. A read
     that fails is reported, and again on every later pull.
     */
    method Next(bad: Option<BadRead>) returns (r: Fetched)
      requires Valid()
      modifies this
      ensures Valid() && isOpen == old(isOpen)
      ensures old(error).Some? ==> r == Error(old(error).value) && unchanged(this)
      ensures old(error).None? && r.Error? ==> bad.Some? && r == Error(bad.value.code) && error == Some(r.code)
      ensures old(error).None? && !r.Error? ==>
                && r == Nth(old(Pending()), None, 0) && error.None?
                && Pending() == if r.Got? then old(Pending())[1..] else []
    {
      if error.Some? {
        return Error(error.value);
      }
      if done {
        r := End;
      } else if pointLookup {
        if pointRow.Some? {
          r := Got(pointRow.value);
          pointRow := None;
        } else {
          r := End;
        }
      } else {
        r := NextInRanges(bad);
      }
    }
  }

  // ------------------------------------------------------------------- filter

  class FilterExecutor {
    const reader: Reader
    const condition: Option<Cond>
    const child: Source

    constructor (reader: Reader, condition: Option<Cond>, child: Source)
      ensures this.reader == reader && this.condition == condition && this.child == child
    {
      this.reader := reader;
      this.condition := condition;
      this.child := child;
    }

    // The rows still to come; an error of the child is passed on behind them.
    ghost function Pending(): seq<Row>
      reads child
      requires child.Valid()
    {
      Select(Passes(reader, condition), child.rows[child.pos..])
    }

    method Next() returns (r: Fetched)
      requires child.Valid()
      modifies child
      ensures child.Valid() && r == Nth(old(Pending()), child.failure, 0)
      ensures Pending() == if r.Got? then old(Pending())[1..] else []
    {
      hide Passes;
      while true
        invariant child.Valid() && Pending() == old(Pending())
        decreases |child.rows| - child.pos
      {
        ghost var rest := child.rows[child.pos..];
        var row := child.Next();
        if !row.Got? {
          return row;
        }
        assert rest[1..] == child.rows[child.pos..];
        if Passes(reader, condition)(row.row) {
          return row;
        }
      }
    }
  }

  // -------------------------------------------------------------------- limit

  class LimitExecutor {
    const limit: Limit
    const child: Source
    var skipped: nat
    var produced: nat
    var done: bool

    constructor (limit: Limit, child: Source)
      requires LimitFits(limit) && child.pos == 0
      ensures this.limit == limit && this.child == child && Valid() && !done && produced == 0
    {
      this.limit := limit;
      this.child := child;
      skipped, produced, done := 0, 0, false;
    }

    ghost predicate Valid()
      reads this, child
    {
      && child.Valid() && child.pos == skipped + produced
      && skipped <= Offset(limit) && produced <= Wanted(limit)
      && (produced > 0 ==> skipped == Offset(limit))
    }

    // The error of the child shows only if it comes before the limit is reached.
    ghost function Failure(): Option<nat> {
      if |child.rows| < Offset(limit) + Wanted(limit) then child.failure else None
    }

    /**
     Delivers the rows of the page one by one and never pulls more than
     OFFSET + LIMIT rows from the child.
     */
    method Next() returns (r: Fetched)
      requires Valid()
      modifies this, child
      ensures Valid() && child.pos <= Offset(limit) + Wanted(limit)
      ensures old(done) ==> r == End && done && unchanged(this) && unchanged(child)
      ensures !old(done) ==> r == Nth(LimitRows(child.rows, limit), Failure(), old(produced))
      ensures produced == if r.Got? then old(produced) + 1 else old(produced)
      ensures done <==> !r.Got?
    {
      if done {
        return End;
      }
      var offset, want := Offset(limit), Wanted(limit);
      while skipped < offset
        invariant Valid() && !done && produced == old(produced)
        decreases offset - skipped
      {
        var row := child.Next();
        if !row.Got? {
          done := true;
          return row;
        }
        skipped := skipped + 1;
      }
      if produced >= want {
        done := true;
        return End;
      }
      r := child.Next();
      if r.Got? {
        produced := produced + 1;
      } else {
        done := true;
      }
    }
  }

  // --------------------------------------------------------------------- sort

  class SortExecutor {
    const reader: Reader
    const schema: Schema
    const orderBy: seq<SortKey>
    const topN: Option<nat>
    const rowLimit: nat
    const child: Source
    var rows: seq<Row>
    var cursor: nat

    constructor (reader: Reader, schema: Schema, orderBy: seq<SortKey>, topN: Option<nat>, rowLimit: nat, child: Source)
      ensures this.reader == reader && this.schema == schema && this.orderBy == orderBy
      ensures this.topN == topN && this.rowLimit == rowLimit && this.child == child
    {
      this.reader := reader;
      this.schema := schema;
      this.orderBy := orderBy;
      this.topN := topN;
      this.rowLimit := rowLimit;
      this.child := child;
      rows, cursor := [], 0;
    }

    ghost function Keys(): seq<SortKey> {
      SortKeys(schema, orderBy)
    }

    method Next() returns (r: Fetched)
      requires cursor <= |rows|
      modifies this`cursor
      ensures r == Nth(rows, None, old(cursor))
      ensures cursor == if r.Got? then old(cursor) + 1 else old(cursor)
    {
      if cursor >= |rows| {
        return End;
      }
      r := Got(rows[cursor]);
      cursor := cursor + 1;
    }

    // One more row into the bounded heap.
    method Offer(ghost n: nat, row: Row)
      requires topN.Some? && n < |child.rows| && row == child.rows[n]
      requires Comparable(reader, schema, Keys(), child.rows)
      requires IsHeap(reader, Keys(), rows)
      requires multiset(rows) == multiset(Top(reader, Keys(), child.rows[..n], topN.value))
      modifies this`rows
      ensures IsHeap(reader, Keys(), rows)
      ensures multiset(rows) == multiset(Top(reader, Keys(), child.rows[..n + 1], topN.value))
    {
      hide RowLess, Top, Comparable, Linear, HeapAt;
      var keys, keep := SortKeys(schema, orderBy), topN.value;
      ghost var kept := Top(reader, keys, child.rows[..n], keep);
      TopStep(reader, schema, keys, child.rows, n, keep);
      assert |rows| == |kept| by {
        assert |multiset(rows)| == |rows| && |multiset(kept)| == |kept|;
      }
      if keep == 0 {
        return;
      }
      OfferedLinear(reader, schema, keys, child.rows, n, keep, rows + [row]);
      if |rows| < keep {
        assert (rows + [row])[..|rows|] == rows;
        rows := PushHeap(reader, schema, keys, rows + [row]);
      } else {
        FrontIsLast(reader, schema, keys, child.rows, n, keep, rows);
        if RowLess(reader, keys, row, rows[0]) {
          Replace(keys, row);
        }
      }
    }

    method Replace(keys: seq<SortKey>, row: Row)
      requires rows != [] && IsHeap(reader, keys, rows)
      requires Linear(reader, schema, keys, multiset(rows + [row]))
      modifies this`rows
      ensures IsHeap(reader, keys, rows)
      ensures multiset(rows) == multiset(old(rows)) - multiset{old(rows[0])} + multiset{row}
    {
      hide RowLess, Linear, HeapAt;
      SmallerBag(reader, schema, keys, multiset(rows + [row]), multiset(rows));
      var popped := PopHeap(reader, schema, keys, rows);
      var n := |popped| - 1;
      assert popped == popped[..n] + [popped[n]];
      var next := popped[..n] + [row];
      assert next[..n] == popped[..n];
      SmallerBag(reader, schema, keys, multiset(rows + [row]), multiset(next));
      rows := PushHeap(reader, schema, keys, next);
    }

    // The final sort, whatever algorithm performs it.
    method SortBuffer(keys: seq<SortKey>)
      modifies this`rows
      ensures rows == SortRows(reader, keys, old(rows))
    {
      hide InsertRow;
      var buffer, sorted := rows, [];
      for i := 0 to |buffer|
        invariant sorted == SortRows(reader, keys, buffer[..i])
      {
        SortSnoc(reader, keys, buffer, i);
        sorted := InsertRow(reader, keys, sorted, buffer[i]);
      }
      assert buffer[..|buffer|] == buffer;
      rows := sorted;
    }

    // The buffer's rows are the kept ones, so sorting it yields them in order.
    lemma BufferSorted(buffer: seq<Row>)
      requires Comparable(reader, schema, Keys(), child.rows) && topN.Some?
      requires multiset(buffer) == multiset(Top(reader, Keys(), child.rows, topN.value))
      ensures SortRows(reader, Keys(), buffer) == Top(reader, Keys(), child.rows, topN.value)
    {
      hide RowLess, RowFits, InsertRow, Ordered;
      var keys, all := Keys(), child.rows;
      var kept := Top(reader, keys, all, topN.value);
      SortRowsOk(reader, schema, keys, all);
      var sorted := SortRows(reader, keys, all);
      assert sorted == kept + sorted[|kept|..];
      TakeOrdered(reader, keys, sorted, topN.value);
      DistinctBag(schema, all, sorted, kept, buffer);
      SortRowsOk(reader, schema, keys, buffer);
      OrderIsUnique(reader, schema, keys, SortRows(reader, keys, buffer), kept) by {
        BagFits(schema, SortRows(reader, keys, buffer), buffer);
      }
    }

    /**
     Reads the whole child and leaves the requested rows ready in order; fails
     on an unknown column, on a full buffer without LIMIT, or when the child does.
     */
    method Open() returns (status: Status)
      requires child.Valid() && child.pos == 0
      requires KnownColumns(schema, orderBy) ==> Comparable(reader, schema, Keys(), child.rows)
      modifies this`rows, this`cursor, child
      ensures !KnownColumns(schema, orderBy) ==> status == NoSuchColumn
      ensures KnownColumns(schema, orderBy) && topN.None? && |child.rows| > rowLimit ==> status == OverMemory
      ensures KnownColumns(schema, orderBy) && (topN.Some? || |child.rows| <= rowLimit) ==>
                if child.failure.Some? then status == ChildFailed(child.failure.value)
                else status == Ready && cursor == 0 &&
                     rows == (if topN.Some? then Top(reader, Keys(), child.rows, topN.value)
                              else SortRows(reader, Keys(), child.rows))
    {
      hide RowLess, Top, Comparable, HeapAt;
      rows, cursor := [], 0;
      if !KnownColumns(schema, orderBy) {
        return NoSuchColumn;
      }
      var keys := SortKeys(schema, orderBy);
      assert topN.Some? ==> Top(reader, keys, child.rows[..0], topN.value) == [] by {
        TopOfNone(reader, keys, child.rows);
      }
      while true
        invariant child.Valid() && cursor == 0
        invariant topN.None? ==> rows == child.rows[..child.pos] && child.pos <= rowLimit
        invariant topN.Some? ==> IsHeap(reader, keys, rows)
        invariant topN.Some? ==> multiset(rows) == multiset(Top(reader, keys, child.rows[..child.pos], topN.value))
        decreases |child.rows| - child.pos
      {
        ghost var n := child.pos;
        var row := child.Next();
        if row.End? {
          assert child.rows[..n] == child.rows;
          break;
        }
        if row.Error? {
          return ChildFailed(row.code);
        }
        if topN.None? {
          if |rows| >= rowLimit {
            return OverMemory;
          }
          rows := rows + [row.row];
        } else {
          Offer(n, row.row);
        }
      }
      if topN.Some? {
        BufferSorted(rows);
      }
      SortBuffer(keys);
      return Ready;
    }
  }

  lemma TopOfNone(t: Reader, keys: seq<SortKey>, rows: seq<Row>)
    ensures forall k: nat :: Top(t, keys, rows[..0], k) == []
  {
  }

  // Keys stay distinct in any rearrangement of some of the rows.
  lemma DistinctBag(s: Schema, all: seq<Row>, sorted: seq<Row>, kept: seq<Row>, buffer: seq<Row>)
    requires RowsFit(s, all) && DistinctKeys(s.pk, all) && multiset(sorted) == multiset(all)
    requires multiset(kept) <= multiset(sorted) && multiset(buffer) == multiset(kept)
    ensures RowsFit(s, buffer) && DistinctKeys(s.pk, buffer)
  {
    forall i | 0 <= i < |buffer|
      ensures RowFits(s, buffer[i])
    {
      assert buffer[i] in multiset(buffer);
      assert buffer[i] in multiset(all);
    }
    forall i, j | 0 <= i < j < |buffer|
      ensures Apart(s.pk, buffer[i], buffer[j])
    {
      TwoPlaces(buffer, i, j);
      if buffer[i] == buffer[j] {
        assert multiset(all)[buffer[i]] >= 2;
        OnePlace(s.pk, all, buffer[i]);
      } else {
        assert buffer[i] in multiset(all) && buffer[j] in multiset(all);
        var a :| 0 <= a < |all| && all[a] == buffer[i];
        var b :| 0 <= b < |all| && all[b] == buffer[j];
        assert if a < b then Apart(s.pk, all[a], all[b]) else Apart(s.pk, all[b], all[a]);
      }
    }
  }

  lemma TwoPlaces(rows: seq<Row>, i: nat, j: nat)
    requires i < j < |rows|
    ensures rows[i] in multiset(rows) && rows[j] in multiset(rows)
    ensures rows[i] == rows[j] ==> multiset(rows)[rows[i]] >= 2
  {
    assert rows == rows[..j] + rows[j..];
    assert rows[..j][i] in multiset(rows[..j]) && rows[j..][0] in multiset(rows[j..]);
  }

  lemma DistinctTail(pk: string, rows: seq<Row>)
    requires DistinctKeys(pk, rows) && rows != []
    ensures DistinctKeys(pk, rows[1..])
  {
    forall i, j | 0 <= i < j < |rows[1..]|
      ensures Apart(pk, rows[1..][i], rows[1..][j])
    {
      assert Apart(pk, rows[i + 1], rows[j + 1]);
    }
  }

  lemma {:induction false} OnePlace(pk: string, rows: seq<Row>, row: Row)
    requires DistinctKeys(pk, rows)
    ensures multiset(rows)[row] <= 1
  {
    if rows != [] {
      DistinctTail(pk, rows);
      OnePlace(pk, rows[1..], row);
      assert rows == [rows[0]] + rows[1..];
      if rows[0] == row {
        forall j | 0 <= j < |rows[1..]|
          ensures rows[1..][j] != row
        {
          assert Apart(pk, rows[0], rows[j + 1]);
        }
        assert row !in rows[1..];
      }
    }
  }

}
