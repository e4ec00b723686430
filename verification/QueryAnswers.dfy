/**
 What the reference answer of a SELECT is, told without its own definition:
 which rows, how often, in which order, and which of them are on the page.
 */
module QueryAnswers {
  import opened Wrappers
  import opened Bytes
  import opened SqlValues
  import opened KeyCodec
  import opened Conditions
  import opened Optimizer
  import opened OptimizerPlan
  import opened RowOrder
  import opened Execution

  // ------------------------------------------------------------------- pages

  /** OFFSET skips that many rows, LIMIT ends the page after that many, and what is missing is 0 and no end. */
  lemma PageExact(rows: seq<Row>, l: Limit, i: nat)
    ensures var skip := if l.offset == None then 0 else l.offset.value;
            var left := if skip < |rows| then |rows| - skip else 0;
            && |Page(rows, l)| == (if l.count != None && l.count.value < left then l.count.value else left)
            && (i < |Page(rows, l)| ==> skip + i < |rows| && Page(rows, l)[i] == rows[skip + i])
  {
  }

  /** The sort keeps OFFSET + LIMIT rows, or as many as a machine word can count. */
  lemma TopNExact(l: Limit)
    requires l.count.Some? && l.count.value < 0x1_0000_0000_0000_0000
    requires l.offset.Some? ==> l.offset.value < 0x1_0000_0000_0000_0000
    ensures LimitFits(l)
    ensures var sum := l.count.value + if l.offset.Some? then l.offset.value else 0;
            TopNCount(l) == if sum < 0x1_0000_0000_0000_0000 then sum else 0xFFFF_FFFF_FFFF_FFFF
  {
  }

  // --------------------------------------------------------------- selections

  /** Selecting keeps every row that passes as often as it occurs, and no other. */
  lemma {:induction false} SelectedBag(p: RowTest, rows: seq<Row>, row: Row)
    ensures multiset(Select(p, rows))[row] == if p(row) then multiset(rows)[row] else 0
  {
    if rows != [] {
      SelectedBag(p, rows[1..], row);
      assert rows == [rows[0]] + rows[1..];
      var head := if p(rows[0]) then [rows[0]] else [];
      assert multiset(head + Select(p, rows[1..])) == multiset(head) + multiset(Select(p, rows[1..]));
    }
  }

  // ------------------------------------------------------------------ answers

  /**
   Without a limit the answer holds every row of the table whose WHERE is TRUE
   and no other, each once; with one it is the page of that answer.
   */
  lemma AnswerRows(t: Reader, s: Schema, table: seq<Row>, q: Statement, row: Row)
    requires IsTable(s, table) && KnownColumns(s, q.orderBy) && s.pk in s.columns
    ensures var whole := Reference(t, s, table, q.(limit := Limit(None, None)));
            && multiset(whole)[row] == (if Keeps(t, row, q.where) then multiset(table)[row] else 0)
            && Reference(t, s, table, q) == Page(whole, q.limit)
  {
    hide SortRows, SortKeys, IsTable;
    var kept := Select(Passes(t, q.where), table);
    SelectedBag(Passes(t, q.where), table, row);
    SelectTable(s, Passes(t, q.where), table);
    if q.orderBy != [] { SortedTable(t, s, q.orderBy, kept); }
  }

  lemma SortedTable(t: Reader, s: Schema, orderBy: seq<SortKey>, rows: seq<Row>)
    requires IsTable(s, rows) && KnownColumns(s, orderBy) && s.pk in s.columns
    ensures var sorted := SortRows(t, SortKeys(s, orderBy), rows);
            multiset(sorted) == multiset(rows) && Ordered(t, SortKeys(s, orderBy), sorted)
  {
    hide SortRows;
    KeysTellApart(t, s, orderBy, rows);
    SortRowsOk(t, s, SortKeys(s, orderBy), rows);
  }

  lemma KeysTellApart(t: Reader, s: Schema, orderBy: seq<SortKey>, rows: seq<Row>)
    requires IsTable(s, rows) && KnownColumns(s, orderBy) && s.pk in s.columns
    ensures Comparable(t, s, SortKeys(s, orderBy), rows)
  {
    var keys := SortKeys(s, orderBy);
    assert keys[|keys| - 1].column == s.pk;
    forall i, j | 0 <= i < j < |rows| ensures Apart(s.pk, rows[i], rows[j]) {
      LessIsStrict(RowKey(s, rows[i]), RowKey(s, rows[j]));
    }
  }

  // a comes before b, as ORDER BY says, or by primary key where it says nothing.
  ghost predicate InOrder(s: Schema, orderBy: seq<SortKey>, a: Row, b: Row) {
    && s.pk in a && s.pk in b
    && ((exists k :: DecidedAt(orderBy, a, b, k)) || (Same(orderBy, a, b) && Precedes(a[s.pk], b[s.pk])))
  }

  lemma SortedInOrder(t: Reader, s: Schema, orderBy: seq<SortKey>, rows: seq<Row>, x: nat, y: nat)
    requires IsTable(s, rows) && KnownColumns(s, orderBy) && s.pk in s.columns && orderBy != []
    requires x < y < |SortRows(t, SortKeys(s, orderBy), rows)|
    ensures var sorted := SortRows(t, SortKeys(s, orderBy), rows); InOrder(s, orderBy, sorted[x], sorted[y])
  {
    hide SortRows, Same, DecidedAt, RowLess;
    SortedTable(t, s, orderBy, rows);
    var sorted := SortRows(t, SortKeys(s, orderBy), rows);
    BagFits(s, sorted, rows);
    OrderByExact(t, s, orderBy, sorted[x], sorted[y]);
  }

  lemma TableInOrder(s: Schema, rows: seq<Row>, x: nat, y: nat)
    requires IsTable(s, rows) && x < y < |rows|
    ensures InOrder(s, [], rows[x], rows[y])
  {
    KeyOrderOfRows(s, rows[x], rows[y]);
  }

  /** The answer is in the order asked for, with the primary key deciding what ORDER BY leaves open. */
  lemma AnswerOrder(t: Reader, s: Schema, table: seq<Row>, q: Statement, i: nat, j: nat)
    requires IsTable(s, table) && KnownColumns(s, q.orderBy) && s.pk in s.columns
    requires i < j < |Reference(t, s, table, q)|
    ensures InOrder(s, q.orderBy, Reference(t, s, table, q)[i], Reference(t, s, table, q)[j])
  {
    hide SortRows, SortKeys, Passes, InOrder, IsTable, Page;
    var kept := Select(Passes(t, q.where), table);
    SelectTable(s, Passes(t, q.where), table);
    var ordered := if q.orderBy == [] then kept else SortRows(t, SortKeys(s, q.orderBy), kept);
    PageExact(ordered, q.limit, i);
    PageExact(ordered, q.limit, j);
    var skip := if q.limit.offset == None then 0 else q.limit.offset.value;
    if q.orderBy == [] { TableInOrder(s, kept, skip + i, skip + j); }
    else { SortedInOrder(t, s, q.orderBy, kept, skip + i, skip + j); }
  }

  lemma KeyOrderOfRows(s: Schema, a: Row, b: Row)
    requires RowFits(s, a) && RowFits(s, b)
    ensures Less(RowKey(s, a), RowKey(s, b)) <==> Precedes(a[s.pk], b[s.pk])
  {
    KeyOrder(a[s.pk], b[s.pk], s.columns[s.pk]);
  }

  /** An ORDER BY column the table lacks is an error whatever the plan, unless the key comes first. */
  lemma UnknownColumn(t: Reader, s: Schema, table: seq<Row>, q: Statement, plan: Plan, rowLimit: nat)
    requires LimitFits(q.limit) && q.orderBy != [] && q.orderBy[0].column != s.pk && !KnownColumns(s, q.orderBy)
    ensures Execute(t, s, table, q, plan, rowLimit) == ColumnNotFound
  {
    hide Scan, Select, SortRows;
  }

  // ------------------------------------------------------------------- tables

  /** Any rows of the schema with different keys make a table, once they are put in key order. */
  lemma TablesExist(t: Reader, s: Schema, rows: seq<Row>)
    requires RowsFit(s, rows) && DistinctKeys(s.pk, rows) && s.pk in s.columns
    ensures var table := SortRows(t, [SortKey(s.pk, true)], rows);
            IsTable(s, table) && multiset(table) == multiset(rows)
  {
    var keys := [SortKey(s.pk, true)];
    assert keys[0].column == s.pk;
    assert Comparable(t, s, keys, rows);
    hide SortRows;
    SortRowsOk(t, s, keys, rows);
    var table := SortRows(t, keys, rows);
    BagFits(s, table, rows);
    forall i, j | 0 <= i < j < |table| ensures Less(RowKey(s, table[i]), RowKey(s, table[j])) {
      var a, b := table[i], table[j];
      assert RowLess(t, keys, a, b);
      OneKey(t, s, a, b);
      KeyOrderOfRows(s, a, b);
    }
  }

  lemma OneKey(t: Reader, s: Schema, a: Row, b: Row)
    requires RowFits(s, a) && RowFits(s, b)
    ensures RowLess(t, [SortKey(s.pk, true)], a, b) <==> Precedes(a[s.pk], b[s.pk])
  {
    var keys := [SortKey(s.pk, true)];
    assert keys[1..] == [];
    CompareIsOrder(t, a[s.pk], b[s.pk], s.columns[s.pk]);
    PrecedesIsTotal(a[s.pk], b[s.pk], s.columns[s.pk]);
  }
}
