/**
 SELECT end to end: whatever ranges, filter and operators the planner chose, the
 rows delivered are those of the statement's meaning, in its order.
 */
module SelectExact {
  import opened Wrappers
  import opened Bytes
  import opened SqlValues
  import opened KeyCodec
  import opened Conditions
  import R = Rewriter
  import M = RewriterMeaning
  import opened KeyRanges
  import opened Optimizer
  import opened OptimizerRanges
  import opened OptimizerPlan
  import opened PlanExact
  import opened RowOrder
  import opened Execution

  // ------------------------------------------------------------------- scans

  lemma {:induction false} SeparatedPairs(rs: seq<KeyRange>, i: nat, j: nat, ty: DataType)
    requires Separated(rs, ty) && i < j < |rs|
    ensures Less(End(rs[i], ty), Start(rs[j], ty))
    decreases j - i
  {
    hide Typed, IsEmpty, Start, End;
    assert Gap(rs, i, ty);
    if i + 1 < j {
      SeparatedPairs(rs, i + 1, j, ty);
      Ends(rs[i + 1], ty);
      LessTransitive(Start(rs[i + 1], ty), End(rs[i + 1], ty), Start(rs[j], ty));
      LessTransitive(End(rs[i], ty), Start(rs[i + 1], ty), Start(rs[j], ty));
    }
  }

  function ScanTest(s: Schema, rs: seq<KeyRange>, exclude: seq<Value>): RowTest {
    row => s.pk in row && Covers(rs, row[s.pk]) && !Excluded(exclude, row[s.pk])
  }

  lemma InRangeIsContains(s: Schema, row: Row, r: KeyRange)
    requires RowFits(s, row) && Typed(r, KeyTypeOf(s))
    ensures InRange(s, r)(row) <==> Contains(r, row[s.pk])
  {
    hide Scanned, StoredKey, Typed;
    ContainsIsScanned(r, row[s.pk], KeyTypeOf(s));
    EmptyHoldsNothing(r, row[s.pk]);
  }

  lemma RangeSelected(s: Schema, rows: seq<Row>, r: KeyRange, exclude: seq<Value>)
    requires IsTable(s, rows) && Typed(r, KeyTypeOf(s))
    ensures ScanRange(s, rows, r, exclude) == Select(ScanTest(s, [r], exclude), rows)
  {
    hide Typed, Contains, Covers, Excluded, InRange;
    forall i | 0 <= i < |rows|
      ensures ScanTest(s, [r], exclude)(rows[i]) ==
              (InRange(s, r)(rows[i]) && NotExcluded(s, exclude)(rows[i]))
    {
      InRangeIsContains(s, rows[i], r);
      CoversSingle(r, rows[i][s.pk]);
    }
    SelectTwice(InRange(s, r), NotExcluded(s, exclude), ScanTest(s, [r], exclude), rows);
  }

  lemma TypeOfKey(s: Schema, row: Row)
    requires RowFits(s, row)
    ensures KeyTypeOf(s) == s.columns[s.pk]
  {
  }

  // A row of a later range never comes before a row of the first one.
  lemma FirstRangeFirst(s: Schema, rows: seq<Row>, rs: seq<KeyRange>, i: nat, j: nat)
    requires IsTable(s, rows) && Separated(rs, KeyTypeOf(s)) && rs != []
    requires i <= j < |rows| && Covers(rs[1..], rows[i][s.pk])
    ensures !Contains(rs[0], rows[j][s.pk])
  {
    hide Contains, StoredKey, Typed, Start, End, IsEmpty, KeyTypeOf, NullKey, UpperKey;
    var ty := KeyTypeOf(s);
    var low, high := RowKey(s, rows[i]), RowKey(s, rows[j]);
    assert KeyTypeOf(s) == s.columns[s.pk] by {
      TypeOfKey(s, rows[i]);
    }
    var k :| 0 <= k < |rs[1..]| && Contains(rs[1..][k], rows[i][s.pk]);
    assert rs[1..][k] == rs[k + 1];
    ContainsIsScanned(rs[k + 1], rows[i][s.pk], ty);
    SeparatedPairs(rs, 0, k + 1, ty);
    LessAtMost(End(rs[0], ty), Start(rs[k + 1], ty), low);
    LessIsIrreflexive(low);
    if i < j {
      LessTransitive(End(rs[0], ty), low, high);
    }
    LessIsStrict(End(rs[0], ty), high);
    ContainsIsScanned(rs[0], rows[j][s.pk], ty);
  }

  lemma SeparatedTail(rs: seq<KeyRange>, ty: DataType)
    requires Separated(rs, ty) && rs != []
    ensures Separated(rs[1..], ty)
  {
    hide Typed, IsEmpty, Start, End;
    forall i | 0 <= i < |rs[1..]| - 1
      ensures Gap(rs[1..], i, ty)
    {
      assert Gap(rs, i + 1, ty);
    }
  }

  /** Scanning the ranges one after another selects the covered rows in key order. */
  lemma {:induction false} ScanExact(s: Schema, rows: seq<Row>, rs: seq<KeyRange>, exclude: seq<Value>)
    requires IsTable(s, rows) && Separated(rs, KeyTypeOf(s))
    ensures ScanAscending(s, rows, rs, exclude) == Select(ScanTest(s, rs, exclude), rows)
  {
    hide Typed, Contains, Covers, Excluded, ScanRange, Start, End, IsEmpty;
    if rs == [] {
      forall i | 0 <= i < |rows|
        ensures !ScanTest(s, rs, exclude)(rows[i])
      {
        EmptyCovers(rows[i][s.pk], Unknown);
      }
      SelectNone(ScanTest(s, rs, exclude), rows);
    } else {
      SeparatedTail(rs, KeyTypeOf(s));
      ScanExact(s, rows, rs[1..], exclude);
      RangeSelected(s, rows, rs[0], exclude);
      var p, q := ScanTest(s, [rs[0]], exclude), ScanTest(s, rs[1..], exclude);
      forall i | 0 <= i < |rows|
        ensures ScanTest(s, rs, exclude)(rows[i]) == (p(rows[i]) || q(rows[i]))
      {
        assert rs == [rs[0]] + rs[1..];
        CoversConcat([rs[0]], rs[1..], rows[i][s.pk]);
      }
      forall i, j | 0 <= i <= j < |rows| && q(rows[i])
        ensures !p(rows[j])
      {
        FirstRangeFirst(s, rows, rs, i, j);
        CoversSingle(rs[0], rows[j][s.pk]);
      }
      SelectEither(p, q, ScanTest(s, rs, exclude), rows);
    }
  }

  lemma ScanOfNothing(s: Schema, rows: seq<Row>, exclude: seq<Value>)
    requires IsTable(s, rows)
    ensures ScanAscending(s, rows, [Empty(KeyTypeOf(s))], exclude) ==
            Select(ScanTest(s, [Empty(KeyTypeOf(s))], exclude), rows)
  {
    var r := Empty(KeyTypeOf(s));
    assert [r][1..] == [];
    SelectNone(InRange(s, r), rows);
    forall i | 0 <= i < |rows|
      ensures !ScanTest(s, [r], exclude)(rows[i])
    {
      EmptyCovers(rows[i][s.pk], KeyTypeOf(s));
    }
    SelectNone(ScanTest(s, [r], exclude), rows);
  }

  // ---------------------------------------------------------- scan and filter

  ghost predicate Planable(text: R.Printer, s: Schema, where: Option<Cond>) {
    && s.pk in s.columns && !s.columns[s.pk].Unknown?
    && M.Faithful(text) && CleanPlan(text, where, s.pk) && LeavesOf(where, KeyTyped(s.pk, KeyTypeOf(s)))
  }

  lemma PlanIsGood(text: R.Printer, s: Schema, where: Option<Cond>, cheaper: bool)
    requires Planable(text, s, where)
    ensures var planned := Optimize(text, where, s.pk, KeyTypeOf(s), cheaper);
            planned.Ok? && GoodRanges(planned.plan.ranges, KeyTypeOf(s))
  {
    hide Optimize, M.Faithful, CleanPlan, LeavesOf, GoodRanges, Selected;
    var t := Reader(_ => None, _ => None, _ => None, _ => None, (_, _) => false);
    OptimizeExact(t, map[s.pk := Null], text, where, s.pk, KeyTypeOf(s), cheaper);
  }

  lemma RowSelected(t: Reader, text: R.Printer, s: Schema, row: Row, where: Option<Cond>, cheaper: bool)
    requires Planable(text, s, where) && RowFits(s, row)
    ensures var planned := Optimize(text, where, s.pk, KeyTypeOf(s), cheaper);
            && planned.Ok? && GoodRanges(planned.plan.ranges, KeyTypeOf(s))
            && (ScanTest(s, planned.plan.ranges, planned.plan.exclude)(row) && Passes(t, planned.plan.filter)(row)
                <==> Passes(t, where)(row))
  {
    hide Optimize, Covers, Excluded, M.Faithful, CleanPlan, LeavesOf, GoodRanges, Keeps;
    OptimizeExact(t, row, text, where, s.pk, KeyTypeOf(s), cheaper);
  }

  lemma GoodScan(s: Schema, rows: seq<Row>, rs: seq<KeyRange>, exclude: seq<Value>)
    requires IsTable(s, rows) && GoodRanges(rs, KeyTypeOf(s))
    ensures ScanAscending(s, rows, rs, exclude) == Select(ScanTest(s, rs, exclude), rows)
  {
    if Separated(rs, KeyTypeOf(s)) {
      ScanExact(s, rows, rs, exclude);
    } else {
      ScanOfNothing(s, rows, exclude);
    }
  }

  function Directed(rows: seq<Row>, ascending: bool): seq<Row> {
    if ascending then rows else Reversed(rows)
  }

  /** The scan chain delivers the rows whose WHERE is TRUE, in key order. */
  lemma ChainExact(t: Reader, text: R.Printer, s: Schema, table: seq<Row>, where: Option<Cond>,
                   cheaper: bool, ascending: bool)
    requires Planable(text, s, where) && IsTable(s, table)
    ensures var planned := Optimize(text, where, s.pk, KeyTypeOf(s), cheaper);
            && planned.Ok?
            && Select(Passes(t, planned.plan.filter),
                      Scan(s, table, planned.plan.ranges, planned.plan.exclude, ascending))
               == Directed(Select(Passes(t, where), table), ascending)
  {
    hide Optimize, GoodRanges, ScanTest, Passes, ScanAscending, ScanDescending, Planable;
    PlanIsGood(text, s, where, cheaper);
    var plan := Optimize(text, where, s.pk, KeyTypeOf(s), cheaper).plan;
    var scan, pass := ScanTest(s, plan.ranges, plan.exclude), Passes(t, plan.filter);
    forall i | 0 <= i < |table|
      ensures Passes(t, where)(table[i]) == (scan(table[i]) && pass(table[i]))
    {
      RowSelected(t, text, s, table[i], where, cheaper);
    }
    SelectTwice(scan, pass, Passes(t, where), table);
    GoodScan(s, table, plan.ranges, plan.exclude);
    DescendingIsReversed(s, table, plan.ranges, plan.exclude);
    SelectReversed(pass, Select(scan, table));
  }

  // -------------------------------------------------------- sort elimination

  // The key decides before any later ORDER BY column is looked at.
  lemma KeyDecides(t: Reader, s: Schema, keys: seq<SortKey>, a: Row, b: Row)
    requires RowFits(s, a) && RowFits(s, b) && keys != [] && keys[0].column == s.pk
    requires Less(RowKey(s, a), RowKey(s, b))
    ensures if keys[0].ascending then RowLess(t, keys, a, b) else RowLess(t, keys, b, a)
  {
    var ty := KeyTypeOf(s);
    KeyOrder(a[s.pk], b[s.pk], ty);
    PrecedesIsTotal(a[s.pk], b[s.pk], ty);
    CompareIsOrder(t, a[s.pk], b[s.pk], ty);
    CompareIsOrder(t, b[s.pk], a[s.pk], ty);
  }

  lemma ScanIsOrdered(t: Reader, s: Schema, keys: seq<SortKey>, rows: seq<Row>)
    requires IsTable(s, rows) && keys != [] && keys[0].column == s.pk
    ensures Ordered(t, keys, Directed(rows, keys[0].ascending))
    ensures multiset(Directed(rows, keys[0].ascending)) == multiset(rows)
  {
    hide RowLess, RowKey, RowFits;
    ReversedBag(rows);
    var out := Directed(rows, keys[0].ascending);
    forall i, j | 0 <= i < j < |out|
      ensures RowLess(t, keys, out[i], out[j])
    {
      if keys[0].ascending {
        KeyDecides(t, s, keys, rows[i], rows[j]);
      } else {
        ReversedAt(rows, 0);
        ReversedAt(rows, i);
        ReversedAt(rows, j);
        KeyDecides(t, s, keys, rows[|rows| - 1 - j], rows[|rows| - 1 - i]);
      }
    }
  }

  lemma TableComparable(t: Reader, s: Schema, orderBy: seq<SortKey>, rows: seq<Row>)
    requires IsTable(s, rows) && KnownColumns(s, orderBy) && s.pk in s.columns
    ensures Comparable(t, s, SortKeys(s, orderBy), rows)
  {
    var keys := SortKeys(s, orderBy);
    assert keys[|keys| - 1].column == s.pk;
    forall i, j | 0 <= i < j < |rows|
      ensures Apart(s.pk, rows[i], rows[j])
    {
      LessIsStrict(RowKey(s, rows[i]), RowKey(s, rows[j]));
    }
  }

  /** Scanning in the direction of a leading key column is the full sort. */
  lemma SortElimination(t: Reader, s: Schema, orderBy: seq<SortKey>, rows: seq<Row>)
    requires IsTable(s, rows) && KnownColumns(s, orderBy) && s.pk in s.columns
    requires orderBy != [] && orderBy[0].column == s.pk
    ensures Directed(rows, orderBy[0].ascending) == SortRows(t, SortKeys(s, orderBy), rows)
  {
    hide RowLess, RowKey, RowFits;
    var keys := SortKeys(s, orderBy);
    assert keys[0] == orderBy[0];
    var sorted := SortRows(t, keys, rows);
    ScanIsOrdered(t, s, keys, rows);
    TableComparable(t, s, orderBy, rows);
    SortRowsOk(t, s, keys, rows);
    BagFits(s, sorted, rows);
    OrderIsUnique(t, s, keys, sorted, Directed(rows, orderBy[0].ascending));
  }

  // --------------------------------------------------------- first N of a sort

  /** Cutting the sort at the saturated OFFSET + LIMIT does not change the page. */
  lemma TopNThenLimit(rows: seq<Row>, l: Limit)
    requires LimitFits(l) && l.count.Some? && |rows| <= SIZE_MAX
    ensures LimitRows(Take(rows, TopNCount(l)), l) == Page(rows, l)
  {
  }

  lemma LimitIsPage(rows: seq<Row>, l: Limit)
    requires |rows| <= SIZE_MAX
    ensures LimitRows(rows, l) == Page(rows, l)
    ensures l.count.None? && l.offset.None? ==> Page(rows, l) == rows
  {
  }

  // -------------------------------------------------------------- the theorem

  // A full sort without LIMIT must fit the sort buffer.
  predicate OverLimit(t: Reader, s: Schema, table: seq<Row>, q: Statement, rowLimit: nat) {
    q.orderBy != [] && !SatisfiedByScan(s, q) && q.limit.count.None? &&
    |Select(Passes(t, q.where), table)| > rowLimit
  }

  lemma {:induction false} SelectLength(p: RowTest, rows: seq<Row>)
    ensures |Select(p, rows)| <= |rows|
  {
    if rows != [] {
      SelectLength(p, rows[1..]);
    }
  }

  lemma {:induction false} SortLength(t: Reader, keys: seq<SortKey>, rows: seq<Row>)
    ensures |SortRows(t, keys, rows)| == |rows|
  {
    if rows != [] {
      SortLength(t, keys, rows[..|rows| - 1]);
      InsertLength(t, keys, SortRows(t, keys, rows[..|rows| - 1]), rows[|rows| - 1]);
    }
  }

  lemma {:induction false} InsertLength(t: Reader, keys: seq<SortKey>, sorted: seq<Row>, row: Row)
    ensures |InsertRow(t, keys, sorted, row)| == |sorted| + 1
  {
    if sorted != [] {
      InsertLength(t, keys, sorted[1..], row);
    }
  }

  /**
   SELECT is exact: for every table, WHERE, ORDER BY, LIMIT and cost decision
   the plan delivers the statement's rows in the statement's order, unless the
   full sort it needs exceeds the buffer.
   */
  lemma SelectIsExact(t: Reader, text: R.Printer, s: Schema, table: seq<Row>, q: Statement,
                      cheaper: bool, rowLimit: nat)
    requires Planable(text, s, q.where) && IsTable(s, table) && |table| <= SIZE_MAX
    requires KnownColumns(s, q.orderBy) && LimitFits(q.limit)
    ensures var planned := Optimize(text, q.where, s.pk, KeyTypeOf(s), cheaper);
            && planned.Ok?
            && Execute(t, s, table, q, planned.plan, rowLimit) ==
               if OverLimit(t, s, table, q, rowLimit) then MemoryLimit else Rows(Reference(t, s, table, q))
  {
    assert s.pk in s.columns;
    hide Optimize, Planable, IsTable, SortRows, LimitRows, Page, Scan, Passes, SortKeys, KnownColumns, TopNCount;
    var kept := Select(Passes(t, q.where), table);
    ChainExact(t, text, s, table, q.where, cheaper, Direction(s, q));
    SelectTable(s, Passes(t, q.where), table);
    SelectLength(Passes(t, q.where), table);
    if q.orderBy == [] {
      LimitIsPage(kept, q.limit);
    } else {
      var sorted := SortRows(t, SortKeys(s, q.orderBy), kept);
      SortLength(t, SortKeys(s, q.orderBy), kept);
      LimitIsPage(sorted, q.limit);
      if SatisfiedByScan(s, q) {
        SortElimination(t, s, q.orderBy, kept);
      } else if q.limit.count.Some? {
        TopNThenLimit(sorted, q.limit);
      }
    }
  }

}
