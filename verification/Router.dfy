/**
 Static routing of keys to Raft groups. On a validated table a key range is
 given to a group exactly when every key in it routes there, although only the
 table's boundaries and the start of the system prefix are looked at.
 */
module Router {
  import opened Wrappers
  import opened Bytes
  import opened KvStore

  // "@system/"
  const SYSTEM: Bytes := [64, 115, 121, 115, 116, 101, 109, 47]
  const COMMA: Byte := 44
  const SEMICOLON: Byte := 59

  datatype Route = Route(start: Bytes, end: Bytes, group: nat)

  type Table = seq<Route>

  predicate IsSystem(k: Bytes) {
    SYSTEM <= k
  }

  predicate Owns(r: Route, k: Bytes) {
    AtMost(r.start, k) && Less(k, r.end)
  }

  // --------------------------------------------------------------- validation

  predicate GoodRoute(r: Route) {
    && r.group != 0
    && Less(r.start, r.end)
    && COMMA !in r.start && SEMICOLON !in r.start && COMMA !in r.end && SEMICOLON !in r.end
    && !IsSystem(r.start) && !(Less(r.start, SYSTEM) && Less(SYSTEM, r.end))
  }

  predicate Distinct(t: Table) {
    forall i, j :: 0 <= i < j < |t| ==> t[i].group != t[j].group
  }

  // Row `i` starts where the row before it ends, or later.
  predicate Follows(t: Table, i: nat)
    requires 0 < i < |t|
  {
    AtMost(t[i - 1].end, t[i].start)
  }

  predicate InOrder(t: Table) {
    forall i :: 0 < i < |t| ==> Follows(t, i)
  }

  predicate NoHoles(t: Table) {
    forall g: nat :: 1 <= g <= |t| ==> HasGroup(t, g)
  }

  predicate HasGroup(t: Table, g: nat) {
    exists i :: 0 <= i < |t| && t[i].group == g
  }

  predicate Valid(t: Table) {
    (forall i :: 0 <= i < |t| ==> GoodRoute(t[i])) && Distinct(t) && InOrder(t) && NoHoles(t)
  }

  // ------------------------------------------------------------------- routing

  function Search(t: Table, k: Bytes): nat {
    if t == [] || Less(k, t[0].start) then 0
    else if Less(k, t[0].end) then t[0].group
    else Search(t[1..], k)
  }

  function GroupFor(t: Table, k: Bytes): nat {
    if IsSystem(k) then 0 else Search(t, k)
  }

  // The boundary lies strictly inside the range and routes elsewhere.
  predicate Crosses(t: Table, start: Bytes, end: Option<Bytes>, boundary: Bytes) {
    Less(start, boundary) && (end.Some? ==> Less(boundary, end.value)) &&
    GroupFor(t, boundary) != GroupFor(t, start)
  }

  predicate CrossesAny(t: Table, start: Bytes, end: Option<Bytes>) {
    Crosses(t, start, end, SYSTEM) ||
    exists i :: 0 <= i < |t| && (Crosses(t, start, end, t[i].start) || Crosses(t, start, end, t[i].end))
  }

  function RangeGroup(t: Table, start: Bytes, end: Option<Bytes>): Option<nat> {
    if end.Some? && AtMost(end.value, start) then Some(GroupFor(t, start))
    else if CrossesAny(t, start, end) then None
    else Some(GroupFor(t, start))
  }

  function OpGroup(t: Table, op: Op): Option<nat> {
    match op
    case Put(k, _) => Some(GroupFor(t, k))
    case Remove(k) => Some(GroupFor(t, k))
    case RemoveRange(start, end) => RangeGroup(t, start, Some(end))
  }

  function BatchFrom(t: Table, b: Batch, group: Option<nat>): Option<nat>
    decreases |b|
  {
    if b == [] then group
    else
      var g := OpGroup(t, b[0]);
      if g.None? || (group.Some? && group != g) then None
      else BatchFrom(t, b[1..], g)
  }

  function BatchGroup(t: Table, b: Batch): Option<nat> {
    BatchFrom(t, b, None)
  }

  // ---------------------------------------------------------- the system prefix

  lemma {:induction false} PrefixIsAtMost(p: Bytes, k: Bytes)
    requires p <= k
    ensures AtMost(p, k)
  {
    if p != [] {
      PrefixIsAtMost(p[1..], k[1..]);
    }
  }

  // What lies between a prefix and a string that has it, has it too.
  lemma {:induction false} BetweenHasPrefix(p: Bytes, x: Bytes, k: Bytes)
    requires p <= k && AtMost(p, x) && AtMost(x, k)
    ensures p <= x
  {
    if p != [] {
      assert x != [];
      BetweenHasPrefix(p[1..], x[1..], k[1..]);
      assert p == [p[0]] + p[1..] && x == [x[0]] + x[1..];
    }
  }

  // ------------------------------------------------------------- searching

  lemma {:induction false} StartsAscend(t: Table, i: nat, j: nat)
    requires Valid(t) && i < j < |t|
    ensures AtMost(t[i].end, t[j].start)
    decreases j - i
  {
    assert Follows(t, j);
    if i + 1 < j {
      StartsAscend(t, i, j - 1);
      LessAtMost(t[j - 1].start, t[j - 1].end, t[j].start);
      AtMostLess(t[i].end, t[j - 1].start, t[j].start);
      LessIsStrict(t[i].end, t[j].start);
    }
  }

  // From position `from` on the search finds the owner.
  lemma {:induction false} SearchFinds(t: Table, from: nat, i: nat, k: Bytes)
    requires Valid(t) && from <= i < |t| && Owns(t[i], k)
    ensures Search(t[from..], k) == t[i].group
    decreases i - from
  {
    var rest := t[from..];
    assert rest[0] == t[from] && rest[1..] == t[from + 1..];
    if from < i {
      StartsAscend(t, from, i);
      AtMostTransitive(t[from].end, t[i].start, k);
      LessAtMost(t[from].start, t[from].end, k);
      LessIsStrict(t[from].start, k);
      SearchFinds(t, from + 1, i, k);
    }
  }

  lemma {:induction false} SearchOwner(t: Table, k: Bytes) returns (i: nat)
    requires Search(t, k) != 0
    ensures i < |t| && Owns(t[i], k) && t[i].group == Search(t, k)
  {
    if Less(k, t[0].end) {
      i := 0;
    } else {
      var j := SearchOwner(t[1..], k);
      i := j + 1;
    }
  }

  // A data range holds no system key.
  lemma OwnsNoSystem(r: Route, k: Bytes)
    requires GoodRoute(r) && Owns(r, k)
    ensures !IsSystem(k)
  {
    if IsSystem(k) {
      PrefixIsAtMost(SYSTEM, k);
      if AtMost(SYSTEM, r.start) {
        BetweenHasPrefix(SYSTEM, r.start, k);
      } else {
        AtMostLess(SYSTEM, k, r.end);
      }
    }
  }

  lemma OwnerRoutes(t: Table, i: nat, k: Bytes)
    requires Valid(t) && i < |t| && Owns(t[i], k)
    ensures GroupFor(t, k) == t[i].group
  {
    OwnsNoSystem(t[i], k);
    SearchFinds(t, 0, i, k);
    assert t[0..] == t;
  }

  /** System keys always go to group 0, and on a valid table so does exactly what no route owns. */
  lemma DefaultGroup(t: Table, k: Bytes)
    ensures IsSystem(k) ==> GroupFor(t, k) == 0
    ensures Valid(t) ==> (GroupFor(t, k) == 0 <==> forall i :: 0 <= i < |t| ==> !Owns(t[i], k))
    ensures forall end :: AtMost(end, k) ==> RangeGroup(t, k, Some(end)) == Some(GroupFor(t, k))
  {
    if Valid(t) {
      hide NoHoles, Distinct;
      forall i | 0 <= i < |t| && Owns(t[i], k) ensures GroupFor(t, k) != 0 { OwnerRoutes(t, i, k); }
      if GroupFor(t, k) != 0 { var j := SearchOwner(t, k); }
    }
  }

  /** Neighbouring routes make a valid table in either numbering; a gap in the numbers or an overlap does not. */
  lemma ValidTables(a: Bytes, b: Bytes, c: Bytes)
    requires GoodRoute(Route(a, b, 1)) && GoodRoute(Route(b, c, 2))
    ensures Valid([]) && Valid([Route(a, b, 1), Route(b, c, 2)]) && Valid([Route(a, b, 2), Route(b, c, 1)])
    ensures !Valid([Route(a, b, 2)]) && !Valid([Route(a, b, 1), Route(b, c, 3)]) && !Valid([Route(a, b, 1), Route(b, c, 1)])
    ensures !Valid([Route(a, c, 1), Route(b, c, 2)]) && !Valid([Route(b, c, 1), Route(a, b, 2)])
  {
    LessIsIrreflexive(b);
    LessIsStrict(b, c);
    LessIsStrict(a, b);
    LessTransitive(a, b, c);
    LessIsStrict(a, c);
    TwoGroups(Route(a, b, 1), Route(b, c, 2));
    TwoGroups(Route(a, b, 2), Route(b, c, 1));
    assert !HasGroup([Route(a, b, 2)], 1);
    assert !HasGroup([Route(a, b, 1), Route(b, c, 3)], 2);
    var overlap, turned := [Route(a, c, 1), Route(b, c, 2)], [Route(b, c, 1), Route(a, b, 2)];
    assert !Follows(overlap, 1) && !Follows(turned, 1);
    var same := [Route(a, b, 1), Route(b, c, 1)];
    assert same[0].group == same[1].group;
  }

  lemma TwoGroups(r: Route, q: Route)
    requires (r.group, q.group) in {(1, 2), (2, 1)}
    ensures NoHoles([r, q])
  {
    var t := [r, q];
    assert t[0].group == r.group && t[1].group == q.group;
    assert HasGroup(t, r.group) && HasGroup(t, q.group);
  }

  /** A key belongs to data group g exactly when g's range owns it. */
  lemma GroupForExact(t: Table, i: nat, k: Bytes)
    requires Valid(t) && i < |t|
    ensures GroupFor(t, k) == t[i].group <==> Owns(t[i], k)
  {
    if Owns(t[i], k) {
      OwnerRoutes(t, i, k);
    }
    if GroupFor(t, k) == t[i].group {
      var j := SearchOwner(t, k);
      assert i == j;
    }
  }

  // ----------------------------------------------------------- whole ranges

  predicate Within(k: Bytes, start: Bytes, end: Option<Bytes>) {
    AtMost(start, k) && (end.Some? ==> Less(k, end.value))
  }

  // A key of the range that routes to another data group: the start of that
  // group's range is a crossing boundary.
  lemma EntersData(t: Table, start: Bytes, end: Option<Bytes>, k: Bytes)
    requires Valid(t) && Within(k, start, end) && GroupFor(t, k) != GroupFor(t, start) && GroupFor(t, k) != 0
    ensures CrossesAny(t, start, end)
  {
    var i := SearchOwner(t, k);
    var r := t[i];
    GroupForExact(t, i, start);
    assert !Owns(r, start);
    AtMostLess(start, k, r.end);
    assert Less(start, r.start);
    LessIsIrreflexive(r.start);
    OwnerRoutes(t, i, r.start);
    if end.Some? {
      AtMostLess(r.start, k, end.value);
    }
    assert Crosses(t, start, end, r.start);
  }

  // A key of the range that routes to group 0 while its start does not: the end
  // of the start's range, or the system prefix, is a crossing boundary.
  lemma LeavesData(t: Table, start: Bytes, end: Option<Bytes>, k: Bytes)
    requires Valid(t) && Within(k, start, end) && GroupFor(t, start) != 0 && GroupFor(t, k) == 0
    ensures CrossesAny(t, start, end)
  {
    var i := SearchOwner(t, start);
    var r := t[i];
    GroupForExact(t, i, k);
    AtMostTransitive(r.start, start, k);
    assert AtMost(r.end, k);
    if end.Some? {
      AtMostLess(r.end, k, end.value);
    }
    GroupForExact(t, i, r.end);
    LessIsIrreflexive(r.end);
    assert Crosses(t, start, end, r.end);
  }

  lemma AnyOtherCrosses(t: Table, start: Bytes, end: Option<Bytes>, k: Bytes)
    requires Valid(t) && Within(k, start, end) && GroupFor(t, k) != GroupFor(t, start)
    ensures CrossesAny(t, start, end)
  {
    if GroupFor(t, k) != 0 {
      EntersData(t, start, end, k);
    } else {
      LeavesData(t, start, end, k);
    }
  }

  /** A non-empty range is given to g exactly when every key of it routes to g. */
  lemma RangeGroupExact(t: Table, start: Bytes, end: Option<Bytes>, g: nat)
    requires Valid(t) && (end.Some? ==> Less(start, end.value))
    ensures RangeGroup(t, start, end) == Some(g) <==> forall k :: Within(k, start, end) ==> GroupFor(t, k) == g
  {
    hide GroupFor;
    LessIsIrreflexive(start);
    assert Within(start, start, end);
    if end.Some? {
      LessIsStrict(start, end.value);
    }
    if CrossesAny(t, start, end) {
      var b := Crossing(t, start, end);
      LessIsStrict(start, b);
      assert Within(b, start, end);
    } else {
      forall k | Within(k, start, end)
        ensures GroupFor(t, k) == GroupFor(t, start)
      {
        if GroupFor(t, k) != GroupFor(t, start) {
          AnyOtherCrosses(t, start, end, k);
        }
      }
    }
  }

  lemma Crossing(t: Table, start: Bytes, end: Option<Bytes>) returns (b: Bytes)
    requires CrossesAny(t, start, end)
    ensures Crosses(t, start, end, b)
  {
    if Crosses(t, start, end, SYSTEM) {
      b := SYSTEM;
    } else {
      var i :| 0 <= i < |t| && (Crosses(t, start, end, t[i].start) || Crosses(t, start, end, t[i].end));
      b := if Crosses(t, start, end, t[i].start) then t[i].start else t[i].end;
    }
  }

  // ----------------------------------------------------------------- batches

  // Every key the operation names or covers belongs to `g`.
  ghost predicate OpWithin(t: Table, op: Op, g: nat) {
    match op
    case Put(k, _) => GroupFor(t, k) == g
    case Remove(k) => GroupFor(t, k) == g
    case RemoveRange(start, end) => forall k :: Within(k, start, Some(end)) ==> GroupFor(t, k) == g
  }

  lemma OpGroupExact(t: Table, op: Op, g: nat)
    requires Valid(t) && ValidOp(op)
    ensures OpGroup(t, op) == Some(g) <==> OpWithin(t, op, g)
  {
    if op.RemoveRange? {
      RangeGroupExact(t, op.start, Some(op.end), g);
    }
  }

  lemma {:induction false} BatchFromExact(t: Table, b: Batch, group: Option<nat>, g: nat)
    ensures BatchFrom(t, b, group) == Some(g) <==>
            (b == [] ==> group == Some(g)) && (group.Some? ==> group == Some(g)) &&
            forall i :: 0 <= i < |b| ==> OpGroup(t, b[i]) == Some(g)
    decreases |b|
  {
    hide OpGroup;
    if b != [] {
      var first := OpGroup(t, b[0]);
      BatchFromExact(t, b[1..], first, g);
      if forall i :: 0 <= i < |b| ==> OpGroup(t, b[i]) == Some(g) {
        assert first == Some(g);
      }
      if first == Some(g) && forall i :: 0 <= i < |b[1..]| ==> OpGroup(t, b[1..][i]) == Some(g) {
        forall i | 0 <= i < |b|
          ensures OpGroup(t, b[i]) == Some(g)
        {
          if i > 0 {
            assert b[1..][i - 1] == b[i];
          }
        }
      }
    }
  }

  /** A batch is given to g exactly when it is not empty and lies in g entirely. */
  lemma BatchGroupExact(t: Table, b: Batch, g: nat)
    requires Valid(t) && ValidBatch(b)
    ensures BatchGroup(t, b) == Some(g) <==> b != [] && forall i :: 0 <= i < |b| ==> OpWithin(t, b[i], g)
  {
    hide OpGroup, OpWithin;
    BatchFromExact(t, b, None, g);
    forall i | 0 <= i < |b|
      ensures OpGroup(t, b[i]) == Some(g) <==> OpWithin(t, b[i], g)
    {
      OpGroupExact(t, b[i], g);
    }
  }

  // -------------------------------------------------------------- the table

  predicate ByStart(t: Table) {
    forall i, j :: 0 <= i < j < |t| ==> AtMost(t[i].start, t[j].start)
  }

  predicate GroupBefore(t: Table, n: nat, g: nat)
    requires n <= |t|
  {
    exists k :: 0 <= k < n && t[k].group == g
  }

  // The first `n` rows pass every row check.
  predicate Checked(t: Table, n: nat)
    requires n <= |t|
  {
    && (forall i :: 0 <= i < n ==> GoodRoute(t[i]))
    && (forall i, j :: 0 <= i < j < n ==> t[i].group != t[j].group)
    && (forall i :: 0 < i < n ==> Follows(t, i))
  }

  lemma NoneChecked(t: Table)
    ensures Checked(t, 0)
  {
  }

  lemma OneMoreChecked(t: Table, n: nat)
    requires n < |t| && Checked(t, n)
    ensures Checked(t, n + 1) <==>
            GoodRoute(t[n]) && !GroupBefore(t, n, t[n].group) && (n > 0 ==> Follows(t, n))
  {
    hide GoodRoute, Follows;
  }

  lemma FewerChecked(t: Table, n: nat, m: nat)
    requires n <= m <= |t|
    ensures Checked(t, m) ==> Checked(t, n)
  {
    hide GoodRoute, Follows;
  }

  class GroupRouter {
    var ranges: Table

    constructor ()
      ensures ranges == []
    {
      ranges := [];
    }

    /** Inserts behind every range that does not start later. */
    method AddRange(start: Bytes, end: Bytes, group: nat)
      requires ByStart(ranges)
      modifies this
      ensures ByStart(ranges)
      ensures multiset(ranges) == multiset(old(ranges)) + multiset{Route(start, end, group)}
    {
      var at := 0;
      while at < |ranges| && !Less(start, ranges[at].start)
        invariant 0 <= at <= |ranges|
        invariant forall i :: 0 <= i < at ==> AtMost(ranges[i].start, start)
      {
        at := at + 1;
      }
      ghost var before := ranges;
      assert before == before[..at] + before[at..];
      ranges := ranges[..at] + [Route(start, end, group)] + ranges[at..];
      forall j | at <= j < |before|
        ensures AtMost(start, before[j].start)
      {
        LessIsStrict(start, before[at].start);
        if j > at {
          AtMostTransitive(start, before[at].start, before[j].start);
        }
      }
    }

    /** The table is accepted exactly when it is valid. */
    method Validate() returns (ok: bool)
      ensures ok <==> Valid(ranges)
    {
      hide GoodRoute, NoHoles;
      var groups;
      ok, groups := CheckRoutes();
      if !ok {
        return false;
      }
      ok := CheckHoles(groups);
    }

    method CheckRoutes() returns (ok: bool, groups: set<nat>)
      ensures ok <==> Checked(ranges, |ranges|)
      ensures ok ==> forall g :: g in groups <==> HasGroup(ranges, g)
    {
      hide Checked, GoodRoute;
      groups := {};
      NoneChecked(ranges);
      for i := 0 to |ranges|
        invariant Checked(ranges, i)
        invariant forall g :: g in groups <==> GroupBefore(ranges, i, g)
      {
        OneMoreChecked(ranges, i);
        FewerChecked(ranges, i + 1, |ranges|);
        var good := CheckRoute(ranges[i]);
        if !good || ranges[i].group in groups {
          return false, groups;
        }
        if i > 0 && Less(ranges[i].start, ranges[i - 1].end) {
          return false, groups;
        }
        groups := groups + {ranges[i].group};
      }
      return true, groups;
    }

    method CheckRoute(r: Route) returns (ok: bool)
      ensures ok <==> GoodRoute(r)
    {
      if r.group == 0 {
        return false;
      }
      if AtMost(r.end, r.start) {
        return false;
      }
      if COMMA in r.start || SEMICOLON in r.start || COMMA in r.end || SEMICOLON in r.end {
        return false;
      }
      return !(IsSystem(r.start) || (Less(r.start, SYSTEM) && Less(SYSTEM, r.end)));
    }

    method CheckHoles(groups: set<nat>) returns (ok: bool)
      requires forall g :: g in groups <==> HasGroup(ranges, g)
      ensures ok <==> NoHoles(ranges)
    {
      hide HasGroup;
      for g := 1 to |ranges| + 1
        invariant forall x: nat :: 1 <= x < g ==> HasGroup(ranges, x)
      {
        if g !in groups {
          return false;
        }
      }
      return true;
    }

    method Lookup(key: Bytes) returns (g: nat)
      ensures g == GroupFor(ranges, key)
    {
      if IsSystem(key) {
        return 0;
      }
      assert ranges[0..] == ranges;
      for i := 0 to |ranges|
        invariant Search(ranges[i..], key) == Search(ranges, key)
      {
        assert ranges[i..][1..] == ranges[i + 1..];
        if Less(key, ranges[i].start) {
          return 0;
        }
        if Less(key, ranges[i].end) {
          return ranges[i].group;
        }
      }
      return 0;
    }

    method RangeOwner(start: Bytes, end: Option<Bytes>) returns (g: Option<nat>)
      ensures g == RangeGroup(ranges, start, end)
    {
      hide GroupFor;
      var first := Lookup(start);
      if end.Some? && AtMost(end.value, start) {
        return Some(first);
      }
      if Crosses(ranges, start, end, SYSTEM) {
        return None;
      }
      for i := 0 to |ranges|
        invariant forall k :: 0 <= k < i ==>
                    !Crosses(ranges, start, end, ranges[k].start) && !Crosses(ranges, start, end, ranges[k].end)
      {
        if Crosses(ranges, start, end, ranges[i].start) || Crosses(ranges, start, end, ranges[i].end) {
          return None;
        }
      }
      return Some(first);
    }

    method BatchOwner(b: Batch) returns (group: Option<nat>)
      ensures group == BatchGroup(ranges, b)
    {
      hide GroupFor, RangeGroup;
      group := None;
      assert b[0..] == b;
      for i := 0 to |b|
        invariant BatchFrom(ranges, b[i..], group) == BatchFrom(ranges, b, None)
      {
        assert b[i..][1..] == b[i + 1..];
        var g: Option<nat>;
        if b[i].RemoveRange? {
          g := RangeOwner(b[i].start, Some(b[i].end));
        } else {
          var one := Lookup(b[i].key);
          g := Some(one);
        }
        if g.None? {
          return None;
        }
        if group.Some? && group != g {
          return None;
        }
        group := g;
      }
    }
  }

}
