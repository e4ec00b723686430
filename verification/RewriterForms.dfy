/**
 The shapes the rewriting passes leave behind. Keeping a tree as it is would
 keep its meaning too; these are what each pass is there for.
 */
module RewriterForms {
  import opened Wrappers
  import opened SqlValues
  import opened Conditions
  import opened Rewriter

  // ------------------------------------------------------------------ NOT

  // NOT stands only on a comparison whose operator is unknown.
  predicate Pushed(c: Cond) {
    match c
    case Not(x) => x.Compare? && x.op.UNKNOWN_OP?
    case And(l, r) => Pushed(l) && Pushed(r)
    case Or(l, r) => Pushed(l) && Pushed(r)
    case _ => true
  }

  /** Pushing NOT down leaves none that could go further. */
  lemma {:induction false} PushNotForm(c: Cond, negated: bool)
    ensures Pushed(PushNot(c, negated))
  {
    match c
    case Not(x) => PushNotForm(x, !negated);
    case And(l, r) =>
      PushNotForm(l, negated);
      PushNotForm(r, negated);
    case Or(l, r) =>
      PushNotForm(l, negated);
      PushNotForm(r, negated);
    case _ =>
  }

  // ------------------------------------------------------------- flattening

  // Comparisons and IN lists from left to right.
  function Leaves(c: Cond): seq<Cond> {
    match c
    case And(l, r) => Leaves(l) + Leaves(r)
    case Or(l, r) => Leaves(l) + Leaves(r)
    case Not(x) => Leaves(x)
    case _ => [c]
  }

  function AllLeavesOf(cs: seq<Cond>): seq<Cond> {
    if cs == [] then [] else Leaves(cs[0]) + AllLeavesOf(cs[1..])
  }

  // No connective has one of its own kind on the right.
  predicate LeftDeep(c: Cond) {
    match c
    case And(l, r) => LeftDeep(l) && LeftDeep(r) && !r.And?
    case Or(l, r) => LeftDeep(l) && LeftDeep(r) && !r.Or?
    case Not(x) => LeftDeep(x)
    case _ => true
  }

  lemma {:induction false} LeavesConcat(a: seq<Cond>, b: seq<Cond>)
    ensures AllLeavesOf(a + b) == AllLeavesOf(a) + AllLeavesOf(b)
  {
    if a == [] {
      assert a + b == b;
    } else {
      var ab := a + b;
      assert ab[1..] == a[1..] + b && ab[0] == a[0];
      LeavesConcat(a[1..], b);
      Grouped(Leaves(a[0]), AllLeavesOf(a[1..]), AllLeavesOf(b));
    }
  }

  lemma Grouped(a: seq<Cond>, b: seq<Cond>, c: seq<Cond>)
    ensures a + (b + c) == (a + b) + c
  {
  }

  lemma {:induction false} CollectLeaves(kind: Kind, c: Cond)
    requires Connective(kind)
    ensures AllLeavesOf(Collect(kind, c)) == Leaves(c)
  {
    if (c.And? && kind.KAnd?) || (c.Or? && kind.KOr?) {
      CollectLeaves(kind, c.left);
      CollectLeaves(kind, c.right);
      LeavesConcat(Collect(kind, c.left), Collect(kind, c.right));
    } else {
      assert Collect(kind, c) == [c] && [c][1..] == [];
      assert Leaves(c) + [] == Leaves(c);
    }
  }

  lemma {:induction false} JoinLeaves(kind: Kind, acc: Cond, cs: seq<Cond>)
    requires Connective(kind)
    ensures Leaves(JoinOnto(kind, acc, cs)) == Leaves(acc) + AllLeavesOf(cs)
    ensures LeftDeep(acc) && (forall i :: 0 <= i < |cs| ==> LeftDeep(cs[i]) && KindOf(cs[i]) != kind) ==>
              LeftDeep(JoinOnto(kind, acc, cs))
    decreases |cs|
  {
    if cs == [] {
      assert Leaves(acc) + [] == Leaves(acc);
    } else {
      JoinLeaves(kind, Joined(kind, acc, cs[0]), cs[1..]);
      Grouped(Leaves(acc), Leaves(cs[0]), AllLeavesOf(cs[1..]));
    }
  }

  lemma {:induction false} SameLeaves(a: seq<Cond>, b: seq<Cond>)
    requires |a| == |b| && forall i :: 0 <= i < |a| ==> Leaves(a[i]) == Leaves(b[i])
    ensures AllLeavesOf(a) == AllLeavesOf(b)
  {
    if a != [] {
      assert forall i :: 0 <= i < |a[1..]| ==> a[1..][i] == a[i + 1] && b[1..][i] == b[i + 1];
      SameLeaves(a[1..], b[1..]);
    }
  }

  /** Flattening leaves every nest leaning to the left, with its leaves in their order. */
  lemma {:induction false} FlattenForm(c: Cond)
    ensures LeftDeep(Flatten(c)) && Leaves(Flatten(c)) == Leaves(c)
    ensures KindOf(Flatten(c)) == KindOf(c)
    decreases Size(c)
  {
    match c
    case And(_, _) => FlattenNest(KAnd, c);
    case Or(_, _) => FlattenNest(KOr, c);
    case Not(x) => FlattenForm(x);
    case _ =>
  }

  lemma {:induction false} FlattenNest(kind: Kind, c: Cond)
    requires Connective(kind) && KindOf(c) == kind
    ensures LeftDeep(Flatten(c)) && Leaves(Flatten(c)) == Leaves(c) && KindOf(Flatten(c)) == kind
    decreases Size(c), 0
  {
    var flat := Collect(kind, c);
    var children := seq(|flat|, i requires 0 <= i < |flat| => Flatten(flat[i]));
    forall i | 0 <= i < |flat|
      ensures LeftDeep(children[i]) && Leaves(children[i]) == Leaves(flat[i]) && KindOf(children[i]) != kind
    {
      FlattenForm(flat[i]);
    }
    assert Flatten(c) == JoinOnto(kind, children[0], children[1..]);
    CollectLeaves(kind, c);
    SameLeaves(children, flat);
    JoinLeaves(kind, children[0], children[1..]);
    TwoOperands(kind, c);
    JoinedKind(kind, children[0], children[1..]);
  }

  lemma TwoOperands(kind: Kind, c: Cond)
    requires Connective(kind) && KindOf(c) == kind
    ensures |Collect(kind, c)| >= 2
  {
  }

  lemma {:induction false} JoinedKind(kind: Kind, acc: Cond, cs: seq<Cond>)
    requires Connective(kind)
    ensures cs != [] || KindOf(acc) == kind ==> KindOf(JoinOnto(kind, acc, cs)) == kind
    decreases |cs|
  {
    if cs != [] { JoinedKind(kind, Joined(kind, acc, cs[0]), cs[1..]); }
  }

  // --------------------------------------------------------------- IN lists

  ghost predicate NoRepeats(vs: seq<Value>) {
    forall i, j :: 0 <= i < j < |vs| ==> vs[i] != vs[j]
  }

  // Lists without repeats, and none of a single value other than NULL.
  ghost predicate Folded(c: Cond) {
    match c
    case In(_, _, vs) => NoRepeats(vs) && !(|vs| == 1 && !vs[0].Null?)
    case And(l, r) => Folded(l) && Folded(r)
    case Or(l, r) => Folded(l) && Folded(r)
    case Not(x) => Folded(x)
    case _ => true
  }

  lemma {:induction false} DistinctForm(kept: seq<Value>, vs: seq<Value>)
    requires NoRepeats(kept)
    ensures NoRepeats(Distinct(kept, vs)) && kept <= Distinct(kept, vs)
    ensures forall v :: v in Distinct(kept, vs) <==> v in kept || v in vs
    decreases |vs|
  {
    if vs != [] {
      var next := if vs[0] in kept then kept else kept + [vs[0]];
      DistinctForm(next, vs[1..]);
      assert vs == [vs[0]] + vs[1..];
    }
  }

  /** Folding leaves no repeated literal and no list that is a comparison. */
  lemma {:induction false} FoldForm(c: Cond)
    ensures Folded(FoldConstants(c))
  {
    match c
    case And(l, r) =>
      FoldForm(l);
      FoldForm(r);
    case Or(l, r) =>
      FoldForm(l);
      FoldForm(r);
    case Not(x) => FoldForm(x);
    case In(_, _, vs) => DistinctForm([], vs);
    case _ =>
  }

  // ------------------------------------------------------------- duplicates

  ghost predicate AllDifferent(text: Printer, cs: seq<Cond>) {
    forall i, j :: 0 <= i < j < |cs| ==> !SameNode(text, cs[i], cs[j])
  }

  lemma {:induction false} KeepFirstForm(text: Printer, kept: seq<Cond>, cs: seq<Cond>)
    requires AllDifferent(text, kept)
    ensures var r := KeepFirst(text, kept, cs);
            && AllDifferent(text, r) && kept <= r
            && (forall c :: c in cs ==> Holds(text, r, c)) && (forall c :: c in r ==> c in kept || c in cs)
    decreases |cs|
  {
    hide SameNode;
    if cs != [] {
      var c := cs[0];
      var next := if Holds(text, kept, c) then kept else kept + [c];
      KeepsDifferent(text, kept, c);
      KeepFirstForm(text, next, cs[1..]);
      var r := KeepFirst(text, next, cs[1..]);
      assert Holds(text, next, c);
      HoldsLonger(text, next, r, c);
      assert cs == [c] + cs[1..];
    }
  }

  lemma KeepsDifferent(text: Printer, kept: seq<Cond>, c: Cond)
    requires AllDifferent(text, kept)
    ensures !Holds(text, kept, c) ==> AllDifferent(text, kept + [c])
    ensures !Holds(text, kept, c) ==> Holds(text, kept + [c], c)
  {
    if !Holds(text, kept, c) {
      var next := kept + [c];
      assert SameNode(text, next[|kept|], c);
    }
  }

  lemma HoldsLonger(text: Printer, kept: seq<Cond>, r: seq<Cond>, c: Cond)
    requires kept <= r && Holds(text, kept, c)
    ensures Holds(text, r, c)
  {
    var i :| 0 <= i < |kept| && SameNode(text, kept[i], c);
    assert r[i] == kept[i];
  }

  // The tree is a nest of operands that all print differently and stand for
  // the de-duplicated operands of c.
  ghost predicate Deduplicated(text: Printer, kind: Kind, c: Cond, d: Cond, ks: seq<Cond>)
    requires Connective(kind)
  {
    && ks != [] && d == JoinOnto(kind, ks[0], ks[1..]) && AllDifferent(text, ks)
    && (forall x :: x in Collect(kind, c) ==> Holds(text, ks, Deduplicate(text, x)))
    && (forall k :: k in ks ==> exists x :: x in Collect(kind, c) && k == Deduplicate(text, x))
  }

  /** After de-duplication no two operands of a nest print alike, and none is lost. */
  lemma DeduplicateForm(text: Printer, kind: Kind, c: Cond) returns (ks: seq<Cond>)
    requires Connective(kind) && KindOf(c) == kind
    ensures Deduplicated(text, kind, c, Deduplicate(text, c), ks)
  {
    var flat := Collect(kind, c);
    var children := seq(|flat|, i requires 0 <= i < |flat| => Deduplicate(text, flat[i]));
    ks := KeepFirst(text, [], children);
    KeepFirstForm(text, [], children);
    assert Deduplicate(text, c) == Rebuild(kind, ks).value;
    hide SameNode, Holds, AllDifferent;
    forall x | x in flat ensures Holds(text, ks, Deduplicate(text, x)) {
      var i :| 0 <= i < |flat| && flat[i] == x;
      assert children[i] in children;
    }
    forall k | k in ks ensures exists x :: x in flat && k == Deduplicate(text, x) {
      var i :| 0 <= i < |children| && children[i] == k;
      assert flat[i] in flat;
    }
  }

  // ---------------------------------------------------- absorbing and merging

  // The operands that stay, in order.
  lemma {:induction false} UnabsorbedExact(text: Printer, kind: Kind, children: seq<Cond>, from: nat, c: Cond)
    requires Connective(kind) && from <= |children|
    ensures c in Unabsorbed(text, kind, children, from) <==>
            exists i :: from <= i < |children| && children[i] == c && !Absorbed(text, kind, children, i)
    decreases |children| - from
  {
    hide Absorbed;
    if from < |children| { UnabsorbedExact(text, kind, children, from + 1, c); }
  }

  lemma {:induction false} ConsumedGrows(kept: seq<Cond>, consumed: set<nat>, i: nat)
    requires i <= |kept|
    ensures consumed <= MergeFrom(kept, consumed, i).1
    ensures forall c :: c in MergeFrom(kept, consumed, i).0 ==> c.In?
    decreases |kept| - i
  {
    if i < |kept| && i !in consumed && Equality(kept[i]) {
      var group := [i] + Group(kept, consumed, kept[i], i + 1);
      ConsumedGrows(kept, consumed + Members(group), i + 1);
      ConsumedGrows(kept, consumed, i + 1);
    } else if i < |kept| {
      ConsumedGrows(kept, consumed, i + 1);
    }
  }

  lemma {:induction false} GroupFinds(kept: seq<Cond>, consumed: set<nat>, head: Cond, j: nat, x: nat)
    requires head.Compare? && j <= x < |kept| && Joins(kept, consumed, head, x)
    ensures x in Group(kept, consumed, head, j)
    decreases |kept| - j
  {
    if x > j { GroupFinds(kept, consumed, head, j + 1, x); }
  }

  // Two equalities on one column that are both left over cannot be.
  lemma {:induction false} PairConsumed(kept: seq<Cond>, consumed: set<nat>, i: nat, x: nat, y: nat)
    requires i <= x < y < |kept| && Equality(kept[x]) && Equality(kept[y])
    requires kept[x].column.name == kept[y].column.name
    ensures x in MergeFrom(kept, consumed, i).1 || y in MergeFrom(kept, consumed, i).1
    decreases |kept| - i
  {
    ConsumedGrows(kept, consumed, i);
    if x !in consumed && y !in consumed {
      if i in consumed || !Equality(kept[i]) {
        PairConsumed(kept, consumed, i + 1, x, y);
      } else {
        var group := [i] + Group(kept, consumed, kept[i], i + 1);
        if i == x {
          GroupFinds(kept, consumed, kept[i], i + 1, y);
          assert y in group && x in group;
          assert |group| > 1;
          ConsumedGrows(kept, consumed + Members(group), i + 1);
        } else if |group| == 1 {
          PairConsumed(kept, consumed, i + 1, x, y);
        } else {
          PairConsumed(kept, consumed + Members(group), i + 1, x, y);
        }
      }
    }
  }

  lemma {:induction false} UnconsumedAt(kept: seq<Cond>, consumed: set<nat>, from: nat, p: nat) returns (i: nat)
    requires from <= |kept| && p < |Unconsumed(kept, consumed, from)|
    ensures from + p <= i < |kept| && i !in consumed && Unconsumed(kept, consumed, from)[p] == kept[i]
    decreases |kept| - from
  {
    if from in consumed {
      i := UnconsumedAt(kept, consumed, from + 1, p);
    } else if p == 0 {
      i := from;
    } else {
      i := UnconsumedAt(kept, consumed, from + 1, p - 1);
    }
  }

  lemma {:induction false} UnconsumedPair(kept: seq<Cond>, consumed: set<nat>, from: nat, p: nat, q: nat)
    returns (i: nat, j: nat)
    requires from <= |kept| && p < q < |Unconsumed(kept, consumed, from)|
    ensures from <= i < j < |kept| && i !in consumed && j !in consumed
    ensures Unconsumed(kept, consumed, from)[p] == kept[i] && Unconsumed(kept, consumed, from)[q] == kept[j]
    decreases |kept| - from
  {
    if from in consumed {
      i, j := UnconsumedPair(kept, consumed, from + 1, p, q);
    } else if p == 0 {
      i := from;
      j := UnconsumedAt(kept, consumed, from + 1, q - 1);
    } else {
      i, j := UnconsumedPair(kept, consumed, from + 1, p - 1, q - 1);
    }
  }

  /** After merging no two equalities on one column are left beside each other. */
  lemma MergeForm(kept: seq<Cond>, p: nat, q: nat)
    requires p < q < |MergeEqualities(kept)|
    ensures var r := MergeEqualities(kept);
            !(Equality(r[p]) && Equality(r[q]) && r[p].column.name == r[q].column.name)
  {
    var (lists, consumed) := MergeFrom(kept, {}, 0);
    ConsumedGrows(kept, {}, 0);
    var r := MergeEqualities(kept);
    hide MergeFrom, Unconsumed;
    if p < |lists| {
      assert r[p] in lists;
    } else {
      var i, j := UnconsumedPair(kept, consumed, 0, p - |lists|, q - |lists|);
      if Equality(r[p]) && Equality(r[q]) && r[p].column.name == r[q].column.name {
        PairConsumed(kept, {}, 0, i, j);
      }
    }
  }

  // ---------------------------------------------------------- simplified NOT

  ghost predicate SingleNot(c: Cond) {
    c.Not? ==> !c.child.Not? && !c.child.In?
  }

  lemma {:induction false} UnconsumedFrom(kept: seq<Cond>, consumed: set<nat>, from: nat, c: Cond)
    requires from <= |kept| && c in Unconsumed(kept, consumed, from)
    ensures c in kept
    decreases |kept| - from
  {
    if from in consumed || c != kept[from] { UnconsumedFrom(kept, consumed, from + 1, c); }
  }

  lemma OperandsSingle(text: Printer, kind: Kind, parts: seq<Simplified>)
    requires Connective(kind) && forall i :: 0 <= i < |parts| && parts[i].Tree? ==> SingleNot(parts[i].c)
    ensures var r := SimplifyOperands(text, kind, parts); r.Tree? ==> SingleNot(r.c)
  {
    if SimplifyOperands(text, kind, parts).Tree? {
      var trees := Trees(parts);
      var kept := Unabsorbed(text, kind, trees, 0);
      var ks := if kind.KAnd? then kept else MergeEqualities(kept);
      hide Unabsorbed, SingleNot;
      var r := JoinOnto(kind, ks[0], ks[1..]);
      JoinedKind(kind, ks[0], ks[1..]);
      if |ks| == 1 {
        assert r == ks[0];
        if ks[0] in kept {
          UnabsorbedExact(text, kind, trees, 0, ks[0]);
        } else {
          ConsumedGrows(kept, {}, 0);
          var (lists, consumed) := MergeFrom(kept, {}, 0);
          if ks[0] !in lists { UnconsumedFrom(kept, consumed, 0, ks[0]); }
          assert SingleNot(ks[0]) by { IsSingle(ks[0]); }
        }
      } else {
        IsSingle(r);
      }
    }
  }

  lemma IsSingle(c: Cond)
    ensures !c.Not? ==> SingleNot(c)
  {
  }

  /** Simplifying leaves no NOT on a NOT and none on an IN list. */
  lemma {:induction false} SimplifyForm(text: Printer, c: Cond)
    ensures var r := Simplify(text, c); r.Tree? ==> SingleNot(r.c)
    decreases Size(c)
  {
    match c
    case Not(x) => SimplifyForm(text, x);
    case And(_, _) =>
      var flat := Collect(KAnd, c);
      forall i | 0 <= i < |flat| ensures Simplify(text, flat[i]).Tree? ==> SingleNot(Simplify(text, flat[i]).c) {
        SimplifyForm(text, flat[i]);
      }
      OperandsSingle(text, KAnd, seq(|flat|, i requires 0 <= i < |flat| => Simplify(text, flat[i])));
    case Or(_, _) =>
      var flat := Collect(KOr, c);
      forall i | 0 <= i < |flat| ensures Simplify(text, flat[i]).Tree? ==> SingleNot(Simplify(text, flat[i]).c) {
        SimplifyForm(text, flat[i]);
      }
      OperandsSingle(text, KOr, seq(|flat|, i requires 0 <= i < |flat| => Simplify(text, flat[i])));
    case _ =>
  }
}
