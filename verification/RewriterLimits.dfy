/**
 Why the rewriter's guarantee needs a clean tree: the search behind absorption
 descends to any depth, and two operands may absorb each other.
 */
module RewriterLimits {
  import opened Wrappers
  import opened SqlValues
  import opened Conditions
  import opened Rewriter
  import opened RewriterMeaning
  import opened RewriterExact

  const A := Compare(Column("a", "a"), GT, Int(0))
  const B := Compare(Column("b", "b"), GT, Int(0))
  const C := Compare(Column("c", "c"), GT, Int(0))

  const DEEP := And(A, Or(And(A, C), B))
  const LONG := Or(Or(A, And(A, C)), B)
  const SHORT := Or(A, B)
  const MUTUAL := And(LONG, SHORT)

  function RowOf(a: Int64, b: Int64, c: Int64): Row {
    map["a" := Int(a), "b" := Int(b), "c" := Int(c)]
  }

  lemma LeafValues(t: Reader, a: Int64, b: Int64, c: Int64)
    ensures Eval(t, RowOf(a, b, c), A) == OfBool(a > 0)
    ensures Eval(t, RowOf(a, b, c), B) == OfBool(b > 0)
    ensures Eval(t, RowOf(a, b, c), C) == OfBool(c > 0)
  {
  }

  predicate TellsApart(text: Printer) {
    text(A) != text(B) && text(A) != text(C) && text(B) != text(C) && text(LONG) != text(SHORT)
  }

  // --------------------------------------- passes on a node with two operands

  predicate Plain(kind: Kind, l: Cond, r: Cond) {
    Connective(kind) && KindOf(l) != kind && KindOf(r) != kind
  }

  lemma CollectTwo(kind: Kind, l: Cond, r: Cond)
    requires Plain(kind, l, r)
    ensures Collect(kind, Joined(kind, l, r)) == [l, r]
    ensures Rebuild(kind, [l, r]) == Some(Joined(kind, l, r))
    ensures Rebuild(kind, [l]) == Some(l)
  {
    assert Collect(kind, l) == [l] && Collect(kind, r) == [r];
    assert [l, r][1..] == [r] && [r][1..] == [] && [l][1..] == [];
    assert JoinOnto(kind, l, [r]) == Joined(kind, l, r);
  }

  lemma FlattenTwo(kind: Kind, l: Cond, r: Cond)
    requires Plain(kind, l, r) && Flatten(l) == l && Flatten(r) == r
    ensures Flatten(Joined(kind, l, r)) == Joined(kind, l, r)
  {
    CollectTwo(kind, l, r);
    var flat := Collect(kind, Joined(kind, l, r));
    assert seq(|flat|, i requires 0 <= i < |flat| => Flatten(flat[i])) == [l, r];
  }

  lemma DeduplicateTwo(text: Printer, kind: Kind, l: Cond, r: Cond)
    requires Plain(kind, l, r) && Deduplicate(text, l) == l && Deduplicate(text, r) == r
    requires !SameNode(text, l, r)
    ensures Deduplicate(text, Joined(kind, l, r)) == Joined(kind, l, r)
  {
    CollectTwo(kind, l, r);
    var flat := Collect(kind, Joined(kind, l, r));
    assert seq(|flat|, i requires 0 <= i < |flat| => Deduplicate(text, flat[i])) == [l, r];
    assert [l, r][1..] == [r] && [r][1..] == [];
    assert !Holds(text, [], l) && !Holds(text, [l], r);
    assert KeepFirst(text, [], [l, r]) == KeepFirst(text, [l], [r]) == [l, r] by {
      assert [] + [l] == [l] && [l] + [r] == [l, r];
    }
  }

  lemma OperandsTwo(text: Printer, kind: Kind, l: Cond, r: Cond, s: Cond, u: Cond)
    requires Plain(kind, l, r) && Simplify(text, l) == Tree(s) && Simplify(text, r) == Tree(u)
    ensures Simplify(text, Joined(kind, l, r)) == SimplifyOperands(text, kind, [Tree(s), Tree(u)])
    ensures Trees([Tree(s), Tree(u)]) == [s, u]
  {
    CollectTwo(kind, l, r);
    var flat := Collect(kind, Joined(kind, l, r));
    assert seq(|flat|, i requires 0 <= i < |flat| => Simplify(text, flat[i])) == [Tree(s), Tree(u)];
  }

  lemma AbsorbedOfTwo(text: Printer, kind: Kind, s: Cond, u: Cond)
    requires Connective(kind)
    ensures Absorbed(text, kind, [s, u], 0) <==> KindOf(s) == Dual(kind) && TreeContains(text, s, u)
    ensures Absorbed(text, kind, [s, u], 1) <==> KindOf(u) == Dual(kind) && TreeContains(text, u, s)
  {
    assert AbsorbedBy(text, [s, u], 0, 1) <==> TreeContains(text, s, u);
    assert AbsorbedBy(text, [s, u], 1, 0) <==> TreeContains(text, u, s);
  }

  lemma UnabsorbedOfTwo(text: Printer, kind: Kind, s: Cond, u: Cond)
    requires Connective(kind)
    ensures Unabsorbed(text, kind, [s, u], 0) ==
            (if Absorbed(text, kind, [s, u], 0) then [] else [s]) +
            (if Absorbed(text, kind, [s, u], 1) then [] else [u])
  {
    var cs := [s, u];
    assert Unabsorbed(text, kind, cs, 2) == [];
    assert Unabsorbed(text, kind, cs, 1) == if Absorbed(text, kind, cs, 1) then [] else [u];
  }

  // Whether a node with two clean operands is clean is a matter of its own level.
  lemma CleanTwo(text: Printer, kind: Kind, l: Cond, r: Cond, s: Cond, u: Cond)
    requires Plain(kind, l, r) && Simplify(text, l) == Tree(s) && Simplify(text, r) == Tree(u)
    requires Clean(text, l) && Clean(text, r)
    ensures var c := Joined(kind, l, r);
            && KindOf(c) == kind && OperandsClean(text, c)
            && Parts(text, c) == [Tree(s), Tree(u)] && Trees([Tree(s), Tree(u)]) == [s, u]
            && (Clean(text, c) <==> JustAbsorption(text, kind, [s, u]))
  {
    hide Simplify, JustAbsorption;
    CollectTwo(kind, l, r);
    var c := Joined(kind, l, r);
    var flat := Collect(kind, c);
    assert seq(|flat|, i requires 0 <= i < |flat| => Simplify(text, flat[i])) == [Tree(s), Tree(u)];
    assert Trees([Tree(s), Tree(u)]) == [s, u];
    hide Collect;
  }

  lemma TellingTwo(t: Reader, row: Row, text: Printer, kind: Kind, c: Cond, s: Cond, u: Cond, kept: seq<Cond>)
    requires Connective(kind) && KindOf(c) == kind
    requires Parts(text, c) == [Tree(s), Tree(u)] && Trees([Tree(s), Tree(u)]) == [s, u]
    requires Unabsorbed(text, kind, [s, u], 0) == kept
    requires forall k :: 0 <= k < |kept| ==> Eval(t, row, kept[k]) == Neutral(kind)
    requires Absorbed(text, kind, [s, u], 0) ==> Separated(t, row, text, kind, kept, s)
    requires Absorbed(text, kind, [s, u], 1) ==> Separated(t, row, text, kind, kept, u)
    ensures LeavesIndependent(text, c)
  {
    hide Absorbed, Unabsorbed, Parts, Separated, Trees, LeavesIndependent;
    assert Telling(t, row, text, kind, [s, u]);
    IndependentBy(t, row, text, c, [s, u]);
  }

  lemma NoneAbsorbed(text: Printer, kind: Kind, s: Cond, u: Cond)
    requires Connective(kind)
    requires KindOf(s) == Dual(kind) ==> !TreeContains(text, s, u)
    requires KindOf(u) == Dual(kind) ==> !TreeContains(text, u, s)
    ensures JustAbsorption(text, kind, [s, u])
  {
    hide TreeContains, Absorbed, Implied, Unabsorbed;
    AbsorbedOfTwo(text, kind, s, u);
  }

  lemma NothingToMerge(kept: seq<Cond>)
    requires forall i :: 0 <= i < |kept| ==> !Equality(kept[i])
    ensures MergeEqualities(kept) == kept
  {
    NoHeads(kept, 0);
    AllRemain(kept, 0);
  }

  lemma {:induction false} NoHeads(kept: seq<Cond>, i: nat)
    requires i <= |kept| && forall k :: 0 <= k < |kept| ==> !Equality(kept[k])
    ensures MergeFrom(kept, {}, i) == ([], {})
    decreases |kept| - i
  {
    if i < |kept| {
      NoHeads(kept, i + 1);
    }
  }

  lemma {:induction false} AllRemain(kept: seq<Cond>, i: nat)
    requires i <= |kept|
    ensures Unconsumed(kept, {}, i) == kept[i..]
    decreases |kept| - i
  {
    if i < |kept| {
      AllRemain(kept, i + 1);
    }
  }

  // Nothing absorbed, nothing merged: the node comes back as it was.
  lemma SimplifyTwo(text: Printer, kind: Kind, l: Cond, r: Cond)
    requires Plain(kind, l, r) && Simplify(text, l) == Tree(l) && Simplify(text, r) == Tree(r)
    requires KindOf(l) == Dual(kind) ==> !TreeContains(text, l, r)
    requires KindOf(r) == Dual(kind) ==> !TreeContains(text, r, l)
    requires !Equality(l) && !Equality(r)
    ensures Simplify(text, Joined(kind, l, r)) == Tree(Joined(kind, l, r))
  {
    hide TreeContains, Simplify, Absorbed;
    OperandsTwo(text, kind, l, r, l, r);
    AbsorbedOfTwo(text, kind, l, r);
    UnabsorbedOfTwo(text, kind, l, r);
    NothingToMerge([l, r]);
    CollectTwo(kind, l, r);
    assert [l] + [r] == [l, r];
  }

  // ------------------------------------------------- absorption at any depth

  lemma PrepareDeep(text: Printer)
    requires TellsApart(text)
    ensures Prepare(text, DEEP) == DEEP
  {
    DeepPrepared(text);
    hide Flatten, Deduplicate;
    assert FoldConstants(And(A, C)) == And(A, C);
    assert PushNot(And(A, C), false) == And(A, C);
  }

  lemma SimplifyPair(text: Printer)
    requires TellsApart(text)
    ensures Simplify(text, And(A, C)) == Tree(And(A, C))
    ensures Simplify(text, Or(And(A, C), B)) == Tree(Or(And(A, C), B))
  {
    SimplifyTwo(text, KAnd, A, C);
    SimplifyTwo(text, KOr, And(A, C), B);
  }

  lemma DeepIsAbsorbed(text: Printer)
    requires TellsApart(text)
    ensures Simplify(text, DEEP) == Tree(A)
  {
    hide Simplify;
    var right := Or(And(A, C), B);
    assert Simplify(text, A) == Tree(A) by {
      SimplifyLeaf(text, A);
    }
    SimplifyPair(text);
    OperandsTwo(text, KAnd, A, right, A, right);
    assert TreeContains(text, And(A, C), A);
    AbsorbedOfTwo(text, KAnd, A, right);
    UnabsorbedOfTwo(text, KAnd, A, right);
    CollectTwo(KAnd, A, right);
    assert [A] + [] == [A];
  }

  lemma SimplifyLeaf(text: Printer, c: Cond)
    requires c.Compare?
    ensures Simplify(text, c) == Tree(c)
  {
  }

  lemma DeepValues(t: Reader)
    ensures var row := RowOf(1, 0, 0);
            Eval(t, row, DEEP).False? && Eval(t, row, A).True? && Eval(t, row, B).False? && Eval(t, row, C).False?
  {
    var row := RowOf(1, 0, 0);
    LeafValues(t, 1, 0, 0);
    assert Eval(t, row, And(A, C)).False?;
    assert Eval(t, row, Or(And(A, C), B)).False?;
  }

  /** `a AND ((a AND c) OR b)` becomes `a`, which accepts more rows. */
  lemma DeepAbsorption(text: Printer, t: Reader)
    requires TellsApart(text)
    ensures Rewrite(text, DEEP) == Tree(A)
    ensures Eval(t, RowOf(1, 0, 0), DEEP).False? && Eval(t, RowOf(1, 0, 0), A).True?
    ensures !Clean(text, Prepare(text, DEEP))
    ensures OperandsClean(text, DEEP) && LeavesIndependent(text, DEEP)
  {
    hide Simplify, Prepare, Clean, Eval, LeavesIndependent, OperandsClean, RowOf;
    DeepLevel(text);
    DeepIndependent(text, t);
    PrepareDeep(text);
    DeepIsAbsorbed(text);
    DeepValues(t);
    NotClean(text);
  }

  lemma NotClean(text: Printer)
    requires TellsApart(text)
    ensures !Clean(text, DEEP)
  {
    var right := Or(And(A, C), B);
    assert !Implied(text, KAnd, [A], right) by {
      assert !Implied(text, KAnd, [A], B) && !Implied(text, KAnd, [A], C);
      assert !Implied(text, KAnd, [A], And(A, C));
    }
    hide Clean, Implied, Absorbed, Unabsorbed, OperandsClean, Parts;
    DeepLevel(text);
    assert [A, right][1] == right;
  }

  lemma DeepLevel(text: Printer)
    requires TellsApart(text)
    ensures OperandsClean(text, DEEP) && Trees([Tree(A), Tree(Or(And(A, C), B))]) == [A, Or(And(A, C), B)]
    ensures Parts(text, DEEP) == [Tree(A), Tree(Or(And(A, C), B))]
    ensures Clean(text, DEEP) <==> JustAbsorption(text, KAnd, [A, Or(And(A, C), B)])
    ensures Unabsorbed(text, KAnd, [A, Or(And(A, C), B)], 0) == [A]
    ensures !Absorbed(text, KAnd, [A, Or(And(A, C), B)], 0) && Absorbed(text, KAnd, [A, Or(And(A, C), B)], 1)
  {
    var right := Or(And(A, C), B);
    assert TreeContains(text, right, A) by {
      assert TreeContains(text, And(A, C), A);
    }
    hide Clean, Simplify, JustAbsorption, TreeContains, Absorbed, Unabsorbed;
    LeafIsClean(text, A);
    PairClean(text);
    SimplifyPair(text);
    CleanTwo(text, KAnd, A, right, A, right);
    AbsorbedOfTwo(text, KAnd, A, right);
    UnabsorbedOfTwo(text, KAnd, A, right);
    assert [A] + [] == [A];
  }

  lemma DeepSeparated(text: Printer, t: Reader)
    ensures Separated(t, RowOf(1, 0, 0), text, KAnd, [A], Or(And(A, C), B))
  {
    var row := RowOf(1, 0, 0);
    LeafValues(t, 1, 0, 0);
    hide Eval;
    assert Separated(t, row, text, KAnd, [A], A) by {
      assert SameNode(text, [A][0], A);
    }
    assert Separated(t, row, text, KAnd, [A], B) && Separated(t, row, text, KAnd, [A], C);
    assert Separated(t, row, text, KAnd, [A], And(A, C));
  }

  lemma DeepIndependent(text: Printer, t: Reader)
    requires TellsApart(text)
    ensures LeavesIndependent(text, DEEP)
  {
    LeafValues(t, 1, 0, 0);
    DeepSeparated(text, t);
    DeepLevel(text);
    hide *;
    TellingTwo(t, RowOf(1, 0, 0), text, KAnd, DEEP, A, Or(And(A, C), B), [A]);
  }

  // ------------------------------------------------ a change that does not show

  const HIDDEN := Or(DEEP, A)

  lemma PrepareHidden(text: Printer)
    requires TellsApart(text)
    ensures Prepare(text, HIDDEN) == HIDDEN
  {
    assert PushNot(HIDDEN, false) == HIDDEN && FoldConstants(HIDDEN) == HIDDEN by {
      assert PushNot(And(A, C), false) == And(A, C) && FoldConstants(And(A, C)) == And(A, C);
      assert PushNot(DEEP, false) == DEEP && FoldConstants(DEEP) == DEEP;
    }
    DeepPrepared(text);
    hide Flatten, Deduplicate;
    LeafPrepared(text, A);
    FlattenTwo(KOr, DEEP, A);
    DeduplicateTwo(text, KOr, DEEP, A);
  }

  lemma LeafPrepared(text: Printer, c: Cond)
    requires c.Compare?
    ensures Flatten(c) == c && Deduplicate(text, c) == c
  {
  }

  lemma DeepPrepared(text: Printer)
    requires TellsApart(text)
    ensures Flatten(DEEP) == DEEP && Deduplicate(text, DEEP) == DEEP
  {
    FlattenTwo(KAnd, A, C);
    FlattenTwo(KOr, And(A, C), B);
    FlattenTwo(KAnd, A, Or(And(A, C), B));
    DeduplicateTwo(text, KAnd, A, C);
    DeduplicateTwo(text, KOr, And(A, C), B);
    DeduplicateTwo(text, KAnd, A, Or(And(A, C), B));
  }

  /**
   Being clean is not necessary for a whole tree: `(a AND ((a AND c) OR b)) OR a`
   is not clean, yet the outer `a` hides what the inner absorption changed.
   */
  lemma HiddenChange(text: Printer)
    requires TellsApart(text)
    ensures Rewrite(text, HIDDEN) == Tree(Or(A, A)) && SameMeaning(Or(A, A), HIDDEN)
    ensures !Clean(text, Prepare(text, HIDDEN))
  {
    hide Simplify, Prepare, Clean, SameMeaning;
    SameMeaningHidden();
    PrepareHidden(text);
    HiddenSimplified(text);
    HiddenNotClean(text);
  }

  lemma HiddenSimplified(text: Printer)
    requires TellsApart(text)
    ensures Simplify(text, HIDDEN) == Tree(Or(A, A))
  {
    hide Simplify, TreeContains, Absorbed, Unabsorbed, MergeEqualities;
    DeepIsAbsorbed(text);
    SimplifyLeaf(text, A);
    OperandsTwo(text, KOr, DEEP, A, A, A);
    AbsorbedOfTwo(text, KOr, A, A);
    UnabsorbedOfTwo(text, KOr, A, A);
    assert [A] + [A] == [A, A];
    NothingToMerge([A, A]);
    CollectTwo(KOr, A, A);
  }

  lemma HiddenNotClean(text: Printer)
    requires TellsApart(text)
    ensures !Clean(text, HIDDEN)
  {
    hide Simplify, CleanOperands;
    CollectTwo(KOr, DEEP, A);
    NotClean(text);
    hide Collect;
    assert Collect(KOr, HIDDEN)[0] == DEEP;
  }

  lemma SameMeaningHidden()
    ensures SameMeaning(Or(A, A), HIDDEN)
  {
    forall t: Reader, row: Row
      ensures Eval(t, row, Or(A, A)) == Eval(t, row, HIDDEN)
    {
      assert Eval(t, row, HIDDEN) == Either(Eval(t, row, DEEP), Eval(t, row, A));
      assert Eval(t, row, DEEP) == Both(Eval(t, row, A), Eval(t, row, Or(And(A, C), B)));
    }
  }

  // -------------------------------------------------------- mutual absorption

  lemma SimplifyLong(text: Printer)
    requires TellsApart(text)
    ensures Simplify(text, LONG) == Tree(SHORT)
  {
    hide Simplify, Parts, OperandsClean, Collect, Unabsorbed, MergeEqualities, TellsApart;
    LongParts(text);
    LongStays(text);
    NothingToMerge([A, B]);
    CollectTwo(KOr, A, B);
    SimplifyLevel(text, LONG);
    assert Trees([Tree(A), Tree(And(A, C)), Tree(B)]) == [A, And(A, C), B];
  }

  // Of the three operands only the conjunction is absorbed.
  lemma LongStays(text: Printer)
    requires TellsApart(text)
    ensures Unabsorbed(text, KOr, [A, And(A, C), B], 0) == [A, B]
  {
    var cs := [A, And(A, C), B];
    assert TreeContains(text, And(A, C), A);
    assert AbsorbedBy(text, cs, 1, 0);
    hide TreeContains, TellsApart;
    assert Absorbed(text, KOr, cs, 1) && !Absorbed(text, KOr, cs, 0) && !Absorbed(text, KOr, cs, 2);
    hide Absorbed;
    assert Unabsorbed(text, KOr, cs, 3) == [];
    assert Unabsorbed(text, KOr, cs, 2) == [B];
    assert Unabsorbed(text, KOr, cs, 1) == [B];
  }

  lemma SimplifyShort(text: Printer)
    requires TellsApart(text)
    ensures Simplify(text, SHORT) == Tree(SHORT)
  {
    SimplifyTwo(text, KOr, A, B);
  }

  lemma FlattenLong()
    ensures Flatten(LONG) == LONG
  {
    var flat := Collect(KOr, LONG);
    CollectLong();
    FlattenTwo(KAnd, A, C);
    assert seq(|flat|, i requires 0 <= i < |flat| => Flatten(flat[i])) == flat;
    RebuildLong();
  }

  lemma RebuildLong()
    ensures Rebuild(KOr, [A, And(A, C), B]) == Some(LONG)
  {
    var cs := [A, And(A, C), B];
    assert cs[1..] == [And(A, C), B] && cs[1..][1..] == [B] && cs[1..][1..][1..] == [];
    assert JoinOnto(KOr, Or(A, And(A, C)), [B]) == LONG;
  }

  lemma DeduplicateLong(text: Printer)
    requires TellsApart(text)
    ensures Deduplicate(text, LONG) == LONG
  {
    var flat := Collect(KOr, LONG);
    CollectLong();
    DeduplicateTwo(text, KAnd, A, C);
    assert seq(|flat|, i requires 0 <= i < |flat| => Deduplicate(text, flat[i])) == flat;
    assert KeepFirst(text, [], flat) == flat by {
      assert flat[1..] == [And(A, C), B] && flat[1..][1..] == [B] && flat[1..][1..][1..] == [];
      assert [] + [A] == [A] && [A] + [And(A, C)] == [A, And(A, C)] && [A, And(A, C)] + [B] == flat;
      assert !Holds(text, [], A) && !Holds(text, [A], And(A, C)) && !Holds(text, [A, And(A, C)], B);
      assert KeepFirst(text, [A, And(A, C)], [B]) == flat;
      assert KeepFirst(text, [A], [And(A, C), B]) == flat;
    }
    RebuildLong();
  }

  lemma PrepareMutual(text: Printer)
    requires TellsApart(text)
    ensures Prepare(text, MUTUAL) == MUTUAL
  {
    assert PushNot(LONG, false) == LONG && FoldConstants(LONG) == LONG;
    assert PushNot(MUTUAL, false) == MUTUAL && FoldConstants(MUTUAL) == MUTUAL;
    FlattenLong();
    DeduplicateLong(text);
    hide Flatten, Deduplicate;
    assert Flatten(SHORT) == SHORT && Deduplicate(text, SHORT) == SHORT by {
      ShortPrepared(text);
    }
    FlattenTwo(KAnd, LONG, SHORT);
    DeduplicateTwo(text, KAnd, LONG, SHORT);
  }

  lemma ShortPrepared(text: Printer)
    requires TellsApart(text)
    ensures Flatten(SHORT) == SHORT && Deduplicate(text, SHORT) == SHORT
  {
    FlattenTwo(KOr, A, B);
    DeduplicateTwo(text, KOr, A, B);
  }

  lemma MutualLevel(text: Printer)
    requires TellsApart(text)
    ensures OperandsClean(text, MUTUAL) && Parts(text, MUTUAL) == [Tree(SHORT), Tree(SHORT)]
    ensures Trees([Tree(SHORT), Tree(SHORT)]) == [SHORT, SHORT]
    ensures Clean(text, MUTUAL) <==> JustAbsorption(text, KAnd, [SHORT, SHORT])
    ensures Absorbed(text, KAnd, [SHORT, SHORT], 0) && Absorbed(text, KAnd, [SHORT, SHORT], 1)
    ensures Unabsorbed(text, KAnd, [SHORT, SHORT], 0) == []
  {
    hide Clean, Simplify, JustAbsorption, Absorbed, Unabsorbed;
    SimplifyLong(text);
    SimplifyShort(text);
    MutualOperandsClean(text);
    CleanTwo(text, KAnd, LONG, SHORT, SHORT, SHORT);
    AbsorbedOfTwo(text, KAnd, SHORT, SHORT);
    UnabsorbedOfTwo(text, KAnd, SHORT, SHORT);
  }

  // Each of the two is simplified rightly; only together they are not.
  lemma MutualOperandsClean(text: Printer)
    requires TellsApart(text)
    ensures Clean(text, LONG) && Clean(text, SHORT)
  {
    LongClean(text);
    NoneAbsorbed(text, KOr, A, B);
    LeafIsClean(text, A);
    LeafIsClean(text, B);
    hide Clean, Simplify, JustAbsorption;
    CleanTwo(text, KOr, A, B, A, B);
  }

  lemma LongClean(text: Printer)
    requires TellsApart(text)
    ensures Clean(text, LONG)
  {
    LongParts(text);
    LongAbsorption(text);
    assert Trees([Tree(A), Tree(And(A, C)), Tree(B)]) == [A, And(A, C), B];
    hide *;
    CleanFrom(text, LONG, [A, And(A, C), B]);
  }

  lemma LongParts(text: Printer)
    requires TellsApart(text)
    ensures OperandsClean(text, LONG) && Parts(text, LONG) == [Tree(A), Tree(And(A, C)), Tree(B)]
  {
    LeafIsClean(text, A);
    LeafIsClean(text, B);
    PairClean(text);
    SimplifyPair(text);
    CollectLong();
    hide *;
    ThreeParts(text, LONG, A, And(A, C), B);
  }

  lemma ThreeParts(text: Printer, c: Cond, x: Cond, y: Cond, z: Cond)
    requires Connective(KindOf(c)) && Collect(KindOf(c), c) == [x, y, z]
    requires Clean(text, x) && Clean(text, y) && Clean(text, z)
    requires Simplify(text, x) == Tree(x) && Simplify(text, y) == Tree(y) && Simplify(text, z) == Tree(z)
    ensures OperandsClean(text, c) && Parts(text, c) == [Tree(x), Tree(y), Tree(z)]
  {
    hide Simplify, Clean, Collect;
  }

  lemma CollectLong()
    ensures Collect(KOr, LONG) == [A, And(A, C), B]
  {
    CollectTwo(KOr, A, And(A, C));
  }

  lemma LongAbsorption(text: Printer)
    requires TellsApart(text)
    ensures JustAbsorption(text, KOr, [A, And(A, C), B])
  {
    var flat := [A, And(A, C), B];
    forall i | 0 <= i < |flat| && Absorbed(text, KOr, flat, i)
      ensures AbsorbedDirectly(text, KOr, flat, i)
    {
      CollectTwo(KAnd, A, C);
      assert SameNode(text, Collect(KAnd, And(A, C))[0], A);
      assert Holds(text, Collect(KAnd, flat[1]), flat[0]);
    }
    DirectAbsorptionIsJust(text, KOr, flat);
  }

  lemma PairClean(text: Printer)
    requires TellsApart(text)
    ensures Clean(text, And(A, C)) && Clean(text, Or(And(A, C), B))
  {
    LeafIsClean(text, A);
    LeafIsClean(text, B);
    LeafIsClean(text, C);
    SimplifyPair(text);
    NoneAbsorbed(text, KAnd, A, C);
    NoneAbsorbed(text, KOr, And(A, C), B);
    hide Clean, Simplify, JustAbsorption;
    CleanTwo(text, KAnd, A, C, A, C);
    CleanTwo(text, KOr, And(A, C), B, And(A, C), B);
  }

  lemma LeafIsClean(text: Printer, c: Cond)
    requires c.Compare?
    ensures Clean(text, c) && Simplify(text, c) == Tree(c)
  {
  }

  lemma MutualIndependent(text: Printer, t: Reader)
    requires TellsApart(text)
    ensures LeavesIndependent(text, MUTUAL)
  {
    LeafValues(t, 0, 0, 0);
    assert Separated(t, RowOf(0, 0, 0), text, KAnd, [], SHORT) by {
      hide Eval;
    }
    MutualLevel(text);
    hide *;
    TellingTwo(t, RowOf(0, 0, 0), text, KAnd, MUTUAL, SHORT, SHORT, []);
  }

  /**
   Two disjunctions that become equal only while they are simplified absorb
   each other: the condition disappears and every row is kept.
   */
  lemma MutualAbsorption(text: Printer, t: Reader)
    requires TellsApart(text)
    ensures Rewrite(text, MUTUAL) == Nothing
    ensures Eval(t, RowOf(0, 0, 0), MUTUAL).False?
    ensures !Clean(text, Prepare(text, MUTUAL))
    ensures OperandsClean(text, MUTUAL) && LeavesIndependent(text, MUTUAL)
  {
    hide Simplify, Prepare, Clean, Eval, LeavesIndependent, OperandsClean, RowOf;
    PrepareMutual(text);
    MutualVanishes(text);
    MutualNotClean(text);
    MutualIndependent(text, t);
    MutualValue(t);
  }

  lemma MutualValue(t: Reader)
    ensures Eval(t, RowOf(0, 0, 0), MUTUAL).False?
  {
    LeafValues(t, 0, 0, 0);
    assert Eval(t, RowOf(0, 0, 0), SHORT).False?;
  }

  lemma MutualVanishes(text: Printer)
    requires TellsApart(text)
    ensures Simplify(text, MUTUAL) == Nothing
  {
    hide Simplify, Absorbed, Unabsorbed, Clean, OperandsClean, Parts, JustAbsorption;
    MutualLevel(text);
    SimplifyLong(text);
    SimplifyShort(text);
    OperandsTwo(text, KAnd, LONG, SHORT, SHORT, SHORT);
  }

  lemma MutualNotClean(text: Printer)
    requires TellsApart(text)
    ensures !Clean(text, MUTUAL) && OperandsClean(text, MUTUAL)
  {
    hide Clean, Absorbed, Unabsorbed, OperandsClean, Parts, Implied;
    MutualLevel(text);
    ImpliedBySome(text, KAnd, SHORT);
    assert [SHORT, SHORT][0] == SHORT;
  }
}
