/**
 Conditions that can become key ranges, and why rewriting keeps them so: it
 never turns a comparison or an IN list into one that has no range.
 */
module RewriterConverts {
  import opened Conditions
  import opened Rewriter
  import opened RewriterForms

  const RANGED: set<CompareOp> := {EQ, GT, GE, LT, LE, IS_NULL, IS_NOT_NULL}

  // Comparisons with an order, null tests and IN lists, joined by AND and OR.
  predicate Convertible(c: Cond) {
    match c
    case Compare(_, op, _) => op in RANGED
    case In(_, negated, _) => !negated
    case And(l, r) => Convertible(l) && Convertible(r)
    case Or(l, r) => Convertible(l) && Convertible(r)
    case Not(_) => false
  }

  ghost predicate AllConvertible(cs: seq<Cond>) {
    forall i :: 0 <= i < |cs| ==> Convertible(cs[i])
  }

  lemma {:induction false} CollectConverts(kind: Kind, c: Cond)
    requires Connective(kind) && Convertible(c)
    ensures AllConvertible(Collect(kind, c))
  {
    if (c.And? && kind.KAnd?) || (c.Or? && kind.KOr?) {
      CollectConverts(kind, c.left);
      CollectConverts(kind, c.right);
    }
  }

  lemma {:induction false} JoinConverts(kind: Kind, acc: Cond, cs: seq<Cond>)
    requires Connective(kind) && Convertible(acc) && AllConvertible(cs)
    ensures Convertible(JoinOnto(kind, acc, cs))
    decreases |cs|
  {
    if cs != [] { JoinConverts(kind, Joined(kind, acc, cs[0]), cs[1..]); }
  }

  lemma {:induction false} PushNotConverts(c: Cond)
    requires Convertible(c)
    ensures PushNot(c, false) == c
  {
    match c
    case And(l, r) =>
      PushNotConverts(l);
      PushNotConverts(r);
    case Or(l, r) =>
      PushNotConverts(l);
      PushNotConverts(r);
    case _ =>
  }

  lemma {:induction false} FlattenConverts(c: Cond)
    requires Convertible(c)
    ensures Convertible(Flatten(c))
    decreases Size(c), 1
  {
    match c
    case And(_, _) => FlattenNestConverts(KAnd, c);
    case Or(_, _) => FlattenNestConverts(KOr, c);
    case _ =>
  }

  lemma {:induction false} FlattenNestConverts(kind: Kind, c: Cond)
    requires Connective(kind) && KindOf(c) == kind && Convertible(c)
    ensures Convertible(Flatten(c))
    decreases Size(c), 0
  {
    var flat := Collect(kind, c);
    var children := seq(|flat|, i requires 0 <= i < |flat| => Flatten(flat[i]));
    CollectConverts(kind, c);
    forall i | 0 <= i < |flat| ensures Convertible(children[i]) { FlattenConverts(flat[i]); }
    assert Flatten(c) == JoinOnto(kind, children[0], children[1..]);
    JoinConverts(kind, children[0], children[1..]);
  }

  lemma {:induction false} FoldConverts(c: Cond)
    requires Convertible(c)
    ensures Convertible(FoldConstants(c))
  {
    match c
    case And(l, r) =>
      FoldConverts(l);
      FoldConverts(r);
    case Or(l, r) =>
      FoldConverts(l);
      FoldConverts(r);
    case _ =>
  }

  lemma {:induction false} DeduplicateConverts(text: Printer, c: Cond)
    requires Convertible(c)
    ensures Convertible(Deduplicate(text, c))
    decreases Size(c), 1
  {
    match c
    case And(_, _) => DeduplicateNestConverts(text, KAnd, c);
    case Or(_, _) => DeduplicateNestConverts(text, KOr, c);
    case _ =>
  }

  lemma {:induction false} DeduplicateNestConverts(text: Printer, kind: Kind, c: Cond)
    requires Connective(kind) && KindOf(c) == kind && Convertible(c)
    ensures Convertible(Deduplicate(text, c))
    decreases Size(c), 0
  {
    CollectConverts(kind, c);
    var flat := Collect(kind, c);
    var ks := DeduplicateForm(text, kind, c);
    forall i | 0 <= i < |ks| ensures Convertible(ks[i]) {
      assert ks[i] in ks;
      var x :| x in flat && ks[i] == Deduplicate(text, x);
      DeduplicateConverts(text, x);
    }
    JoinConverts(kind, ks[0], ks[1..]);
  }

  lemma {:induction false} MergedLists(kept: seq<Cond>, consumed: set<nat>, i: nat)
    requires i <= |kept|
    ensures AllConvertible(MergeFrom(kept, consumed, i).0)
    decreases |kept| - i
  {
    if i < |kept| && i !in consumed && Equality(kept[i]) {
      var group := [i] + Group(kept, consumed, kept[i], i + 1);
      MergedLists(kept, consumed + Members(group), i + 1);
      MergedLists(kept, consumed, i + 1);
    } else if i < |kept| {
      MergedLists(kept, consumed, i + 1);
    }
  }

  lemma MergeConverts(kept: seq<Cond>)
    requires AllConvertible(kept)
    ensures AllConvertible(MergeEqualities(kept))
  {
    MergedLists(kept, {}, 0);
    var (lists, consumed) := MergeFrom(kept, {}, 0);
    var left := Unconsumed(kept, consumed, 0);
    hide MergeFrom, Unconsumed, Convertible;
    forall i | 0 <= i < |left| ensures Convertible(left[i]) { UnconsumedFrom(kept, consumed, 0, left[i]); }
  }

  lemma OperandsConvert(text: Printer, kind: Kind, parts: seq<Simplified>)
    requires Connective(kind) && forall i :: 0 <= i < |parts| && parts[i].Tree? ==> Convertible(parts[i].c)
    ensures var r := SimplifyOperands(text, kind, parts); r.Tree? ==> Convertible(r.c)
  {
    if SimplifyOperands(text, kind, parts).Tree? {
      var trees := Trees(parts);
      var kept := Unabsorbed(text, kind, trees, 0);
      hide Convertible, Unabsorbed, MergeEqualities;
      forall i | 0 <= i < |kept| ensures Convertible(kept[i]) { UnabsorbedExact(text, kind, trees, 0, kept[i]); }
      MergeConverts(kept);
      var ks := if kind.KAnd? then kept else MergeEqualities(kept);
      JoinConverts(kind, ks[0], ks[1..]);
    }
  }

  lemma {:induction false} SimplifyConverts(text: Printer, c: Cond)
    requires Convertible(c)
    ensures var r := Simplify(text, c); r.Tree? ==> Convertible(r.c)
    decreases Size(c), 1
  {
    match c
    case And(_, _) => SimplifyNestConverts(text, KAnd, c);
    case Or(_, _) => SimplifyNestConverts(text, KOr, c);
    case _ =>
  }

  lemma {:induction false} SimplifyNestConverts(text: Printer, kind: Kind, c: Cond)
    requires Connective(kind) && KindOf(c) == kind && Convertible(c)
    ensures var r := Simplify(text, c); r.Tree? ==> Convertible(r.c)
    decreases Size(c), 0
  {
    var flat := Collect(kind, c);
    var parts := seq(|flat|, i requires 0 <= i < |flat| => Simplify(text, flat[i]));
    CollectConverts(kind, c);
    forall i | 0 <= i < |flat| ensures parts[i].Tree? ==> Convertible(parts[i].c) { SimplifyConverts(text, flat[i]); }
    assert Simplify(text, c) == SimplifyOperands(text, kind, parts);
    OperandsConvert(text, kind, parts);
  }

  /** Rewriting a condition that can become ranges yields one that can. */
  lemma RewriteConverts(text: Printer, c: Cond)
    requires Convertible(c)
    ensures var r := Rewrite(text, c); r.Tree? ==> Convertible(r.c)
  {
    PushNotConverts(c);
    FlattenConverts(c);
    FoldConverts(Flatten(c));
    DeduplicateConverts(text, FoldConstants(Flatten(c)));
    SimplifyConverts(text, Prepare(text, c));
  }
}
