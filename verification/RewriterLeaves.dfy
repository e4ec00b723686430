/**
 Rewriting invents nothing: every column and every literal of the result was in
 the tree it started from.
 */
module RewriterLeaves {
  import opened Wrappers
  import opened SqlValues
  import opened Conditions
  import opened Rewriter

  ghost predicate AllIn(cs: seq<Cond>, ok: LeafTest) {
    forall i :: 0 <= i < |cs| ==> AllLeaves(cs[i], ok)
  }

  lemma {:induction false} CollectLeaves(kind: Kind, c: Cond, ok: LeafTest)
    requires Connective(kind) && AllLeaves(c, ok)
    ensures AllIn(Collect(kind, c), ok)
  {
    if KindOf(c) == kind {
      CollectLeaves(kind, c.left, ok);
      CollectLeaves(kind, c.right, ok);
    }
  }

  lemma {:induction false} JoinLeaves(kind: Kind, acc: Cond, cs: seq<Cond>, ok: LeafTest)
    requires Connective(kind) && AllLeaves(acc, ok) && AllIn(cs, ok)
    ensures AllLeaves(JoinOnto(kind, acc, cs), ok)
    decreases |cs|
  {
    if cs != [] {
      JoinLeaves(kind, Joined(kind, acc, cs[0]), cs[1..], ok);
    }
  }

  lemma {:induction false} PushNotLeaves(c: Cond, negated: bool, ok: LeafTest)
    requires AllLeaves(c, ok)
    ensures AllLeaves(PushNot(c, negated), ok)
  {
    match c {
      case Not(x) => PushNotLeaves(x, !negated, ok);
      case And(l, r) =>
        PushNotLeaves(l, negated, ok);
        PushNotLeaves(r, negated, ok);
      case Or(l, r) =>
        PushNotLeaves(l, negated, ok);
        PushNotLeaves(r, negated, ok);
      case _ =>
    }
  }

  lemma {:induction false} FlattenLeaves(c: Cond, ok: LeafTest)
    requires AllLeaves(c, ok)
    ensures AllLeaves(Flatten(c), ok)
    decreases Size(c)
  {
    if c.And? || c.Or? {
      var kind := KindOf(c);
      var flat := Collect(kind, c);
      CollectLeaves(kind, c, ok);
      var children := seq(|flat|, i requires 0 <= i < |flat| => Flatten(flat[i]));
      forall i | 0 <= i < |flat|
        ensures AllLeaves(children[i], ok)
      {
        FlattenLeaves(flat[i], ok);
      }
      JoinLeaves(kind, children[0], children[1..], ok);
    } else if c.Not? {
      FlattenLeaves(c.child, ok);
    }
  }

  lemma {:induction false} DistinctValues(kept: seq<Value>, vs: seq<Value>)
    ensures forall v :: v in Distinct(kept, vs) ==> v in kept || v in vs
    decreases |vs|
  {
    if vs != [] {
      DistinctValues(if vs[0] in kept then kept else kept + [vs[0]], vs[1..]);
    }
  }

  lemma {:induction false} FoldConstantsLeaves(c: Cond, ok: LeafTest)
    requires AllLeaves(c, ok)
    ensures AllLeaves(FoldConstants(c), ok)
  {
    match c {
      case And(l, r) =>
        FoldConstantsLeaves(l, ok);
        FoldConstantsLeaves(r, ok);
      case Or(l, r) =>
        FoldConstantsLeaves(l, ok);
        FoldConstantsLeaves(r, ok);
      case Not(x) => FoldConstantsLeaves(x, ok);
      case In(column, _, vs) =>
        var values := Distinct([], vs);
        DistinctValues([], vs);
        forall i | 0 <= i < |values|
          ensures ok(column.name, Some(values[i]))
        {
          assert values[i] in vs;
        }
      case _ =>
    }
  }

  lemma {:induction false} KeepFirstLeaves(text: Printer, kept: seq<Cond>, cs: seq<Cond>, ok: LeafTest)
    requires AllIn(kept, ok) && AllIn(cs, ok)
    ensures AllIn(KeepFirst(text, kept, cs), ok)
    decreases |cs|
  {
    if cs != [] {
      KeepFirstLeaves(text, if Holds(text, kept, cs[0]) then kept else kept + [cs[0]], cs[1..], ok);
    }
  }

  lemma {:induction false} DeduplicateLeaves(text: Printer, c: Cond, ok: LeafTest)
    requires AllLeaves(c, ok)
    ensures AllLeaves(Deduplicate(text, c), ok)
    decreases Size(c)
  {
    if c.And? || c.Or? {
      var kind := KindOf(c);
      var flat := Collect(kind, c);
      CollectLeaves(kind, c, ok);
      var children := seq(|flat|, i requires 0 <= i < |flat| => Deduplicate(text, flat[i]));
      forall i | 0 <= i < |flat|
        ensures AllLeaves(children[i], ok)
      {
        DeduplicateLeaves(text, flat[i], ok);
      }
      var kept := KeepFirst(text, [], children);
      KeepFirstLeaves(text, [], children, ok);
      JoinLeaves(kind, kept[0], kept[1..], ok);
    } else if c.Not? {
      DeduplicateLeaves(text, c.child, ok);
    }
  }

  lemma {:induction false} UnabsorbedLeaves(text: Printer, kind: Kind, cs: seq<Cond>, from: nat, ok: LeafTest)
    requires Connective(kind) && from <= |cs| && AllIn(cs, ok)
    ensures AllIn(Unabsorbed(text, kind, cs, from), ok)
    decreases |cs| - from
  {
    if from < |cs| {
      UnabsorbedLeaves(text, kind, cs, from + 1, ok);
    }
  }

  lemma {:induction false} MergeLeaves(kept: seq<Cond>, consumed: set<nat>, i: nat, ok: LeafTest)
    requires i <= |kept| && AllIn(kept, ok)
    ensures AllIn(MergeFrom(kept, consumed, i).0, ok)
    decreases |kept| - i
  {
    if i < |kept| {
      if i in consumed || !Equality(kept[i]) || Group(kept, consumed, kept[i], i + 1) == [] {
        MergeLeaves(kept, consumed, i + 1, ok);
      } else {
        var group := [i] + Group(kept, consumed, kept[i], i + 1);
        MergeLeaves(kept, consumed + Members(group), i + 1, ok);
        GroupLeaves(kept, kept[i], group, ok);
      }
    }
  }

  lemma GroupLeaves(kept: seq<Cond>, head: Cond, group: seq<nat>, ok: LeafTest)
    requires AllIn(kept, ok) && head.Compare? && AllLeaves(head, ok) && IsGroup(kept, group)
    requires forall k :: 0 <= k < |group| ==> kept[group[k]].column.name == head.column.name
    ensures AllLeaves(In(head.column, false, ValuesOf(kept, group)), ok)
  {
    forall k | 0 <= k < |group|
      ensures ok(head.column.name, Some(ValuesOf(kept, group)[k]))
    {
      assert AllLeaves(kept[group[k]], ok);
    }
  }

  lemma {:induction false} UnconsumedLeaves(kept: seq<Cond>, consumed: set<nat>, from: nat, ok: LeafTest)
    requires from <= |kept| && AllIn(kept, ok)
    ensures AllIn(Unconsumed(kept, consumed, from), ok)
    decreases |kept| - from
  {
    if from < |kept| {
      UnconsumedLeaves(kept, consumed, from + 1, ok);
    }
  }

  lemma OperandsLeaves(text: Printer, kind: Kind, parts: seq<Simplified>, ok: LeafTest)
    requires Connective(kind)
    requires forall i :: 0 <= i < |parts| && parts[i].Tree? ==> AllLeaves(parts[i].c, ok)
    requires SimplifyOperands(text, kind, parts).Tree?
    ensures AllLeaves(SimplifyOperands(text, kind, parts).c, ok)
  {
    var children := Trees(parts);
    var kept := Unabsorbed(text, kind, children, 0);
    UnabsorbedLeaves(text, kind, children, 0, ok);
    MergeLeaves(kept, {}, 0, ok);
    UnconsumedLeaves(kept, MergeFrom(kept, {}, 0).1, 0, ok);
    var out := if kind.KAnd? then kept else MergeEqualities(kept);
    JoinLeaves(kind, out[0], out[1..], ok);
  }

  lemma {:induction false} SimplifyLeaves(text: Printer, c: Cond, ok: LeafTest)
    requires AllLeaves(c, ok) && Simplify(text, c).Tree?
    ensures AllLeaves(Simplify(text, c).c, ok)
    decreases Size(c)
  {
    if c.And? || c.Or? {
      var kind := KindOf(c);
      var flat := Collect(kind, c);
      CollectLeaves(kind, c, ok);
      var parts := seq(|flat|, i requires 0 <= i < |flat| => Simplify(text, flat[i]));
      forall i | 0 <= i < |flat| && parts[i].Tree?
        ensures AllLeaves(parts[i].c, ok)
      {
        SimplifyLeaves(text, flat[i], ok);
      }
      OperandsLeaves(text, kind, parts, ok);
    } else if c.Not? {
      SimplifyLeaves(text, c.child, ok);
    }
  }

  /** Whatever held of all columns and literals before holds of them after. */
  lemma RewriteLeaves(text: Printer, c: Cond, ok: LeafTest)
    requires AllLeaves(c, ok) && Rewrite(text, c).Tree?
    ensures AllLeaves(Rewrite(text, c).c, ok)
  {
    hide AllLeaves, Simplify;
    var pushed := PushNot(c, false);
    PushNotLeaves(c, false, ok);
    FlattenLeaves(pushed, ok);
    FoldConstantsLeaves(Flatten(pushed), ok);
    DeduplicateLeaves(text, FoldConstants(Flatten(pushed)), ok);
    SimplifyLeaves(text, Prepare(text, c), ok);
  }

}
