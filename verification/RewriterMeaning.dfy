/**
 Every rewriting pass keeps the TRUE/FALSE/UNKNOWN value of the tree on every
 row. Absorption keeps it when the absorbed operands follow from those that
 stay, as they do when each has an absorbing sibling among its own immediate
 operands that cannot be absorbed itself.
 */
module RewriterMeaning {
  import opened Wrappers
  import opened SqlValues
  import opened Conditions
  import opened Rewriter

  // Nodes that print alike mean the same.
  ghost predicate Faithful(text: Printer) {
    forall a: Cond, b: Cond :: SameNode(text, a, b) ==> SameMeaning(a, b)
  }

  function OfList(t: Reader, row: Row, kind: Kind, cs: seq<Cond>): Truth {
    if kind.KAnd? then AllOf(t, row, cs) else AnyOf(t, row, cs)
  }

  function Combine(kind: Kind, a: Truth, b: Truth): Truth {
    if kind.KAnd? then Both(a, b) else Either(a, b)
  }

  // -------------------------------------------------------------- structure

  lemma OfListSingle(t: Reader, row: Row, kind: Kind, c: Cond)
    requires Connective(kind)
    ensures OfList(t, row, kind, [c]) == Eval(t, row, c)
  {
    var rest := [c][1..];
    assert AllOf(t, row, rest) == True && AnyOf(t, row, rest) == False;
    assert [c][0] == c;
  }

  lemma OfListConcat(t: Reader, row: Row, kind: Kind, cs: seq<Cond>, bs: seq<Cond>)
    requires Connective(kind)
    ensures OfList(t, row, kind, cs + bs) == Combine(kind, OfList(t, row, kind, cs), OfList(t, row, kind, bs))
  {
    AllOfConcat(t, row, cs, bs);
    AnyOfConcat(t, row, cs, bs);
  }

  lemma {:induction false} OfListPointwise(t: Reader, row: Row, kind: Kind, cs: seq<Cond>, bs: seq<Cond>)
    requires Connective(kind) && |cs| == |bs|
    requires forall i :: 0 <= i < |cs| ==> Eval(t, row, cs[i]) == Eval(t, row, bs[i])
    ensures OfList(t, row, kind, cs) == OfList(t, row, kind, bs)
  {
    if cs != [] {
      OfListPointwise(t, row, kind, cs[1..], bs[1..]);
    }
  }

  lemma {:induction false} CollectMeaning(t: Reader, row: Row, kind: Kind, c: Cond)
    requires Connective(kind)
    ensures OfList(t, row, kind, Collect(kind, c)) == Eval(t, row, c)
  {
    if KindOf(c) == kind {
      CollectMeaning(t, row, kind, c.left);
      CollectMeaning(t, row, kind, c.right);
      OfListConcat(t, row, kind, Collect(kind, c.left), Collect(kind, c.right));
    } else {
      OfListSingle(t, row, kind, c);
    }
  }

  lemma {:induction false} JoinMeaning(t: Reader, row: Row, kind: Kind, acc: Cond, cs: seq<Cond>)
    requires Connective(kind)
    ensures Eval(t, row, JoinOnto(kind, acc, cs)) == Combine(kind, Eval(t, row, acc), OfList(t, row, kind, cs))
    decreases |cs|
  {
    if cs != [] {
      JoinMeaning(t, row, kind, Joined(kind, acc, cs[0]), cs[1..]);
    }
  }

  lemma RebuildMeaning(t: Reader, row: Row, kind: Kind, cs: seq<Cond>)
    requires Connective(kind) && cs != []
    ensures Eval(t, row, Rebuild(kind, cs).value) == OfList(t, row, kind, cs)
  {
    JoinMeaning(t, row, kind, cs[0], cs[1..]);
  }

  // ---------------------------------------------------------- NOT push-down

  lemma FlipMeaning(t: Reader, op: CompareOp, a: Value, b: Value)
    requires !op.UNKNOWN_OP?
    ensures CompareValues(t, Flip(op), a, b) == Negate(CompareValues(t, op, a, b))
  {
  }

  lemma {:induction false} PushNotMeaning(t: Reader, row: Row, c: Cond, negated: bool)
    ensures Eval(t, row, PushNot(c, negated)) ==
            if negated then Negate(Eval(t, row, c)) else Eval(t, row, c)
  {
    match c {
      case Not(x) => PushNotMeaning(t, row, x, !negated);
      case And(l, r) =>
        PushNotMeaning(t, row, l, negated);
        PushNotMeaning(t, row, r, negated);
      case Or(l, r) =>
        PushNotMeaning(t, row, l, negated);
        PushNotMeaning(t, row, r, negated);
      case Compare(column, op, v) =>
        if column.name in row && !op.UNKNOWN_OP? {
          FlipMeaning(t, op, row[column.name], v);
        }
      case In(_, _, _) =>
    }
  }

  // -------------------------------------------------------------- flattening

  lemma {:induction false} FlattenMeaning(t: Reader, row: Row, c: Cond)
    ensures Eval(t, row, Flatten(c)) == Eval(t, row, c)
    decreases Size(c)
  {
    match c {
      case And(_, _) => FlattenOperands(t, row, KAnd, c);
      case Or(_, _) => FlattenOperands(t, row, KOr, c);
      case Not(x) => FlattenMeaning(t, row, x);
      case _ =>
    }
  }

  lemma {:induction false} FlattenOperands(t: Reader, row: Row, kind: Kind, c: Cond)
    requires Connective(kind) && KindOf(c) == kind
    ensures Eval(t, row, Flatten(c)) == Eval(t, row, c)
    decreases Size(c), 0
  {
    var flat := Collect(kind, c);
    var children := seq(|flat|, i requires 0 <= i < |flat| => Flatten(flat[i]));
    forall i | 0 <= i < |flat|
      ensures Eval(t, row, children[i]) == Eval(t, row, flat[i])
    {
      FlattenMeaning(t, row, flat[i]);
    }
    OfListPointwise(t, row, kind, children, flat);
    RebuildMeaning(t, row, kind, children);
    CollectMeaning(t, row, kind, c);
  }

  // -------------------------------------------------------------- IN folding

  lemma {:induction false} EqualsAnyBound(t: Reader, x: Value, vs: seq<Value>, i: nat)
    requires i < |vs|
    ensures Below(CompareValues(t, EQ, x, vs[i]), EqualsAny(t, x, vs))
  {
    if i < |vs| - 1 {
      EqualsAnyBound(t, x, vs[..|vs| - 1], i);
    }
  }

  lemma {:induction false} EqualsAnyReached(t: Reader, x: Value, vs: seq<Value>) returns (i: nat)
    requires vs != []
    ensures i < |vs| && EqualsAny(t, x, vs) == CompareValues(t, EQ, x, vs[i])
  {
    i := |vs| - 1;
    if |vs| > 1 && EqualsAny(t, x, vs) != CompareValues(t, EQ, x, vs[i]) {
      i := EqualsAnyReached(t, x, vs[..|vs| - 1]);
    }
  }

  lemma EqualsAnyWithin(t: Reader, x: Value, vs: seq<Value>, ws: seq<Value>)
    requires forall v :: v in vs ==> v in ws
    ensures Below(EqualsAny(t, x, vs), EqualsAny(t, x, ws))
  {
    if vs != [] {
      var i := EqualsAnyReached(t, x, vs);
      assert vs[i] in ws;
      var j :| 0 <= j < |ws| && ws[j] == vs[i];
      EqualsAnyBound(t, x, ws, j);
    }
  }

  lemma {:induction false} DistinctMembers(kept: seq<Value>, vs: seq<Value>)
    ensures forall v :: v in Distinct(kept, vs) <==> v in kept || v in vs
    decreases |vs|
  {
    if vs != [] {
      var next := if vs[0] in kept then kept else kept + [vs[0]];
      DistinctMembers(next, vs[1..]);
      assert vs == [vs[0]] + vs[1..];
    }
  }

  lemma FoldInMeaning(t: Reader, row: Row, column: Column, negated: bool, vs: seq<Value>)
    ensures Eval(t, row, FoldIn(column, negated, vs)) == Eval(t, row, In(column, negated, vs))
  {
    var values := Distinct([], vs);
    DistinctMembers([], vs);
    if column.name in row {
      var x := row[column.name];
      EqualsAnyWithin(t, x, vs, values);
      EqualsAnyWithin(t, x, values, vs);
      if |values| == 1 && !values[0].Null? {
        FlipMeaning(t, EQ, x, values[0]);
        assert EqualsAny(t, x, values[..0]) == False;
      }
    }
  }

  lemma {:induction false} FoldConstantsMeaning(t: Reader, row: Row, c: Cond)
    ensures Eval(t, row, FoldConstants(c)) == Eval(t, row, c)
  {
    match c {
      case And(l, r) =>
        FoldConstantsMeaning(t, row, l);
        FoldConstantsMeaning(t, row, r);
      case Or(l, r) =>
        FoldConstantsMeaning(t, row, l);
        FoldConstantsMeaning(t, row, r);
      case Not(x) => FoldConstantsMeaning(t, row, x);
      case In(column, negated, vs) => FoldInMeaning(t, row, column, negated, vs);
      case _ =>
    }
  }

  // ---------------------------------------------------------- de-duplication

  lemma {:induction false} RepeatAddsNothing(t: Reader, row: Row, kind: Kind, cs: seq<Cond>, i: nat, x: Cond)
    requires Connective(kind) && i < |cs| && Eval(t, row, cs[i]) == Eval(t, row, x)
    ensures Combine(kind, OfList(t, row, kind, cs), Eval(t, row, x)) == OfList(t, row, kind, cs)
  {
    if kind.KAnd? {
      AllOfBound(t, row, cs, i);
    } else {
      AnyOfBound(t, row, cs, i);
    }
  }

  lemma {:induction false} KeepFirstMeaning(t: Reader, row: Row, text: Printer, kind: Kind,
                                            kept: seq<Cond>, cs: seq<Cond>)
    requires Connective(kind) && Faithful(text)
    ensures OfList(t, row, kind, KeepFirst(text, kept, cs)) ==
            Combine(kind, OfList(t, row, kind, kept), OfList(t, row, kind, cs))
    decreases |cs|
  {
    if cs != [] {
      if Holds(text, kept, cs[0]) {
        var i :| 0 <= i < |kept| && SameNode(text, kept[i], cs[0]);
        assert SameMeaning(kept[i], cs[0]);
        RepeatAddsNothing(t, row, kind, kept, i, cs[0]);
        KeepFirstMeaning(t, row, text, kind, kept, cs[1..]);
      } else {
        OfListConcat(t, row, kind, kept, [cs[0]]);
        OfListSingle(t, row, kind, cs[0]);
        KeepFirstMeaning(t, row, text, kind, kept + [cs[0]], cs[1..]);
      }
    }
  }

  lemma {:induction false} DeduplicateMeaning(t: Reader, row: Row, text: Printer, c: Cond)
    requires Faithful(text)
    ensures Eval(t, row, Deduplicate(text, c)) == Eval(t, row, c)
    decreases Size(c)
  {
    match c {
      case And(_, _) => DeduplicateOperands(t, row, text, KAnd, c);
      case Or(_, _) => DeduplicateOperands(t, row, text, KOr, c);
      case Not(x) => DeduplicateMeaning(t, row, text, x);
      case _ =>
    }
  }

  lemma {:induction false} DeduplicateOperands(t: Reader, row: Row, text: Printer, kind: Kind, c: Cond)
    requires Faithful(text) && Connective(kind) && KindOf(c) == kind
    ensures Eval(t, row, Deduplicate(text, c)) == Eval(t, row, c)
    decreases Size(c), 0
  {
    var flat := Collect(kind, c);
    var children := seq(|flat|, i requires 0 <= i < |flat| => Deduplicate(text, flat[i]));
    forall i | 0 <= i < |flat|
      ensures Eval(t, row, children[i]) == Eval(t, row, flat[i])
    {
      DeduplicateMeaning(t, row, text, flat[i]);
    }
    OfListPointwise(t, row, kind, children, flat);
    KeepFirstMeaning(t, row, text, kind, [], children);
    RebuildMeaning(t, row, kind, KeepFirst(text, [], children));
    CollectMeaning(t, row, kind, c);
  }

  // -------------------------------------------------------------- absorption

  /**
   `c` follows from the operands in `kept`: under AND it is at least their
   minimum, under OR at most their maximum, whatever its other leaves are.
   */
  predicate Implied(text: Printer, kind: Kind, kept: seq<Cond>, c: Cond)
    requires Connective(kind)
  {
    Holds(text, kept, c) ||
    match c
    case And(l, r) =>
      if kind.KAnd? then Implied(text, kind, kept, l) && Implied(text, kind, kept, r)
      else Implied(text, kind, kept, l) || Implied(text, kind, kept, r)
    case Or(l, r) =>
      if kind.KAnd? then Implied(text, kind, kept, l) || Implied(text, kind, kept, r)
      else Implied(text, kind, kept, l) && Implied(text, kind, kept, r)
    case _ => false
  }

  predicate JustAbsorption(text: Printer, kind: Kind, children: seq<Cond>)
    requires Connective(kind)
  {
    forall i :: 0 <= i < |children| && Absorbed(text, kind, children, i) ==>
      Implied(text, kind, Unabsorbed(text, kind, children, 0), children[i])
  }

  lemma {:induction false} UnabsorbedHas(text: Printer, kind: Kind, children: seq<Cond>, from: nat, i: nat)
    requires Connective(kind) && from <= i < |children| && !Absorbed(text, kind, children, i)
    ensures children[i] in Unabsorbed(text, kind, children, from)
    decreases |children| - from
  {
    if from < i {
      UnabsorbedHas(text, kind, children, from + 1, i);
    }
  }

  lemma {:induction false} UnabsorbedWithin(text: Printer, kind: Kind, children: seq<Cond>, from: nat)
    requires Connective(kind) && from <= |children|
    ensures forall c :: c in Unabsorbed(text, kind, children, from) ==> c in children
    decreases |children| - from
  {
    if from < |children| {
      UnabsorbedWithin(text, kind, children, from + 1);
    }
  }

  lemma {:induction false} ImpliedBySome(text: Printer, kind: Kind, c: Cond)
    requires Connective(kind)
    ensures !Implied(text, kind, [], c)
  {
    match c {
      case And(l, r) =>
        ImpliedBySome(text, kind, l);
        ImpliedBySome(text, kind, r);
      case Or(l, r) =>
        ImpliedBySome(text, kind, l);
        ImpliedBySome(text, kind, r);
      case _ =>
    }
  }

  lemma {:induction false} ImpliedBounds(t: Reader, row: Row, text: Printer, kind: Kind, kept: seq<Cond>, c: Cond)
    requires Faithful(text) && Connective(kind) && Implied(text, kind, kept, c)
    ensures if kind.KAnd? then Below(AllOf(t, row, kept), Eval(t, row, c))
            else Below(Eval(t, row, c), AnyOf(t, row, kept))
  {
    if Holds(text, kept, c) {
      var k :| 0 <= k < |kept| && SameNode(text, kept[k], c);
      assert SameMeaning(kept[k], c);
      AllOfBound(t, row, kept, k);
      AnyOfBound(t, row, kept, k);
    } else {
      match c {
        case And(l, r) =>
          if Implied(text, kind, kept, l) { ImpliedBounds(t, row, text, kind, kept, l); }
          if Implied(text, kind, kept, r) { ImpliedBounds(t, row, text, kind, kept, r); }
        case Or(l, r) =>
          if Implied(text, kind, kept, l) { ImpliedBounds(t, row, text, kind, kept, l); }
          if Implied(text, kind, kept, r) { ImpliedBounds(t, row, text, kind, kept, r); }
      }
    }
  }

  // Every operand, absorbed or not, is bounded by those that stay.
  lemma OperandBounds(t: Reader, row: Row, text: Printer, kind: Kind, children: seq<Cond>, i: nat)
    requires Faithful(text) && Connective(kind) && i < |children| && JustAbsorption(text, kind, children)
    ensures var kept := Unabsorbed(text, kind, children, 0);
            && kept != []
            && if kind.KAnd? then Below(AllOf(t, row, kept), Eval(t, row, children[i]))
               else Below(Eval(t, row, children[i]), AnyOf(t, row, kept))
  {
    var kept := Unabsorbed(text, kind, children, 0);
    if Absorbed(text, kind, children, i) {
      ImpliedBounds(t, row, text, kind, kept, children[i]);
      ImpliedBySome(text, kind, children[i]);
    } else {
      UnabsorbedHas(text, kind, children, 0, i);
      var k :| 0 <= k < |kept| && kept[k] == children[i];
      AllOfBound(t, row, kept, k);
      AnyOfBound(t, row, kept, k);
    }
  }

  /** One level of absorption leaves something behind and keeps the value. */
  lemma AbsorptionMeaning(t: Reader, row: Row, text: Printer, kind: Kind, children: seq<Cond>)
    requires Faithful(text) && Connective(kind) && JustAbsorption(text, kind, children)
    ensures children != [] ==> Unabsorbed(text, kind, children, 0) != []
    ensures OfList(t, row, kind, Unabsorbed(text, kind, children, 0)) == OfList(t, row, kind, children)
  {
    hide Eval, Absorbed, Implied;
    var kept := Unabsorbed(text, kind, children, 0);
    UnabsorbedWithin(text, kind, children, 0);
    forall k | 0 <= k < |kept|
      ensures Dominates(t, row, kept[k], children) && Dominated(t, row, kept[k], children)
    {
      assert kept[k] in children;
      var i :| 0 <= i < |children| && children[i] == kept[k];
    }
    if children != [] {
      if kind.KAnd? {
        var i := AllOfReached(t, row, children);
        OperandBounds(t, row, text, kind, children, i);
        AllOfDominates(t, row, kept, children);
      } else {
        var i := AnyOfReached(t, row, children);
        OperandBounds(t, row, text, kind, children, i);
        AnyOfDominated(t, row, kept, children);
      }
    }
  }

  // The sibling is an immediate operand of the absorbed node and not of a kind
  // that is absorbed.
  predicate AbsorbedDirectly(text: Printer, kind: Kind, children: seq<Cond>, i: nat)
    requires Connective(kind) && i < |children|
  {
    exists j :: 0 <= j < |children| && i != j && KindOf(children[j]) != Dual(kind) &&
                Holds(text, Collect(Dual(kind), children[i]), children[j])
  }

  lemma {:induction false} ImpliedByOperand(text: Printer, kind: Kind, kept: seq<Cond>, c: Cond, x: Cond)
    requires Connective(kind) && x in kept && Holds(text, Collect(Dual(kind), c), x)
    ensures Implied(text, kind, kept, c)
  {
    hide SameNode;
    if KindOf(c) == Dual(kind) {
      var flat := Collect(Dual(kind), c);
      var k :| 0 <= k < |flat| && SameNode(text, flat[k], x);
      var left := Collect(Dual(kind), c.left);
      if k < |left| {
        assert SameNode(text, left[k], x);
        ImpliedByOperand(text, kind, kept, c.left, x);
      } else {
        assert SameNode(text, Collect(Dual(kind), c.right)[k - |left|], x);
        ImpliedByOperand(text, kind, kept, c.right, x);
      }
    } else {
      assert Collect(Dual(kind), c) == [c];
      var k :| 0 <= k < |kept| && kept[k] == x;
      SameNodeSymmetric(text, c, x);
      assert SameNode(text, kept[k], c);
    }
  }

  lemma SameNodeSymmetric(text: Printer, a: Cond, b: Cond)
    requires SameNode(text, a, b)
    ensures SameNode(text, b, a)
  {
  }

  /** Absorption by immediate operands is always right. */
  lemma DirectAbsorptionIsJust(text: Printer, kind: Kind, children: seq<Cond>)
    requires Connective(kind)
    requires forall i :: 0 <= i < |children| && Absorbed(text, kind, children, i) ==>
               AbsorbedDirectly(text, kind, children, i)
    ensures JustAbsorption(text, kind, children)
  {
    var kept := Unabsorbed(text, kind, children, 0);
    forall i | 0 <= i < |children| && Absorbed(text, kind, children, i)
      ensures Implied(text, kind, kept, children[i])
    {
      hide Implied, Unabsorbed, Collect, TreeContains;
      var j :| 0 <= j < |children| && i != j && KindOf(children[j]) != Dual(kind) &&
               Holds(text, Collect(Dual(kind), children[i]), children[j]);
      UnabsorbedHas(text, kind, children, 0, j);
      ImpliedByOperand(text, kind, kept, children[i], children[j]);
    }
  }

  // -------------------------------------------------- equalities merged to IN

  lemma GroupBounds(t: Reader, row: Row, kept: seq<Cond>, head: Cond, group: seq<nat>)
    requires Equality(head) && IsGroup(kept, group) && group != []
    requires forall k :: 0 <= k < |group| ==>
               Equality(kept[group[k]]) && kept[group[k]].column.name == head.column.name
    ensures var merged := In(head.column, false, ValuesOf(kept, group));
            && (forall k :: 0 <= k < |group| ==> Below(Eval(t, row, kept[group[k]]), Eval(t, row, merged)))
            && Below(Eval(t, row, merged), AnyOf(t, row, kept))
  {
    var vs := ValuesOf(kept, group);
    if head.column.name in row {
      var x := row[head.column.name];
      forall k | 0 <= k < |group|
        ensures Below(Eval(t, row, kept[group[k]]), EqualsAny(t, x, vs))
      {
        EqualsAnyBound(t, x, vs, k);
      }
      var i := EqualsAnyReached(t, x, vs);
      AnyOfBound(t, row, kept, group[i]);
    } else {
      AnyOfBound(t, row, kept, group[0]);
    }
  }

  ghost predicate CoveredBy(t: Reader, row: Row, kept: seq<Cond>, taken: set<nat>, merged: seq<Cond>) {
    forall x :: x in taken ==> x < |kept| && Below(Eval(t, row, kept[x]), AnyOf(t, row, merged))
  }

  lemma CoverMore(t: Reader, row: Row, kept: seq<Cond>, group: seq<nat>, merged: Cond,
                  taken: set<nat>, rest: seq<Cond>)
    requires forall k :: 0 <= k < |group| ==>
               group[k] < |kept| && Below(Eval(t, row, kept[group[k]]), Eval(t, row, merged))
    requires Below(Eval(t, row, merged), AnyOf(t, row, kept))
    requires CoveredBy(t, row, kept, taken, rest) && Below(AnyOf(t, row, rest), AnyOf(t, row, kept))
    ensures CoveredBy(t, row, kept, taken + Members(group), [merged] + rest)
    ensures Below(AnyOf(t, row, [merged] + rest), AnyOf(t, row, kept))
  {
    hide Eval;
    assert ([merged] + rest)[1..] == rest;
    forall x | x in Members(group)
      ensures x < |kept| && Below(Eval(t, row, kept[x]), AnyOf(t, row, [merged] + rest))
    {
      var k :| 0 <= k < |group| && group[k] == x;
    }
  }

  lemma CoveredSubset(t: Reader, row: Row, kept: seq<Cond>, taken: set<nat>, fewer: set<nat>, merged: seq<Cond>)
    requires CoveredBy(t, row, kept, taken, merged) && fewer <= taken
    ensures CoveredBy(t, row, kept, fewer, merged)
  {
  }

  lemma {:induction false} MergeBounds(t: Reader, row: Row, kept: seq<Cond>, consumed: set<nat>, i: nat)
    requires i <= |kept|
    ensures var r := MergeFrom(kept, consumed, i);
            && CoveredBy(t, row, kept, r.1 - consumed, r.0)
            && Below(AnyOf(t, row, r.0), AnyOf(t, row, kept))
    decreases |kept| - i
  {
    hide Eval, CoveredBy;
    if i == |kept| || i in consumed || !Equality(kept[i]) || Group(kept, consumed, kept[i], i + 1) == [] {
      if i < |kept| {
        MergeBounds(t, row, kept, consumed, i + 1);
      } else {
        assert CoveredBy(t, row, kept, {}, []) by {
          CoveredNone(t, row, kept);
        }
        assert consumed - consumed == {};
      }
    } else {
      var group := [i] + Group(kept, consumed, kept[i], i + 1);
      var more := consumed + Members(group);
      MergeBounds(t, row, kept, more, i + 1);
      var rest := MergeFrom(kept, more, i + 1);
      GroupBounds(t, row, kept, kept[i], group);
      var merged := In(kept[i].column, false, ValuesOf(kept, group));
      CoverMore(t, row, kept, group, merged, rest.1 - more, rest.0);
      CoveredSubset(t, row, kept, rest.1 - more + Members(group), rest.1 - consumed, [merged] + rest.0);
    }
  }

  lemma CoveredNone(t: Reader, row: Row, kept: seq<Cond>)
    ensures CoveredBy(t, row, kept, {}, [])
  {
  }

  lemma {:induction false} UnconsumedBounds(t: Reader, row: Row, kept: seq<Cond>, consumed: set<nat>, from: nat)
    requires from <= |kept|
    ensures forall x :: from <= x < |kept| && x !in consumed ==>
              Below(Eval(t, row, kept[x]), AnyOf(t, row, Unconsumed(kept, consumed, from)))
    ensures Below(AnyOf(t, row, Unconsumed(kept, consumed, from)), AnyOf(t, row, kept))
    decreases |kept| - from
  {
    if from < |kept| {
      UnconsumedBounds(t, row, kept, consumed, from + 1);
      AnyOfBound(t, row, kept, from);
      if from !in consumed {
        assert Unconsumed(kept, consumed, from)[1..] == Unconsumed(kept, consumed, from + 1);
      }
    }
  }

  lemma MergeMeaning(t: Reader, row: Row, kept: seq<Cond>)
    ensures AnyOf(t, row, MergeEqualities(kept)) == AnyOf(t, row, kept)
    ensures kept != [] ==> MergeEqualities(kept) != []
  {
    var r := MergeFrom(kept, {}, 0);
    var rest := Unconsumed(kept, r.1, 0);
    MergeBounds(t, row, kept, {}, 0);
    assert r.1 - {} == r.1;
    UnconsumedBounds(t, row, kept, r.1, 0);
    AnyOfConcat(t, row, r.0, rest);
    if kept != [] {
      var i := AnyOfReached(t, row, kept);
      assert i in r.1 || i !in r.1;
      MergeLeavesSome(kept, {}, 0);
    }
  }

  lemma {:induction false} MergeLeavesSome(kept: seq<Cond>, consumed: set<nat>, i: nat)
    requires i <= |kept|
    ensures var r := MergeFrom(kept, consumed, i); r.0 == [] ==> r.1 == consumed
    decreases |kept| - i
  {
    if i < |kept| {
      MergeLeavesSome(kept, consumed, i + 1);
    }
  }

  // ---------------------------------------------------------- simplification

  predicate CleanOperands(text: Printer, kind: Kind, parts: seq<Simplified>)
    requires Connective(kind)
  {
    && (forall i :: 0 <= i < |parts| ==> parts[i].Tree?)
    && JustAbsorption(text, kind, Trees(parts))
  }

  /**
   At every level of `c` the absorbed operands follow from those that stay:
   decidable on the tree, and true whenever nothing is absorbed at all.
   */
  predicate Clean(text: Printer, c: Cond)
    decreases Size(c)
  {
    match c
    case And(_, _) =>
      var flat := Collect(KAnd, c);
      && (forall i :: 0 <= i < |flat| ==> Clean(text, flat[i]))
      && CleanOperands(text, KAnd, seq(|flat|, i requires 0 <= i < |flat| => Simplify(text, flat[i])))
    case Or(_, _) =>
      var flat := Collect(KOr, c);
      && (forall i :: 0 <= i < |flat| ==> Clean(text, flat[i]))
      && CleanOperands(text, KOr, seq(|flat|, i requires 0 <= i < |flat| => Simplify(text, flat[i])))
    case Not(x) => Clean(text, x)
    case _ => true
  }

  lemma OperandsMeaning(t: Reader, row: Row, text: Printer, kind: Kind, parts: seq<Simplified>)
    requires Faithful(text) && Connective(kind) && parts != [] && CleanOperands(text, kind, parts)
    ensures var r := SimplifyOperands(text, kind, parts);
            r.Tree? && Eval(t, row, r.c) == OfList(t, row, kind, Trees(parts))
  {
    var children := Trees(parts);
    var kept := Unabsorbed(text, kind, children, 0);
    AbsorptionMeaning(t, row, text, kind, children);
    MergeMeaning(t, row, kept);
    RebuildMeaning(t, row, kind, if kind.KAnd? then kept else MergeEqualities(kept));
  }

  lemma SimplifyNotMeaning(t: Reader, row: Row, child: Simplified)
    requires child.Tree?
    ensures SimplifyNot(child).Tree?
    ensures Eval(t, row, SimplifyNot(child).c) == Negate(Eval(t, row, child.c))
  {
  }

  /** Simplification of a clean tree keeps its value on every row. */
  lemma {:induction false} SimplifyMeaning(t: Reader, row: Row, text: Printer, c: Cond)
    requires Faithful(text) && Clean(text, c)
    ensures Simplify(text, c).Tree?
    ensures Eval(t, row, Simplify(text, c).c) == Eval(t, row, c)
    decreases Size(c)
  {
    match c {
      case And(_, _) => SimplifyConnective(t, row, text, KAnd, c);
      case Or(_, _) => SimplifyConnective(t, row, text, KOr, c);
      case Not(x) =>
        SimplifyMeaning(t, row, text, x);
        SimplifyNotMeaning(t, row, Simplify(text, x));
      case _ =>
    }
  }

  lemma {:induction false} SimplifyConnective(t: Reader, row: Row, text: Printer, kind: Kind, c: Cond)
    requires Faithful(text) && Clean(text, c) && Connective(kind) && KindOf(c) == kind
    ensures Simplify(text, c).Tree?
    ensures Eval(t, row, Simplify(text, c).c) == Eval(t, row, c)
    decreases Size(c), 0
  {
    var flat := Collect(kind, c);
    var parts := seq(|flat|, i requires 0 <= i < |flat| => Simplify(text, flat[i]));
    forall i | 0 <= i < |flat|
      ensures parts[i].Tree? && Eval(t, row, parts[i].c) == Eval(t, row, flat[i])
    {
      SimplifyMeaning(t, row, text, flat[i]);
    }
    OfListPointwise(t, row, kind, Trees(parts), flat);
    OperandsMeaning(t, row, text, kind, parts);
    CollectMeaning(t, row, kind, c);
  }

  lemma PrepareMeaning(t: Reader, row: Row, text: Printer, c: Cond)
    requires Faithful(text)
    ensures Eval(t, row, Prepare(text, c)) == Eval(t, row, c)
  {
    var pushed := PushNot(c, false);
    PushNotMeaning(t, row, c, false);
    FlattenMeaning(t, row, pushed);
    FoldConstantsMeaning(t, row, Flatten(pushed));
    DeduplicateMeaning(t, row, text, FoldConstants(Flatten(pushed)));
  }

  /** The whole pipeline keeps the meaning of every tree it leaves clean. */
  lemma RewriteMeaning(text: Printer, c: Cond)
    requires Faithful(text) && Clean(text, Prepare(text, c))
    ensures Rewrite(text, c).Tree? && SameMeaning(Rewrite(text, c).c, c)
  {
    hide Eval, Simplify, Prepare, Clean, Faithful;
    forall t: Reader, row: Row
      ensures Rewrite(text, c).Tree? && Eval(t, row, Rewrite(text, c).c) == Eval(t, row, c)
    {
      PrepareMeaning(t, row, text, c);
      SimplifyMeaning(t, row, text, Prepare(text, c));
    }
    var t := Reader(_ => None, _ => None, _ => None, _ => None, (_, _) => false);
    assert Eval(t, map[], c) == Eval(t, map[], c);
  }

}
