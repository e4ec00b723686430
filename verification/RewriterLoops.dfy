/**
 The rewriter's loops over growing lists and flag vectors, each shown to compute
 the corresponding function.
 */
module RewriterLoops {
  import opened Wrappers
  import opened SqlValues
  import opened Conditions
  import opened Rewriter

  method CollectSameOp(kind: Kind, c: Cond, out: seq<Cond>) returns (r: seq<Cond>)
    requires Connective(kind)
    ensures r == out + Collect(kind, c)
    decreases c
  {
    if KindOf(c) == kind {
      r := CollectSameOp(kind, c.left, out);
      r := CollectSameOp(kind, c.right, r);
    } else {
      r := out + [c];
    }
  }

  method RebuildTree(kind: Kind, children: seq<Cond>) returns (r: Option<Cond>)
    requires Connective(kind)
    ensures r == Rebuild(kind, children)
  {
    r := None;
    for i := 0 to |children|
      invariant r.None? <==> i == 0
      invariant i > 0 ==> Some(JoinOnto(kind, r.value, children[i..])) == Rebuild(kind, children)
    {
      if r.None? {
        r := Some(children[i]);
      } else {
        assert children[i..][1..] == children[i + 1..];
        r := Some(if kind.KAnd? then And(r.value, children[i]) else Or(r.value, children[i]));
      }
    }
    assert children[|children|..] == [];
  }

  lemma FlattenUnfold(c: Cond, children: seq<Cond>)
    requires Connective(KindOf(c))
    requires var flat := Collect(KindOf(c), c);
             |children| == |flat| && forall k :: 0 <= k < |flat| ==> children[k] == Flatten(flat[k])
    ensures Flatten(c) == Rebuild(KindOf(c), children).value
  {
    var flat := Collect(KindOf(c), c);
    assert children == seq(|flat|, i requires 0 <= i < |flat| => Flatten(flat[i]));
  }

  lemma DeduplicateUnfold(text: Printer, c: Cond, children: seq<Cond>)
    requires Connective(KindOf(c))
    requires var flat := Collect(KindOf(c), c);
             |children| == |flat| && forall k :: 0 <= k < |flat| ==> children[k] == Deduplicate(text, flat[k])
    ensures children != []
    ensures Deduplicate(text, c) == Rebuild(KindOf(c), KeepFirst(text, [], children)).value
  {
    var flat := Collect(KindOf(c), c);
    assert children == seq(|flat|, i requires 0 <= i < |flat| => Deduplicate(text, flat[i]));
  }

  lemma SimplifyUnfold(text: Printer, c: Cond, children: seq<Simplified>)
    requires Connective(KindOf(c))
    requires var flat := Collect(KindOf(c), c);
             |children| == |flat| && forall k :: 0 <= k < |flat| ==> children[k] == Simplify(text, flat[k])
    ensures Simplify(text, c) == SimplifyOperands(text, KindOf(c), children)
  {
    var flat := Collect(KindOf(c), c);
    assert children == seq(|flat|, i requires 0 <= i < |flat| => Simplify(text, flat[i]));
  }

  method FlattenTree(c: Cond) returns (r: Cond)
    ensures r == Flatten(c)
    decreases Size(c)
  {
    if c.And? || c.Or? {
      var kind := KindOf(c);
      var flat := CollectSameOp(kind, c, []);
      var children := [];
      for i := 0 to |flat|
        invariant |children| == i && forall k :: 0 <= k < i ==> children[k] == Flatten(flat[k])
      {
        var child := FlattenTree(flat[i]);
        children := children + [child];
      }
      var tree := RebuildTree(kind, children);
      FlattenUnfold(c, children);
      r := tree.value;
    } else if c.Not? {
      r := FlattenTree(c.child);
      r := Not(r);
    } else {
      r := c;
    }
  }

  method FoldList(column: Column, negated: bool, vs: seq<Value>) returns (r: Cond)
    ensures r == FoldIn(column, negated, vs)
  {
    var values := [];
    for i := 0 to |vs|
      invariant Distinct(values, vs[i..]) == Distinct([], vs)
    {
      assert vs[i..][1..] == vs[i + 1..];
      if vs[i] !in values {
        values := values + [vs[i]];
      }
    }
    if |values| == 1 && !values[0].Null? {
      return Compare(column, if negated then NE else EQ, values[0]);
    }
    return In(column, negated, values);
  }

  method IsDuplicate(text: Printer, children: seq<Cond>, rewritten: Cond) returns (duplicate: bool)
    ensures duplicate == Holds(text, children, rewritten)
  {
    for k := 0 to |children|
      invariant forall m :: 0 <= m < k ==> !SameNode(text, children[m], rewritten)
    {
      if SameNode(text, children[k], rewritten) {
        return true;
      }
    }
    return false;
  }

  method DeduplicateTree(text: Printer, c: Cond) returns (r: Cond)
    ensures r == Deduplicate(text, c)
    decreases Size(c)
  {
    if c.And? || c.Or? {
      var kind := KindOf(c);
      var flat := CollectSameOp(kind, c, []);
      var children := [];
      ghost var all: seq<Cond> := [];
      for i := 0 to |flat|
        invariant |all| == i && forall k :: 0 <= k < i ==> all[k] == Deduplicate(text, flat[k])
        invariant children == KeepFirst(text, [], all)
      {
        var rewritten := DeduplicateTree(text, flat[i]);
        var duplicate := IsDuplicate(text, children, rewritten);
        KeepFirstSnoc(text, [], all, rewritten);
        all := all + [rewritten];
        if !duplicate {
          children := children + [rewritten];
        }
      }
      DeduplicateUnfold(text, c, all);
      var tree := RebuildTree(kind, children);
      r := tree.value;
    } else if c.Not? {
      r := DeduplicateTree(text, c.child);
      r := Not(r);
    } else {
      r := c;
    }
  }

  lemma {:induction false} KeepFirstSnoc(text: Printer, kept: seq<Cond>, cs: seq<Cond>, x: Cond)
    ensures var before := KeepFirst(text, kept, cs);
            KeepFirst(text, kept, cs + [x]) == if Holds(text, before, x) then before else before + [x]
    decreases |cs|
  {
    if cs == [] {
      assert (cs + [x])[1..] == [];
    } else {
      assert (cs + [x])[1..] == cs[1..] + [x];
      KeepFirstSnoc(text, if Holds(text, kept, cs[0]) then kept else kept + [cs[0]], cs[1..], x);
    }
  }

  // Marks the operands that some sibling absorbs; `ok` is false when a null
  // operand would have been dereferenced.
  method MarkAbsorbed(text: Printer, kind: Kind, children: seq<Simplified>) returns (ok: bool, absorbed: seq<bool>)
    requires Connective(kind)
    ensures ok <==> forall i :: 0 <= i < |children| ==> children[i].Tree?
    ensures ok ==> |absorbed| == |children| &&
                   forall i :: 0 <= i < |children| ==>
                     absorbed[i] == Absorbed(text, kind, Trees(children), i)
  {
    absorbed := seq(|children|, _ => false);
    ghost var trees := seq(|children|, i requires 0 <= i < |children| =>
      if children[i].Tree? then children[i].c else Not(Compare(Column("", ""), UNKNOWN_OP, Null)));
    for i := 0 to |children|
      invariant |absorbed| == |children|
      invariant forall k :: 0 <= k < i ==> children[k].Tree?
      invariant forall k :: 0 <= k < i ==> (forall m :: 0 <= m < |children| ==> children[m].Tree?) ==>
                  absorbed[k] == Absorbed(text, kind, trees, k)
      invariant forall k :: i <= k < |children| ==> !absorbed[k]
    {
      if !children[i].Tree? {
        ok := false;
        return;
      }
      if KindOf(children[i].c) == Dual(kind) {
        for j := 0 to |children|
          invariant |absorbed| == |children| && children[i].Tree?
          invariant forall k :: 0 <= k < j && k != i ==>
                      children[k].Tree? && !AbsorbedBy(text, trees, i, k)
          invariant forall k :: 0 <= k < i ==> (forall m :: 0 <= m < |children| ==> children[m].Tree?) ==>
                      absorbed[k] == Absorbed(text, kind, trees, k)
          invariant forall k :: i <= k < |children| ==> !absorbed[k]
        {
          if i == j {
            continue;
          }
          if !children[j].Tree? {
            ok := false;
            return;
          }
          if TreeContains(text, children[i].c, children[j].c) {
            assert AbsorbedBy(text, trees, i, j);
            absorbed := absorbed[i := true];
            break;
          }
        }
      }
    }
    ok := true;
    assert trees == Trees(children);
  }

  method KeepUnabsorbed(text: Printer, kind: Kind, children: seq<Simplified>, absorbed: seq<bool>)
    returns (kept: seq<Cond>)
    requires Connective(kind) && |absorbed| == |children|
    requires forall i :: 0 <= i < |children| ==> children[i].Tree?
    requires forall i :: 0 <= i < |children| ==> absorbed[i] == Absorbed(text, kind, Trees(children), i)
    ensures kept == Unabsorbed(text, kind, Trees(children), 0)
  {
    hide Absorbed;
    ghost var trees := Trees(children);
    kept := [];
    for i := 0 to |children|
      invariant kept + Unabsorbed(text, kind, trees, i) == Unabsorbed(text, kind, trees, 0)
    {
      assert trees[i] == children[i].c;
      if !absorbed[i] {
        ghost var rest := Unabsorbed(text, kind, trees, i + 1);
        assert kept + ([children[i].c] + rest) == (kept + [children[i].c]) + rest;
        kept := kept + [children[i].c];
      }
    }
    assert kept + [] == kept;
  }

  method FormGroup(kept: seq<Cond>, consumed: set<nat>, i: nat) returns (values: seq<Value>, group: seq<nat>)
    requires i < |kept| && Equality(kept[i])
    ensures group == [i] + Group(kept, consumed, kept[i], i + 1)
    ensures IsGroup(kept, group) && values == ValuesOf(kept, group)
  {
    values := [kept[i].value];
    group := [i];
    for j := i + 1 to |kept|
      invariant group + Group(kept, consumed, kept[i], j) == [i] + Group(kept, consumed, kept[i], i + 1)
      invariant IsGroup(kept, group) && values == ValuesOf(kept, group)
    {
      if Joins(kept, consumed, kept[i], j) {
        values := values + [kept[j].value];
        group := group + [j];
      }
    }
  }

  method KeepUnconsumed(kept: seq<Cond>, consumed: set<nat>, heads: seq<Cond>) returns (merged: seq<Cond>)
    ensures merged == heads + Unconsumed(kept, consumed, 0)
  {
    merged := heads;
    for i := 0 to |kept|
      invariant merged + Unconsumed(kept, consumed, i) == heads + Unconsumed(kept, consumed, 0)
    {
      if i !in consumed {
        merged := merged + [kept[i]];
      }
    }
  }

  method MergeHeads(kept: seq<Cond>) returns (merged: seq<Cond>)
    ensures merged == MergeEqualities(kept)
  {
    hide Group, ValuesOf, Unconsumed;
    merged := [];
    var consumed: set<nat> := {};
    for i := 0 to |kept|
      invariant merged + MergeFrom(kept, consumed, i).0 == MergeFrom(kept, {}, 0).0
      invariant MergeFrom(kept, consumed, i).1 == MergeFrom(kept, {}, 0).1
    {
      if i in consumed || !Equality(kept[i]) {
        continue;
      }
      var values, group := FormGroup(kept, consumed, i);
      if |group| == 1 {
        continue;
      }
      ghost var rest := MergeFrom(kept, consumed + Members(group), i + 1).0;
      assert merged + ([In(kept[i].column, false, values)] + rest) ==
             (merged + [In(kept[i].column, false, values)]) + rest;
      consumed := consumed + Members(group);
      merged := merged + [In(kept[i].column, false, values)];
    }
    merged := KeepUnconsumed(kept, consumed, merged);
  }

  method SimplifyConnective(text: Printer, kind: Kind, c: Cond) returns (r: Simplified)
    requires Connective(kind) && KindOf(c) == kind
    ensures r == Simplify(text, c)
    decreases Size(c), 0
  {
    var flat := CollectSameOp(kind, c, []);
    var children := [];
    for i := 0 to |flat|
      invariant |children| == i && forall k :: 0 <= k < i ==> children[k] == Simplify(text, flat[k])
    {
      var child := SimplifyTree(text, flat[i]);
      children := children + [child];
    }
    SimplifyUnfold(text, c, children);
    r := AbsorbAndRebuild(text, kind, children);
  }

  method AbsorbAndRebuild(text: Printer, kind: Kind, children: seq<Simplified>) returns (r: Simplified)
    requires Connective(kind)
    ensures r == SimplifyOperands(text, kind, children)
  {
    var ok, absorbed := MarkAbsorbed(text, kind, children);
    if !ok {
      return Crash;
    }
    var kept := KeepUnabsorbed(text, kind, children, absorbed);
    if kind.KOr? {
      kept := MergeHeads(kept);
    }
    var tree := RebuildTree(kind, kept);
    r := if tree.Some? then Tree(tree.value) else Nothing;
  }

  method SimplifyTree(text: Printer, c: Cond) returns (r: Simplified)
    ensures r == Simplify(text, c)
    decreases Size(c)
  {
    if c.And? || c.Or? {
      r := SimplifyConnective(text, KindOf(c), c);
    } else if c.Not? {
      r := SimplifyTree(text, c.child);
      if r.Tree? {
        if r.c.Not? {
          r := Tree(r.c.child);
        } else if r.c.In? {
          r := Tree(In(r.c.column, !r.c.negated, r.c.values));
        } else {
          r := Tree(Not(r.c));
        }
      }
    } else {
      r := Tree(c);
    }
  }

}
