/**
 The condition-tree rewriter: NOT push-down, flattening, IN folding,
 de-duplication and simplification (absorption, OR of equalities to IN).

 `text` is the printed form of a node; two nodes count as the same when their
 kinds and their texts agree.
 */
module Rewriter {
  import opened Wrappers
  import opened SqlValues
  import opened Conditions

  type Printer = Cond -> string

  predicate SameNode(text: Printer, a: Cond, b: Cond) {
    KindOf(a) == KindOf(b) && text(a) == text(b)
  }

  predicate Connective(kind: Kind) {
    kind.KAnd? || kind.KOr?
  }

  function Dual(kind: Kind): Kind
    requires Connective(kind)
  {
    if kind.KAnd? then KOr else KAnd
  }

  // -------------------------------------------------------------- structure

  /** The operands of a nest of one connective, left to right. */
  function Collect(kind: Kind, c: Cond): (r: seq<Cond>)
    requires Connective(kind)
    ensures r != []
    ensures forall i :: 0 <= i < |r| ==> KindOf(r[i]) != kind && Size(r[i]) <= Size(c)
    ensures KindOf(c) == kind ==> forall i :: 0 <= i < |r| ==> Size(r[i]) < Size(c)
  {
    match c
    case And(l, r) => if kind.KAnd? then Collect(kind, l) + Collect(kind, r) else [c]
    case Or(l, r) => if kind.KOr? then Collect(kind, l) + Collect(kind, r) else [c]
    case _ => [c]
  }

  function Joined(kind: Kind, a: Cond, b: Cond): Cond
    requires Connective(kind)
  {
    if kind.KAnd? then And(a, b) else Or(a, b)
  }

  function JoinOnto(kind: Kind, acc: Cond, cs: seq<Cond>): Cond
    requires Connective(kind)
    decreases |cs|
  {
    if cs == [] then acc else JoinOnto(kind, Joined(kind, acc, cs[0]), cs[1..])
  }

  /** Left-deep; an empty list gives no tree at all. */
  function Rebuild(kind: Kind, cs: seq<Cond>): Option<Cond>
    requires Connective(kind)
  {
    if cs == [] then None else Some(JoinOnto(kind, cs[0], cs[1..]))
  }

  predicate TreeContains(text: Printer, container: Cond, target: Cond) {
    SameNode(text, container, target) ||
    match container
    case And(l, r) => TreeContains(text, l, target) || TreeContains(text, r, target)
    case Or(l, r) => TreeContains(text, l, target) || TreeContains(text, r, target)
    case Not(x) => TreeContains(text, x, target)
    case _ => false
  }

  // ------------------------------------------------------------- the passes

  function Flip(op: CompareOp): CompareOp {
    match op
    case EQ => NE
    case NE => EQ
    case GT => LE
    case GE => LT
    case LT => GE
    case LE => GT
    case LIKE => NOT_LIKE
    case NOT_LIKE => LIKE
    case IS_NULL => IS_NOT_NULL
    case IS_NOT_NULL => IS_NULL
    case UNKNOWN_OP => UNKNOWN_OP
  }

  function PushNot(c: Cond, negated: bool): Cond {
    match c
    case Not(x) => PushNot(x, !negated)
    case And(l, r) =>
      if negated then Or(PushNot(l, true), PushNot(r, true))
      else And(PushNot(l, false), PushNot(r, false))
    case Or(l, r) =>
      if negated then And(PushNot(l, true), PushNot(r, true))
      else Or(PushNot(l, false), PushNot(r, false))
    case Compare(column, op, v) =>
      if !negated then c
      else if op.UNKNOWN_OP? then Not(c)
      else Compare(column, Flip(op), v)
    case In(column, isNot, vs) =>
      if negated then In(column, !isNot, vs) else c
  }

  function Flatten(c: Cond): Cond
    decreases Size(c)
  {
    match c
    case And(_, _) =>
      var flat := Collect(KAnd, c);
      Rebuild(KAnd, seq(|flat|, i requires 0 <= i < |flat| => Flatten(flat[i]))).value
    case Or(_, _) =>
      var flat := Collect(KOr, c);
      Rebuild(KOr, seq(|flat|, i requires 0 <= i < |flat| => Flatten(flat[i]))).value
    case Not(x) => Not(Flatten(x))
    case _ => c
  }

  // The values of `vs` that `kept` does not already hold, appended in order.
  function Distinct(kept: seq<Value>, vs: seq<Value>): seq<Value>
    decreases |vs|
  {
    if vs == [] then kept
    else Distinct(if vs[0] in kept then kept else kept + [vs[0]], vs[1..])
  }

  function FoldIn(column: Column, negated: bool, vs: seq<Value>): Cond {
    var values := Distinct([], vs);
    if |values| == 1 && !values[0].Null? then
      Compare(column, if negated then NE else EQ, values[0])
    else In(column, negated, values)
  }

  function FoldConstants(c: Cond): Cond {
    match c
    case And(l, r) => And(FoldConstants(l), FoldConstants(r))
    case Or(l, r) => Or(FoldConstants(l), FoldConstants(r))
    case Not(x) => Not(FoldConstants(x))
    case In(column, negated, vs) => FoldIn(column, negated, vs)
    case _ => c
  }

  predicate Holds(text: Printer, kept: seq<Cond>, c: Cond) {
    exists i :: 0 <= i < |kept| && SameNode(text, kept[i], c)
  }

  function KeepFirst(text: Printer, kept: seq<Cond>, cs: seq<Cond>): (r: seq<Cond>)
    ensures |kept| <= |r|
    ensures cs != [] ==> r != []
    decreases |cs|
  {
    if cs == [] then kept
    else KeepFirst(text, if Holds(text, kept, cs[0]) then kept else kept + [cs[0]], cs[1..])
  }

  function Deduplicate(text: Printer, c: Cond): Cond
    decreases Size(c)
  {
    match c
    case And(_, _) =>
      var flat := Collect(KAnd, c);
      var children := seq(|flat|, i requires 0 <= i < |flat| => Deduplicate(text, flat[i]));
      Rebuild(KAnd, KeepFirst(text, [], children)).value
    case Or(_, _) =>
      var flat := Collect(KOr, c);
      var children := seq(|flat|, i requires 0 <= i < |flat| => Deduplicate(text, flat[i]));
      Rebuild(KOr, KeepFirst(text, [], children)).value
    case Not(x) => Not(Deduplicate(text, x))
    case _ => c
  }

  // What simplification leaves behind: a tree, no tree (every operand was
  // absorbed), or a null operand that its parent goes on to dereference.
  datatype Simplified = Tree(c: Cond) | Nothing | Crash

  predicate AbsorbedBy(text: Printer, children: seq<Cond>, i: nat, j: nat)
    requires i < |children| && j < |children|
  {
    i != j && TreeContains(text, children[i], children[j])
  }

  predicate Absorbed(text: Printer, kind: Kind, children: seq<Cond>, i: nat)
    requires Connective(kind) && i < |children|
  {
    KindOf(children[i]) == Dual(kind) &&
    exists j: nat :: j < |children| && AbsorbedBy(text, children, i, j)
  }

  // Operands number `from` and later that no sibling absorbs.
  function Unabsorbed(text: Printer, kind: Kind, children: seq<Cond>, from: nat): seq<Cond>
    requires Connective(kind) && from <= |children|
    decreases |children| - from
  {
    if from == |children| then []
    else if Absorbed(text, kind, children, from) then Unabsorbed(text, kind, children, from + 1)
    else [children[from]] + Unabsorbed(text, kind, children, from + 1)
  }

  predicate Equality(c: Cond) {
    c.Compare? && c.op.EQ?
  }

  // Members of head's group from position `j` on: unconsumed equalities on the
  // same column.
  predicate Joins(kept: seq<Cond>, consumed: set<nat>, head: Cond, j: nat)
    requires head.Compare? && j < |kept|
  {
    j !in consumed && Equality(kept[j]) && kept[j].column.name == head.column.name
  }

  function Group(kept: seq<Cond>, consumed: set<nat>, head: Cond, j: nat): (r: seq<nat>)
    requires head.Compare? && j <= |kept|
    ensures forall k :: 0 <= k < |r| ==> j <= r[k] < |kept| && Joins(kept, consumed, head, r[k])
    decreases |kept| - j
  {
    if j == |kept| then []
    else if Joins(kept, consumed, head, j) then [j] + Group(kept, consumed, head, j + 1)
    else Group(kept, consumed, head, j + 1)
  }

  predicate IsGroup(kept: seq<Cond>, group: seq<nat>) {
    forall k :: 0 <= k < |group| ==> group[k] < |kept| && kept[group[k]].Compare?
  }

  function ValuesOf(kept: seq<Cond>, group: seq<nat>): seq<Value>
    requires IsGroup(kept, group)
  {
    seq(|group|, k requires 0 <= k < |group| => kept[group[k]].value)
  }

  function Members(group: seq<nat>): set<nat> {
    set x | x in group
  }

  // The IN lists formed from heads `i` and later, with everything consumed.
  function MergeFrom(kept: seq<Cond>, consumed: set<nat>, i: nat): (r: (seq<Cond>, set<nat>))
    requires i <= |kept|
    decreases |kept| - i
  {
    if i == |kept| then ([], consumed)
    else if i in consumed || !Equality(kept[i]) then MergeFrom(kept, consumed, i + 1)
    else
      var group := [i] + Group(kept, consumed, kept[i], i + 1);
      if |group| == 1 then MergeFrom(kept, consumed, i + 1)
      else
        var rest := MergeFrom(kept, consumed + Members(group), i + 1);
        ([In(kept[i].column, false, ValuesOf(kept, group))] + rest.0, rest.1)
  }

  function Unconsumed(kept: seq<Cond>, consumed: set<nat>, from: nat): seq<Cond>
    requires from <= |kept|
    decreases |kept| - from
  {
    if from == |kept| then []
    else if from in consumed then Unconsumed(kept, consumed, from + 1)
    else [kept[from]] + Unconsumed(kept, consumed, from + 1)
  }

  function MergeEqualities(kept: seq<Cond>): seq<Cond> {
    var r := MergeFrom(kept, {}, 0);
    r.0 + Unconsumed(kept, r.1, 0)
  }

  function Outcome(tree: Option<Cond>): Simplified {
    if tree.Some? then Tree(tree.value) else Nothing
  }

  function Trees(parts: seq<Simplified>): seq<Cond>
    requires forall i :: 0 <= i < |parts| ==> parts[i].Tree?
  {
    seq(|parts|, i requires 0 <= i < |parts| => parts[i].c)
  }

  function SimplifyOperands(text: Printer, kind: Kind, parts: seq<Simplified>): Simplified
    requires Connective(kind)
  {
    if exists i :: 0 <= i < |parts| && !parts[i].Tree? then Crash
    else
      var kept := Unabsorbed(text, kind, Trees(parts), 0);
      Outcome(Rebuild(kind, if kind.KAnd? then kept else MergeEqualities(kept)))
  }

  function SimplifyNot(child: Simplified): Simplified {
    match child
    case Tree(Not(x)) => Tree(x)
    case Tree(In(column, negated, vs)) => Tree(In(column, !negated, vs))
    case Tree(c) => Tree(Not(c))
    case other => other
  }

  function Simplify(text: Printer, c: Cond): Simplified
    decreases Size(c)
  {
    match c
    case And(_, _) =>
      var flat := Collect(KAnd, c);
      SimplifyOperands(text, KAnd, seq(|flat|, i requires 0 <= i < |flat| => Simplify(text, flat[i])))
    case Or(_, _) =>
      var flat := Collect(KOr, c);
      SimplifyOperands(text, KOr, seq(|flat|, i requires 0 <= i < |flat| => Simplify(text, flat[i])))
    case Not(x) => SimplifyNot(Simplify(text, x))
    case _ => Tree(c)
  }

  /** The four passes that precede simplification. */
  function Prepare(text: Printer, c: Cond): Cond {
    Deduplicate(text, FoldConstants(Flatten(PushNot(c, false))))
  }

  function Rewrite(text: Printer, c: Cond): Simplified {
    Simplify(text, Prepare(text, c))
  }

}
