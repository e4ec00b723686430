/**
 Exactly when absorption is right. As long as the leaves that go can be chosen
 independently of what stays, dropping the absorbed operands keeps the meaning
 of a node if and only if they follow from the operands that stay.
 */
module RewriterExact {
  import opened Wrappers
  import opened SqlValues
  import opened Conditions
  import opened Rewriter
  import opened RewriterMeaning

  // The value that leaves the connective's result to the other operands, and
  // the one that settles it.
  function Neutral(kind: Kind): Truth
    requires Connective(kind)
  {
    if kind.KAnd? then True else False
  }

  function Decisive(kind: Kind): Truth
    requires Connective(kind)
  {
    if kind.KAnd? then False else True
  }

  // Every leaf of `c` that is not part of something in `kept` is decisive. No
  // negation is left above the leaves once NOT has been pushed down.
  predicate Separated(t: Reader, row: Row, text: Printer, kind: Kind, kept: seq<Cond>, c: Cond)
    requires Connective(kind)
  {
    Holds(text, kept, c) ||
    match c
    case And(l, r) => Separated(t, row, text, kind, kept, l) && Separated(t, row, text, kind, kept, r)
    case Or(l, r) => Separated(t, row, text, kind, kept, l) && Separated(t, row, text, kind, kept, r)
    case Not(_) => false
    case _ => Eval(t, row, c) == Decisive(kind)
  }

  // A row on which what stays is neutral and the other leaves are decisive.
  predicate Telling(t: Reader, row: Row, text: Printer, kind: Kind, children: seq<Cond>)
    requires Connective(kind)
  {
    var kept := Unabsorbed(text, kind, children, 0);
    && (forall k :: 0 <= k < |kept| ==> Eval(t, row, kept[k]) == Neutral(kind))
    && (forall i :: 0 <= i < |children| && Absorbed(text, kind, children, i) ==>
          Separated(t, row, text, kind, kept, children[i]))
  }

  ghost predicate Independent(text: Printer, kind: Kind, children: seq<Cond>)
    requires Connective(kind)
  {
    exists t: Reader, row: Row :: Telling(t, row, text, kind, children)
  }

  // On such a row a tree has the neutral value just when it is implied.
  lemma {:induction false} SeparatedValue(t: Reader, row: Row, text: Printer, kind: Kind, kept: seq<Cond>, c: Cond)
    requires Faithful(text) && Connective(kind) && Separated(t, row, text, kind, kept, c)
    requires forall k :: 0 <= k < |kept| ==> Eval(t, row, kept[k]) == Neutral(kind)
    ensures Eval(t, row, c) == if Implied(text, kind, kept, c) then Neutral(kind) else Decisive(kind)
  {
    if Holds(text, kept, c) {
      var k :| 0 <= k < |kept| && SameNode(text, kept[k], c);
      assert SameMeaning(kept[k], c);
    } else {
      match c {
        case And(l, r) =>
          SeparatedValue(t, row, text, kind, kept, l);
          SeparatedValue(t, row, text, kind, kept, r);
        case Or(l, r) =>
          SeparatedValue(t, row, text, kind, kept, l);
          SeparatedValue(t, row, text, kind, kept, r);
        case _ =>
      }
    }
  }

  lemma {:induction false} NeutralList(t: Reader, row: Row, kind: Kind, cs: seq<Cond>)
    requires Connective(kind) && forall k :: 0 <= k < |cs| ==> Eval(t, row, cs[k]) == Neutral(kind)
    ensures OfList(t, row, kind, cs) == Neutral(kind)
  {
    if cs != [] {
      NeutralList(t, row, kind, cs[1..]);
    }
  }

  lemma DecisiveList(t: Reader, row: Row, kind: Kind, cs: seq<Cond>, i: nat)
    requires Connective(kind) && i < |cs| && Eval(t, row, cs[i]) == Decisive(kind)
    ensures OfList(t, row, kind, cs) == Decisive(kind)
  {
    AllOfBound(t, row, cs, i);
    AnyOfBound(t, row, cs, i);
  }

  // An operand that does not follow shows on the telling row.
  lemma NotImpliedShows(t: Reader, row: Row, text: Printer, kind: Kind, children: seq<Cond>, i: nat)
    requires Faithful(text) && Connective(kind) && i < |children| && Telling(t, row, text, kind, children)
    requires Absorbed(text, kind, children, i)
    requires !Implied(text, kind, Unabsorbed(text, kind, children, 0), children[i])
    ensures OfList(t, row, kind, Unabsorbed(text, kind, children, 0)) != OfList(t, row, kind, children)
  {
    hide Absorbed, OfList, Eval, Implied;
    var kept := Unabsorbed(text, kind, children, 0);
    SeparatedValue(t, row, text, kind, kept, children[i]);
    NeutralList(t, row, kind, kept);
    DecisiveList(t, row, kind, children, i);
  }

  ghost predicate SameLists(kind: Kind, a: seq<Cond>, b: seq<Cond>) {
    forall t: Reader, row: Row :: OfList(t, row, kind, a) == OfList(t, row, kind, b)
  }

  /** Dropping the absorbed operands keeps the value on every row iff they are implied. */
  lemma AbsorptionExact(text: Printer, kind: Kind, children: seq<Cond>)
    requires Faithful(text) && Connective(kind) && Independent(text, kind, children)
    ensures SameLists(kind, Unabsorbed(text, kind, children, 0), children) <==> JustAbsorption(text, kind, children)
  {
    hide Absorbed, OfList, Eval, Implied, Faithful, Telling;
    var kept := Unabsorbed(text, kind, children, 0);
    if JustAbsorption(text, kind, children) {
      forall t: Reader, row: Row
        ensures OfList(t, row, kind, kept) == OfList(t, row, kind, children)
      {
        AbsorptionMeaning(t, row, text, kind, children);
      }
    } else {
      var i :| 0 <= i < |children| && Absorbed(text, kind, children, i) && !Implied(text, kind, kept, children[i]);
      var t: Reader, row: Row :| Telling(t, row, text, kind, children);
      NotImpliedShows(t, row, text, kind, children, i);
    }
  }

  // ------------------------------------------------------------ whole nodes

  function Parts(text: Printer, c: Cond): seq<Simplified>
    requires Connective(KindOf(c))
  {
    var flat := Collect(KindOf(c), c);
    seq(|flat|, i requires 0 <= i < |flat| => Simplify(text, flat[i]))
  }

  predicate OperandsClean(text: Printer, c: Cond)
    requires Connective(KindOf(c))
  {
    var flat := Collect(KindOf(c), c);
    forall i :: 0 <= i < |flat| ==> Clean(text, flat[i])
  }

  ghost predicate LeavesIndependent(text: Printer, c: Cond)
    requires Connective(KindOf(c))
  {
    var parts := Parts(text, c);
    (forall i :: 0 <= i < |parts| ==> parts[i].Tree?) ==> Independent(text, KindOf(c), Trees(parts))
  }

  lemma IndependentBy(t: Reader, row: Row, text: Printer, c: Cond, children: seq<Cond>)
    requires Connective(KindOf(c)) && (forall i :: 0 <= i < |Parts(text, c)| ==> Parts(text, c)[i].Tree?)
    requires Trees(Parts(text, c)) == children && Telling(t, row, text, KindOf(c), children)
    ensures LeavesIndependent(text, c)
  {
    hide Parts, Telling, Trees;
  }

  lemma SimplifyLevel(text: Printer, c: Cond)
    requires Connective(KindOf(c))
    ensures Simplify(text, c) == SimplifyOperands(text, KindOf(c), Parts(text, c))
  {
    hide SimplifyOperands;
  }

  lemma CleanLevel(text: Printer, c: Cond)
    requires Connective(KindOf(c)) && OperandsClean(text, c)
    ensures Clean(text, c) <==> CleanOperands(text, KindOf(c), Parts(text, c))
  {
    hide Simplify, CleanOperands;
  }

  lemma CleanFrom(text: Printer, c: Cond, children: seq<Cond>)
    requires Connective(KindOf(c)) && OperandsClean(text, c)
    requires (forall i :: 0 <= i < |Parts(text, c)| ==> Parts(text, c)[i].Tree?) && Trees(Parts(text, c)) == children
    requires JustAbsorption(text, KindOf(c), children)
    ensures Clean(text, c)
  {
    hide Clean, Parts, OperandsClean, JustAbsorption;
    CleanLevel(text, c);
  }

  lemma CleanParts(text: Printer, c: Cond)
    requires Faithful(text) && Connective(KindOf(c)) && OperandsClean(text, c)
    ensures forall i :: 0 <= i < |Parts(text, c)| ==> Parts(text, c)[i].Tree?
    ensures Parts(text, c) != []
    ensures Clean(text, c) <==> JustAbsorption(text, KindOf(c), Trees(Parts(text, c)))
    ensures Simplify(text, c) == SimplifyOperands(text, KindOf(c), Parts(text, c))
  {
    CleanLevel(text, c);
    SimplifyLevel(text, c);
    hide Simplify, SimplifyOperands, Clean;
    var flat := Collect(KindOf(c), c);
    var t := Reader(_ => None, _ => None, _ => None, _ => None, (_, _) => false);
    forall i | 0 <= i < |flat|
      ensures Parts(text, c)[i].Tree?
    {
      SimplifyMeaning(t, map[], text, flat[i]);
    }
  }

  // The operands as they come back mean what the node means.
  lemma PartsMeaning(t: Reader, row: Row, text: Printer, c: Cond)
    requires Faithful(text) && Connective(KindOf(c)) && OperandsClean(text, c)
    requires forall i :: 0 <= i < |Parts(text, c)| ==> Parts(text, c)[i].Tree?
    ensures OfList(t, row, KindOf(c), Trees(Parts(text, c))) == Eval(t, row, c)
  {
    hide Eval, Simplify, Clean;
    var flat := Collect(KindOf(c), c);
    forall i | 0 <= i < |flat|
      ensures Eval(t, row, Trees(Parts(text, c))[i]) == Eval(t, row, flat[i])
    {
      SimplifyMeaning(t, row, text, flat[i]);
    }
    OfListPointwise(t, row, KindOf(c), Trees(Parts(text, c)), flat);
    CollectMeaning(t, row, KindOf(c), c);
  }

  // What simplification rebuilds means what stayed.
  lemma RebuiltMeaning(t: Reader, row: Row, text: Printer, kind: Kind, parts: seq<Simplified>)
    requires Connective(kind) && (forall i :: 0 <= i < |parts| ==> parts[i].Tree?)
    requires SimplifyOperands(text, kind, parts).Tree?
    ensures Eval(t, row, SimplifyOperands(text, kind, parts).c) ==
            OfList(t, row, kind, Unabsorbed(text, kind, Trees(parts), 0))
  {
    hide Eval, Unabsorbed;
    var kept := Unabsorbed(text, kind, Trees(parts), 0);
    MergeMeaning(t, row, kept);
    RebuildMeaning(t, row, kind, if kind.KAnd? then kept else MergeEqualities(kept));
  }

  /**
   A node whose operands are clean and whose leaves are independent keeps its
   meaning if and only if it is clean itself.
   */
  lemma SimplifyExact(text: Printer, c: Cond)
    requires Faithful(text) && Connective(KindOf(c)) && OperandsClean(text, c)
    requires LeavesIndependent(text, c)
    ensures Simplify(text, c).Tree? && SameMeaning(Simplify(text, c).c, c) <==> Clean(text, c)
  {
    hide Eval, Simplify, Faithful, Independent, JustAbsorption, OperandsClean, Parts, SimplifyOperands, Clean;
    CleanParts(text, c);
    var parts, kind := Parts(text, c), KindOf(c);
    AbsorptionExact(text, kind, Trees(parts));
    if Clean(text, c) {
      forall t: Reader, row: Row
        ensures Simplify(text, c).Tree? && Eval(t, row, Simplify(text, c).c) == Eval(t, row, c)
      {
        SimplifyMeaning(t, row, text, c);
      }
      var t := Reader(_ => None, _ => None, _ => None, _ => None, (_, _) => false);
      assert Eval(t, map[], c) == Eval(t, map[], c);
    } else if Simplify(text, c).Tree? {
      var t: Reader, row: Row :| OfList(t, row, kind, Unabsorbed(text, kind, Trees(parts), 0)) !=
                                 OfList(t, row, kind, Trees(parts));
      PartsMeaning(t, row, text, c);
      RebuiltMeaning(t, row, text, kind, parts);
    }
  }
}
