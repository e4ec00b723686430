/**
 A leader moves a follower's match index forward as soon as it has sent it a
 snapshot, before any answer. This never lets an unacknowledged index commit:
 the jump goes no further than the applied index, which is already committed.
 */
module SnapshotProgress {
  import opened RaftTypes
  import opened RaftSpec
  import Q = RaftQuorum

  // One leader's bookkeeping. `acked` is what the peers really confirmed (its
  // own log counts as confirmed by itself) and is read by no operation.
  datatype Leader = Leader(
    self: NodeId, peers: seq<NodeId>, matched: map<NodeId, nat>, next: map<NodeId, nat>,
    lastLog: nat, commit: nat, applied: nat, boundary: nat, acked: map<NodeId, nat>)

  datatype Step =
    | Append
    | Acknowledge(from: NodeId, index: nat)
    | SendSnapshot(to: NodeId)
    | AdvanceCommit(termMatches: bool)
    | ApplyNext
    | Compact

  function Raised(m: map<NodeId, nat>, p: NodeId, to: nat): map<NodeId, nat> {
    m[p := Max(Get(m, p), to)]
  }

  function Take(l: Leader, s: Step): Leader {
    match s
    case Append =>
      l.(lastLog := l.lastLog + 1, matched := l.matched[l.self := l.lastLog + 1],
         next := l.next[l.self := l.lastLog + 2], acked := l.acked[l.self := l.lastLog + 1])
    case Acknowledge(from, index) =>
      var matched := Raised(l.matched, from, index);
      l.(matched := matched, next := Raised(l.next, from, Get(matched, from) + 1), acked := Raised(l.acked, from, index))
    case SendSnapshot(to) =>
      if l.boundary == 0 then l
      else l.(next := l.next[to := l.applied + 1], matched := Raised(l.matched, to, l.applied))
    case AdvanceCommit(termMatches) =>
      var candidate := QuorumIndex(l.peers, l.matched);
      if candidate <= l.commit || candidate > l.lastLog || !termMatches then l else l.(commit := candidate)
    case ApplyNext => if l.applied < l.commit then l.(applied := l.applied + 1) else l
    case Compact => if l.applied > l.boundary then l.(boundary := l.applied) else l
  }

  function Play(l: Leader, steps: seq<Step>): Leader {
    if steps == [] then l else Take(Play(l, steps[..|steps| - 1]), steps[|steps| - 1])
  }

  // At the start of a reign nothing counts as matched that was not confirmed.
  ghost predicate Starts(l: Leader) {
    && Q.Unique(l.peers) && |l.peers| > 0
    && (forall p :: p in l.peers ==> Get(l.matched, p) == Get(l.acked, p))
    && Get(l.acked, l.self) <= l.lastLog
    && l.boundary <= l.applied <= l.commit <= l.lastLog
  }

  // A match index that was not confirmed is covered by the commit index.
  ghost predicate Backed(l: Leader) {
    && Q.Unique(l.peers) && |l.peers| > 0
    && (forall p :: p in l.peers ==> Get(l.matched, p) <= Max(Get(l.acked, p), l.commit))
    && Get(l.acked, l.self) <= l.lastLog
    && l.boundary <= l.applied <= l.commit <= l.lastLog
  }

  // The leader never sends itself acknowledgements.
  predicate Possible(l: Leader, s: Step) {
    s.Acknowledge? ==> s.from != l.self
  }

  lemma StepStaysBacked(l: Leader, s: Step)
    requires Backed(l) && Possible(l, s)
    ensures Backed(Take(l, s))
  {
    hide QuorumIndex;
  }

  ghost predicate IsRun(l: Leader, steps: seq<Step>) {
    forall i :: 0 <= i < |steps| ==> Possible(Play(l, steps[..i]), steps[i])
  }

  lemma {:induction false} RunStaysBacked(l: Leader, steps: seq<Step>, n: nat)
    requires Starts(l) && IsRun(l, steps) && n <= |steps|
    ensures Backed(Play(l, steps[..n]))
  {
    if n > 0 {
      hide Take, Possible;
      RunStaysBacked(l, steps, n - 1);
      assert steps[..n][..n - 1] == steps[..n - 1] && steps[..n][n - 1] == steps[n - 1];
      StepStaysBacked(Play(l, steps[..n - 1]), steps[n - 1]);
    }
  }

  // Above the commit index match and confirmation agree, so the quorum that
  // carries a new commit index really confirmed it.
  lemma NewCommitIsConfirmed(l: Leader, s: Step)
    requires Backed(l) && Take(l, s).commit > l.commit
    ensures |Q.Holders(l.peers, l.acked, Take(l, s).commit)| >= (|l.peers| - 1) / 2 + 1
  {
    hide QuorumIndex;
    var c := Take(l, s).commit;
    QuorumExact(l.peers, l.matched, c);
    assert Q.Holders(l.peers, l.matched, c) <= Q.Holders(l.peers, l.acked, c);
    Q.SubsetCount(Q.Holders(l.peers, l.matched, c), Q.Holders(l.peers, l.acked, c));
  }

  /**
   Along every leader run with snapshots on, each newly committed index is
   backed by a quorum of real acknowledgements.
   */
  lemma OptimismIsHarmless(l: Leader, steps: seq<Step>, n: nat)
    requires Starts(l) && IsRun(l, steps) && n < |steps|
    requires Play(l, steps[..n + 1]).commit > Play(l, steps[..n]).commit
    ensures var before := Play(l, steps[..n]);
            |Q.Holders(before.peers, before.acked, Play(l, steps[..n + 1]).commit)| >= (|before.peers| - 1) / 2 + 1
  {
    hide Take, Possible;
    RunStaysBacked(l, steps, n);
    assert steps[..n + 1][..n] == steps[..n] && steps[..n + 1][n] == steps[n];
    NewCommitIsConfirmed(Play(l, steps[..n]), steps[n]);
  }

  // ------------------------------------------------------------- the exact moves

  /** Sending a snapshot counts the peer as holding what is applied, and nothing else changes. */
  lemma SendingMoves(l: Leader, to: NodeId)
    ensures var l' := Take(l, SendSnapshot(to));
            && l' == l.(matched := l'.matched, next := l'.next)
            && (l.boundary == 0 ==> l' == l)
            && (l.boundary > 0 ==>
                  && Get(l'.matched, to) == Max(Get(l.matched, to), l.applied) && Get(l'.next, to) == l.applied + 1
                  && forall p :: p != to ==> Get(l'.matched, p) == Get(l.matched, p) && Get(l'.next, p) == Get(l.next, p))
  {
  }

  /** The commit index goes to the largest index a quorum is taken to hold, if it is new and of this term. */
  lemma CommitMoves(l: Leader, termMatches: bool, x: nat)
    requires Q.Unique(l.peers) && |l.peers| > 0
    requires |Q.Holders(l.peers, l.matched, x)| >= (|l.peers| - 1) / 2 + 1
    requires |Q.Holders(l.peers, l.matched, x + 1)| < (|l.peers| - 1) / 2 + 1
    ensures Take(l, AdvanceCommit(termMatches)) ==
            if termMatches && l.commit < x <= l.lastLog then l.(commit := x) else l
  {
    hide QuorumIndex;
    QuorumExact(l.peers, l.matched, x);
    QuorumExact(l.peers, l.matched, x + 1);
  }

  lemma QuorumExact(peers: seq<NodeId>, matched: map<NodeId, nat>, x: nat)
    requires Q.Unique(peers) && |peers| > 0
    ensures QuorumIndex(peers, matched) >= x <==> |Q.Holders(peers, matched, x)| >= (|peers| - 1) / 2 + 1
  {
    Q.KthLargestCount(Matches(peers, matched), (|peers| - 1) / 2, x);
    Q.CountIsHolders(peers, matched, x);
  }

  /** An acknowledgement raises match, next and confirmation of its sender alone. */
  lemma AcknowledgingMoves(l: Leader, from: NodeId, index: nat)
    ensures var l' := Take(l, Acknowledge(from, index));
            && l' == l.(matched := l'.matched, next := l'.next, acked := l'.acked)
            && Get(l'.matched, from) == Max(Get(l.matched, from), index) && Get(l'.acked, from) == Max(Get(l.acked, from), index)
            && Get(l'.next, from) == Max(Get(l.next, from), Get(l'.matched, from) + 1)
            && forall p :: p != from ==> Get(l'.matched, p) == Get(l.matched, p) && Get(l'.next, p) == Get(l.next, p)
                                         && Get(l'.acked, p) == Get(l.acked, p)
  {
  }
}
