/**
 Which parts of a member's state the composite steps leave alone.
 */
module RaftFrames {
  import opened RaftTypes
  import opened RaftSpec

  // Applying moves the applied index and settles proposals and barriers.
  ghost predicate OnlyApplied(n: Node, n': Node) {
    && n' == n.(applied := n'.applied, pending := n'.pending, acknowledged := n'.acknowledged,
                barriers := n'.barriers, finished := n'.finished)
    && n.applied <= n'.applied
    && n.finished <= n'.finished
    && n.acknowledged <= n'.acknowledged
    && (n.barriers == [] ==> n'.barriers == [] && n'.finished == n.finished)
  }

  // Sending requests touches the outbox and the tables of known peers.
  ghost predicate OnlySent(n: Node, n': Node) {
    && n' == n.(next := n'.next, matched := n'.matched, sent := n'.sent)
    && n.sent <= n'.sent
    && (forall p :: p in n'.sent ==> p in n.sent || p.msg.AppendEntries?)
  }

  lemma {:induction false} ApplyCommittedFrame(n: Node, stop: nat)
    ensures OnlyApplied(n, ApplyCommitted(n, stop).0)
    decreases n.commit - n.applied
  {
    if n.applied >= n.commit || n.applied + 1 > |n.log| || n.applied + 1 > stop {
      assert Served(n, []) == {};
    } else {
      ApplyCommittedFrame(ApplyNext(n), stop);
    }
  }

  lemma {:induction false} SendFromFrame(n: Node, k: nat)
    ensures OnlySent(n, SendFrom(n, k))
    decreases |n.peers| - k
  {
    if k < |n.peers| {
      if n.peers[k] == n.id { SendFromFrame(n, k + 1); }
      else { SendFromFrame(SendAppend(n, n.peers[k]), k + 1); }
    }
  }

  lemma SendHeartbeatsFrame(n: Node)
    ensures OnlySent(n.(round := n.round + 1), SendHeartbeats(n))
  {
    SendFromFrame(n.(round := n.round + 1), 0);
  }

  // What a leader's commit attempt keeps.
  ghost predicate OnlyCommitted(n: Node, n': Node) {
    && n' == n.(commit := n'.commit, applied := n'.applied, pending := n'.pending,
                acknowledged := n'.acknowledged, barriers := n'.barriers, finished := n'.finished,
                next := n'.next, matched := n'.matched, round := n'.round, sent := n'.sent)
    && n.commit <= n'.commit && n.applied <= n'.applied && n.round <= n'.round
    && n.finished <= n'.finished && n.acknowledged <= n'.acknowledged && n.sent <= n'.sent
    && (forall p :: p in n'.sent ==> p in n.sent || p.msg.AppendEntries?)
  }

  lemma AdvanceCommitFrame(n: Node, stop: nat)
    ensures OnlyCommitted(n, AdvanceCommit(n, stop).0)
  {
    hide ApplyCommitted, SendHeartbeats;
    var q := QuorumMatch(n);
    if !(q <= n.commit || q > |n.log| || n.log[q - 1].term != n.term) {
      ApplyCommittedFrame(n.(commit := q), stop);
      SendHeartbeatsFrame(ApplyCommitted(n.(commit := q), stop).0);
    }
  }

  lemma {:induction false} RequestVotesFrame(n: Node, k: nat)
    ensures RequestVotesFrom(n, k) == n.(sent := RequestVotesFrom(n, k).sent)
    ensures n.sent <= RequestVotesFrom(n, k).sent
    ensures forall p :: p in RequestVotesFrom(n, k).sent ==> p in n.sent || p.msg.RequestVote?
    decreases |n.peers| - k
  {
    if k < |n.peers| {
      if n.peers[k] == n.id { RequestVotesFrame(n, k + 1); }
      else {
        RequestVotesFrame(Send(n, n.peers[k], RequestVote(n.term, n.id, |n.log|, LastTerm(n.log))), k + 1);
      }
    }
  }

  lemma {:induction false} AppendBatchFrame(n: Node, prev: nat, t: nat, entries: Log, k: nat, w: nat)
    requires k <= |entries|
    ensures var n' := AppendBatch(n, prev, t, entries, k, w).0;
            n' == n.(log := n'.log, pending := n'.pending)
    decreases |entries| - k
  {
    if k < |entries| {
      var e, i := entries[k], prev + k + 1;
      if e.index != i || e.term != t {
      } else if i <= |n.log| && n.log[i - 1].term == e.term {
        AppendBatchFrame(n, prev, t, entries, k + 1, w);
      } else if !(i <= |n.log| && w == 0) {
        var n1 := if i <= |n.log| then DropPending(n.(log := n.log[..i - 1]), i) else n;
        var w1 := if i <= |n.log| then w - 1 else w;
        if w1 > 0 && |n1.log| + 1 == i {
          AppendBatchFrame(n1.(log := n1.log + [e]), prev, t, entries, k + 1, w1 - 1);
        }
      }
    }
  }
}
