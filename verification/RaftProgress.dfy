/**
 What no step except a restart ever takes back: terms, commit and applied
 indices only rise, and packets once sent stay sent. Nothing but an append
 request removes log entries.
 */
module RaftProgress {
  import opened Wrappers
  import opened RaftTypes
  import opened RaftSpec
  import opened RaftFrames

  ghost predicate Acceptance(m: Message) {
    m.AppendReply? && m.success
  }

  ghost predicate Onward(n: Node, n': Node) {
    && n'.id == n.id && n'.peers == n.peers
    && n.term <= n'.term && n.commit <= n'.commit && n.applied <= n'.applied
    && n.sent <= n'.sent && n.log <= n'.log
    && (forall p :: p in n'.sent ==> p in n.sent || !Acceptance(p.msg))
  }

  lemma OnwardTransitive(a: Node, b: Node, c: Node)
    requires Onward(a, b) && Onward(b, c)
    ensures Onward(a, c)
  {
  }

  // Roles, votes, tables and barriers are free to change.
  lemma BookOnward(n: Node, n': Node)
    requires n' == n.(term := n'.term, votedFor := n'.votedFor, role := n'.role, leader := n'.leader, votes := n'.votes,
                      next := n'.next, matched := n'.matched, acked := n'.acked, pending := n'.pending,
                      barriers := n'.barriers, finished := n'.finished)
    requires n.term <= n'.term
    ensures Onward(n, n')
  {
  }

  lemma StepDownOnward(n: Node, t: nat, v: Option<NodeId>, leader: Option<NodeId>)
    ensures t >= n.term ==> Onward(n, StepDown(n.(term := t, votedFor := v), leader))
  {
    hide Onward;
    if t >= n.term { BookOnward(n, StepDown(n.(term := t, votedFor := v), leader)); }
  }

  lemma BecomeFollowerOnward(n: Node, t: nat, leader: Option<NodeId>, w: nat)
    ensures Onward(n, BecomeFollower(n, t, leader, w).0)
  {
    hide Onward, StepDown;
    BookOnward(n, n);
    StepDownOnward(n, t, None, leader);
    StepDownOnward(n, n.term, n.votedFor, leader);
    assert n == n.(term := n.term, votedFor := n.votedFor);
  }

  lemma SendAppendOnward(n: Node, to: NodeId)
    ensures Onward(n, SendAppend(n, to))
  {
  }

  lemma AdvanceCommitOnward(n: Node, stop: nat)
    ensures Onward(n, AdvanceCommit(n, stop).0)
  {
    hide AdvanceCommit;
    AdvanceCommitFrame(n, stop);
  }

  lemma HeartbeatsOnward(n: Node)
    ensures Onward(n, SendHeartbeats(n))
  {
    hide SendHeartbeats;
    SendHeartbeatsFrame(n);
  }

  lemma ApplyOnward(n: Node, stop: nat)
    ensures Onward(n, ApplyCommitted(n, stop).0)
  {
    hide ApplyCommitted;
    ApplyCommittedFrame(n, stop);
  }

  lemma BecomeLeaderOnward(n: Node, f: Faults)
    ensures Onward(n, BecomeLeader(n, f))
  {
    hide AdvanceCommit, SendHeartbeats;
    if n.role == Candidate && f.writes > 0 && n.term > 0 {
      HeartbeatsOnward(AppendOwn(Crown(n), ""));
      AdvanceCommitOnward(SendHeartbeats(AppendOwn(Crown(n), "")), f.stop);
    }
  }

  lemma StartElectionOnward(n: Node, f: Faults)
    ensures Onward(n, StartElection(n, f))
  {
    hide BecomeLeader, RequestVotesFrom;
    if f.writes > 0 {
      BecomeLeaderOnward(Campaign(n), Faults(f.writes - 1, f.stop));
      RequestVotesFrame(Campaign(n), 0);
    }
  }

  lemma ReplyOnward(n: Node, n1: Node, v: Option<NodeId>, to: NodeId, t: nat, granted: bool)
    requires Onward(n, n1)
    ensures Onward(n, Send(n1.(votedFor := v), to, VoteReply(t, granted)))
  {
  }

  lemma RequestVoteOnward(n: Node, from: NodeId, m: Message, f: Faults)
    requires m.RequestVote?
    ensures Onward(n, HandleRequestVote(n, from, m, f))
  {
    assert Onward(n, n);
    hide BecomeFollower, UpToDate, Onward;
    BecomeFollowerOnward(n, m.term, None, f.writes);
    var n1 := if m.term > n.term then BecomeFollower(n, m.term, None, f.writes).0 else n;
    ReplyOnward(n, n1, Some(m.candidate), from, n1.term, true);
    ReplyOnward(n, n1, n1.votedFor, from, n1.term, false);
  }

  lemma VoteReplyOnward(n: Node, from: NodeId, m: Message, f: Faults)
    requires m.VoteReply?
    ensures Onward(n, HandleVoteReply(n, from, m, f))
  {
    hide BecomeLeader;
    if n.role == Candidate { BecomeLeaderOnward(n.(votes := n.votes + {from}), f); }
  }

  lemma AppendReplyOnward(n: Node, from: NodeId, m: Message, f: Faults)
    requires m.AppendReply?
    ensures Onward(n, HandleAppendReply(n, from, m, f))
  {
    hide Onward, AdvanceCommit, EvaluateBarriers, SendAppend, BecomeFollower, Progress;
    BookOnward(n, n);
    if m.term > n.term {
      BecomeFollowerOnward(n, m.term, None, f.writes);
    } else if n.role == Leader && m.term == n.term {
      if m.success { AcknowledgedOnward(n, from, m, f.stop); }
      else {
        var x := Get(n.next, from);
        var n1 := n.(next := n.next[from := if x > 1 then x - 1 else x]);
        BookOnward(n, n1);
        SendAppendOnward(n1, from);
        OnwardTransitive(n, n1, SendAppend(n1, from));
      }
    }
  }

  lemma AcknowledgedOnward(n: Node, from: NodeId, m: Message, stop: nat)
    requires m.AppendReply?
    ensures var n1 := AdvanceCommit(Progress(n, from, m.matchIndex, m.round), stop).0;
            Onward(n, n1) && Onward(n, EvaluateBarriers(n1)) && Onward(n, SendAppend(EvaluateBarriers(n1), from))
  {
    hide Onward, AdvanceCommit, SendAppend, Waiting, Served;
    var n0 := Progress(n, from, m.matchIndex, m.round);
    BookOnward(n, n0);
    AdvanceCommitOnward(n0, stop);
    var n1 := AdvanceCommit(n0, stop).0;
    OnwardTransitive(n, n0, n1);
    BookOnward(n1, EvaluateBarriers(n1));
    OnwardTransitive(n, n1, EvaluateBarriers(n1));
    SendAppendOnward(EvaluateBarriers(n1), from);
    OnwardTransitive(n, EvaluateBarriers(n1), SendAppend(EvaluateBarriers(n1), from));
  }

  lemma TickOnward(n: Node, due: bool, f: Faults, stop: nat)
    ensures Onward(n, Tick(n, due, f, stop))
  {
    hide ApplyCommitted, SendHeartbeats, StartElection;
    var n1 := if !due then n else if n.role == Leader then SendHeartbeats(n) else StartElection(n, f);
    HeartbeatsOnward(n);
    StartElectionOnward(n, f);
    ApplyOnward(n1, stop);
  }

  lemma ProposeOnward(n: Node, data: string, f: Faults)
    ensures Onward(n, Propose(n, data, f).0)
  {
    hide AdvanceCommit, SendHeartbeats;
    var i := |n.log| + 1;
    var n1 := AppendOwn(n, data);
    var n2 := n1.(pending := n1.pending[i := Entry(i, n.term, data)]);
    AdvanceCommitOnward(n2, f.stop);
    HeartbeatsOnward(AdvanceCommit(n2, f.stop).0);
  }

  lemma ReadBarrierOnward(n: Node)
    ensures Onward(n, ReadBarrier(n).0)
  {
    hide SendHeartbeats, Ready;
    HeartbeatsOnward(n);
  }

  // Accepting a request moves forward too, as long as the batch leaves the
  // committed part of the log in place; it adds one acknowledgement at most.
  lemma AcceptOnward(n: Node, from: NodeId, m: Message, w: nat, stop: nat)
    requires m.AppendEntries? && n.term == m.term && n.role == Follower
    requires n.commit <= |AppendBatch(n, m.prevIndex, m.term, m.entries, 0, w).0.log|
    ensures var n' := Accept(n, from, m, w, stop);
            && n'.id == n.id && n'.peers == n.peers && n'.role == Follower
            && n.term == n'.term && n.commit <= n'.commit && n.applied <= n'.applied && n.sent <= n'.sent
            && (forall p :: p in n'.sent ==>
                  p in n.sent || (p.msg.AppendReply? && p.msg.term == m.term && p.msg.round == m.round))
            && n'.commit <= Max(n.commit, m.leaderCommit)
  {
    hide AppendBatch, ApplyCommitted;
    AppendBatchFrame(n, m.prevIndex, m.term, m.entries, 0, w);
    var n1 := AppendBatch(n, m.prevIndex, m.term, m.entries, 0, w).0;
    var n2 := if m.leaderCommit > n1.commit then n1.(commit := Min(m.leaderCommit, |n1.log|)) else n1;
    ApplyCommittedFrame(n2, stop);
  }
}
