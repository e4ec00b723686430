/**
 Linearizable reads: when a read barrier succeeds, the leader has applied every
 entry that any member had committed when the read was requested.
 */
module RaftReads {
  import opened Wrappers
  import opened RaftTypes
  import opened RaftSpec
  import opened RaftFrames
  import opened RaftProgress
  import opened RaftQuorum
  import opened RaftHistory
  import opened RaftInvariant
  import opened RaftCluster
  import opened RaftSafety
  import opened RaftReadLocal

  ghost predicate Steady(o: Option<Watch>, ids: set<NodeId>, n: Node) {
    Reading(o, ids, n) && Caught(n) && Settled(n)
  }

  // ------------------------------------------------------- handlers, locally

  lemma QuietFollower(o: Option<Watch>, ids: set<NodeId>, n: Node)
    requires Reading(o, ids, n) && n.role != Leader
    ensures Steady(o, ids, n)
  {
    assert n.barriers == [];
  }

  lemma BecomeFollowerSteady(o: Option<Watch>, ids: set<NodeId>, n: Node, t: nat, leader: Option<NodeId>, w: nat)
    requires Steady(o, ids, n)
    ensures Steady(o, ids, BecomeFollower(n, t, leader, w).0)
  {
    hide Reading;
    if t > n.term {
      if w > 0 {
        StepDownReads(o, ids, n, t, None, leader);
        QuietFollower(o, ids, StepDown(n.(term := t, votedFor := None), leader));
      }
    } else {
      StepDownReads(o, ids, n, n.term, n.votedFor, leader);
      QuietFollower(o, ids, StepDown(n, leader));
    }
  }

  lemma SendPlainSteady(o: Option<Watch>, ids: set<NodeId>, n: Node, to: NodeId, m: Message)
    requires Steady(o, ids, n) && !m.AppendEntries? && !Acceptance(m)
    ensures Steady(o, ids, Send(n, to, m))
  {
    hide Reading, QuorumIndex;
    SendPlainReads(o, ids, n, to, m);
  }

  lemma BookSteady(o: Option<Watch>, ids: set<NodeId>, n: Node, n': Node)
    requires Steady(o, ids, n)
    requires n' == n.(leader := n'.leader, votedFor := n'.votedFor, votes := n'.votes, next := n'.next,
                      pending := n'.pending, acknowledged := n'.acknowledged)
    ensures Steady(o, ids, n')
  {
    hide Reading, Caught, Settled;
    BookReads(o, ids, n, n');
  }

  lemma HeartbeatsSteady(o: Option<Watch>, ids: set<NodeId>, n: Node)
    requires Steady(o, ids, n) && n.role == Leader
    ensures Steady(o, ids, SendHeartbeats(n))
  {
    hide Reading, Caught, Settled, SendHeartbeats;
    HeartbeatsRead(o, ids, n);
    SameWorkKeeps(n, SendHeartbeats(n));
  }

  lemma SendAppendSteady(o: Option<Watch>, ids: set<NodeId>, n: Node, to: NodeId)
    requires Steady(o, ids, n) && n.role == Leader
    ensures Steady(o, ids, SendAppend(n, to))
  {
    hide Reading, Caught, Settled, SendAppend;
    SendAppendReads(o, ids, n, to);
    SameWorkKeeps(n, SendAppend(n, to));
  }

  lemma BecomeLeaderSteady(o: Option<Watch>, ids: set<NodeId>, n: Node, f: Faults)
    requires Steady(o, ids, n) && n.role == Candidate && n.term >= 1
    ensures Steady(o, ids, BecomeLeader(n, f))
  {
    if f.writes == 0 {
      hide Reading;
      AbdicateReads(o, ids, n);
      QuietFollower(o, ids, StepDown(Crown(n), None));
    } else {
      assert n.barriers == [];
      hide Reading, Caught, AdvanceCommit, SendHeartbeats;
      var n1 := AppendOwn(Crown(n), "");
      OfficeReads(o, ids, n);
      HeartbeatsRead(o, ids, n1);
      AdvanceCommitReads(o, ids, SendHeartbeats(n1), f.stop);
    }
  }

  lemma StartElectionSteady(o: Option<Watch>, ids: set<NodeId>, n: Node, f: Faults)
    requires Steady(o, ids, n) && n.role != Leader
    ensures Steady(o, ids, StartElection(n, f))
  {
    hide Steady, BecomeLeader, RequestVotesFrom;
    if f.writes == 0 {
      BookSteady(o, ids, n, n.(leader := None));
    } else {
      var n1 := Campaign(n);
      CampaignSteady(o, ids, n);
      BecomeLeaderSteady(o, ids, n1, Faults(f.writes - 1, f.stop));
      RequestVotesSteady(o, ids, n1);
    }
  }

  lemma CampaignSteady(o: Option<Watch>, ids: set<NodeId>, n: Node)
    requires Steady(o, ids, n) && n.role != Leader
    ensures Steady(o, ids, Campaign(n))
  {
    hide Reading;
    CampaignReads(o, ids, n);
    QuietFollower(o, ids, Campaign(n));
  }

  lemma RequestVotesSteady(o: Option<Watch>, ids: set<NodeId>, n: Node)
    requires Steady(o, ids, n) && n.role == Candidate
    ensures Steady(o, ids, RequestVotesFrom(n, 0))
  {
    hide Reading, RequestVotesFrom;
    RequestVotesReads(o, ids, n, 0);
    RequestVotesFrame(n, 0);
    QuietFollower(o, ids, RequestVotesFrom(n, 0));
  }

  lemma RequestVoteSteady(o: Option<Watch>, ids: set<NodeId>, n: Node, from: NodeId, m: Message, f: Faults)
    requires Steady(o, ids, n) && m.RequestVote?
    ensures Steady(o, ids, HandleRequestVote(n, from, m, f))
  {
    hide Steady, UpToDate, BecomeFollower;
    if m.term < n.term {
      SendPlainSteady(o, ids, n, from, VoteReply(n.term, false));
    } else {
      var (n1, ok, w) := if m.term > n.term then BecomeFollower(n, m.term, None, f.writes)
                         else (n, true, f.writes);
      BecomeFollowerSteady(o, ids, n, m.term, None, f.writes);
      var n2 := n1.(votedFor := Some(m.candidate));
      BookSteady(o, ids, n1, n2);
      SendPlainSteady(o, ids, n2, from, VoteReply(n1.term, true));
      SendPlainSteady(o, ids, n1, from, VoteReply(n1.term, false));
    }
  }

  lemma VoteReplySteady(o: Option<Watch>, ids: set<NodeId>, n: Node, from: NodeId, m: Message, f: Faults)
    requires Steady(o, ids, n) && m.VoteReply? && (n.role == Candidate ==> n.term >= 1)
    ensures Steady(o, ids, HandleVoteReply(n, from, m, f))
  {
    hide Steady, BecomeLeader, BecomeFollower;
    BecomeFollowerSteady(o, ids, n, m.term, None, f.writes);
    var n1 := n.(votes := n.votes + {from});
    BookSteady(o, ids, n, n1);
    if n.role == Candidate { BecomeLeaderSteady(o, ids, n1, f); }
  }

  // What the group guarantees about an acknowledgement that reaches a leader.
  ghost predicate AckTrue(o: Option<Watch>, ids: set<NodeId>, n: Node, from: NodeId, m: Message)
    requires m.AppendReply?
  {
    && from in ids && from != n.id && m.matchIndex <= |n.log| && m.round <= n.round
    && (o.Some? && o.value.terms.Keys == ids && n.id == o.value.l && n.term == o.value.t && m.round >= o.value.r ==>
          m.matchIndex >= o.value.len && o.value.terms[from] <= o.value.t)
  }

  lemma AcknowledgedSteady(o: Option<Watch>, ids: set<NodeId>, n: Node, from: NodeId, m: Message, stop: nat)
    requires Steady(o, ids, n) && m.AppendReply? && n.role == Leader && AckTrue(o, ids, n, from, m)
    ensures Steady(o, ids, AdvanceCommit(Progress(n, from, m.matchIndex, m.round), stop).0)
  {
    assert o.Some? ==> o.value.terms.Keys == ids;
    hide Reading, Caught, Settled, AdvanceCommit;
    ProgressReads(o, ids, n, from, m.matchIndex, m.round);
    AdvanceCommitReads(o, ids, Progress(n, from, m.matchIndex, m.round), stop);
  }

  lemma EvaluateSteady(o: Option<Watch>, ids: set<NodeId>, n: Node)
    requires Steady(o, ids, n)
    ensures Steady(o, ids, EvaluateBarriers(n))
  {
    hide Reading, Caught, Settled, EvaluateBarriers;
    EvaluateReads(o, ids, n);
  }

  lemma AppendReplySteady(o: Option<Watch>, ids: set<NodeId>, n: Node, from: NodeId, m: Message, f: Faults)
    requires Steady(o, ids, n) && m.AppendReply?
    requires n.role == Leader && m.term == n.term && m.success ==> AckTrue(o, ids, n, from, m)
    ensures Steady(o, ids, HandleAppendReply(n, from, m, f))
  {
    hide Steady, AckTrue, BecomeFollower, AdvanceCommit, EvaluateBarriers, SendAppend;
    if m.term > n.term {
      BecomeFollowerSteady(o, ids, n, m.term, None, f.writes);
    } else if n.role == Leader && m.term == n.term {
      if m.success {
        var n0 := Progress(n, from, m.matchIndex, m.round);
        AcknowledgedSteady(o, ids, n, from, m, f.stop);
        AdvanceCommitFrame(n0, f.stop);
        var n1 := AdvanceCommit(n0, f.stop).0;
        EvaluateSteady(o, ids, n1);
        EvaluateKeepsRole(n1);
        SendAppendSteady(o, ids, EvaluateBarriers(n1), from);
      } else {
        var x := Get(n.next, from);
        var n1 := n.(next := n.next[from := if x > 1 then x - 1 else x]);
        BookSteady(o, ids, n, n1);
        SendAppendSteady(o, ids, n1, from);
      }
    }
  }

  lemma EvaluateKeepsRole(n: Node)
    ensures EvaluateBarriers(n).role == n.role
  {
  }

  lemma ApplySteady(o: Option<Watch>, ids: set<NodeId>, n: Node, stop: nat)
    requires Reading(o, ids, n) && Caught(n)
    ensures Steady(o, ids, ApplyCommitted(n, stop).0)
  {
    hide Reading, Caught, Settled, ApplyCommitted;
    ApplyCommittedReads(o, ids, n, stop);
  }

  lemma TickSteady(o: Option<Watch>, ids: set<NodeId>, n: Node, due: bool, f: Faults, stop: nat)
    requires Steady(o, ids, n)
    ensures Steady(o, ids, Tick(n, due, f, stop))
  {
    hide Reading, Caught, Settled, SendHeartbeats, StartElection, ApplyCommitted;
    var n1 := if !due then n else if n.role == Leader then SendHeartbeats(n) else StartElection(n, f);
    if n.role == Leader { HeartbeatsSteady(o, ids, n); } else { StartElectionSteady(o, ids, n, f); }
    ApplySteady(o, ids, n1, stop);
  }

  lemma ProposeSteady(o: Option<Watch>, ids: set<NodeId>, n: Node, data: string, f: Faults)
    requires Steady(o, ids, n)
    ensures Steady(o, ids, Propose(n, data, f).0)
  {
    hide Reading, Caught, SendHeartbeats, AdvanceCommit;
    if n.role == Leader && f.writes > 0 && n.term > 0 {
      var i := |n.log| + 1;
      var n1 := AppendOwn(n, data);
      var n2 := n1.(pending := n1.pending[i := Entry(i, n.term, data)]);
      AppendOwnReads(o, ids, n, data);
      BookReads(o, ids, n1, n2);
      AdvanceCommitReads(o, ids, n2, f.stop);
      AdvanceCommitFrame(n2, f.stop);
      HeartbeatsSteady(o, ids, AdvanceCommit(n2, f.stop).0);
    }
  }

  // A new barrier waits for a round that no acknowledgement can predate; in a
  // group of one it is served at once, and rightly so.
  lemma ReadBarrierSteady(o: Option<Watch>, ids: set<NodeId>, n: Node)
    requires Reading(o, ids, n.(round := n.round + 1)) && Caught(n) && Settled(n)
    ensures Steady(o, ids, ReadBarrier(n).0) || n.role != Leader
  {
    if n.role == Leader {
      var n1 := SendHeartbeats(n);
      FreshRoundSteady(o, ids, n);
      SendHeartbeatsFrame(n);
      hide Steady, SendHeartbeats, Ready;
      var b := Barrier(n1.term, n1.round, n.commit);
      if Ready(n1, b) {
        ServedAtOnce(o, ids, n1, b);
      } else {
        BarrierQueued(o, ids, n1, b);
      }
    }
  }

  lemma FreshRoundSteady(o: Option<Watch>, ids: set<NodeId>, n: Node)
    requires Reading(o, ids, n.(round := n.round + 1)) && Caught(n) && Settled(n) && n.role == Leader
    ensures Steady(o, ids, SendHeartbeats(n))
  {
    hide Reading, QuorumIndex;
    var n1 := n.(round := n.round + 1);
    SendFromReads(o, ids, n1, 0);
    SameWorkKeeps(n1, SendFrom(n1, 0));
  }

  lemma BarrierQueued(o: Option<Watch>, ids: set<NodeId>, n: Node, b: Barrier)
    requires Steady(o, ids, n) && n.role == Leader && b == Barrier(n.term, n.round, n.commit)
    ensures Steady(o, ids, n.(barriers := n.barriers + [b]))
  {
    hide QuorumIndex;
  }

  lemma ServedAtOnce(o: Option<Watch>, ids: set<NodeId>, n: Node, b: Barrier)
    requires Steady(o, ids, n) && n.role == Leader && b == Barrier(n.term, n.round, n.commit)
    requires Ready(n, b)
    ensures Steady(o, ids, n.(finished := n.finished + {(b.term, b.round)}))
  {
    if o.Some? && n.id == o.value.l && (b.term, b.round) == (o.value.t, o.value.r) {
      RoundCommits(o.value, ids, n);
    }
    hide QuorumIndex, Ready;
  }

  lemma RestartSteady(o: Option<Watch>, ids: set<NodeId>, n: Node)
    requires Steady(o, ids, n)
    ensures Steady(o, ids, Restart(n))
  {
    hide Reading;
    RestartReads(o, ids, n);
    QuietFollower(o, ids, Restart(n));
  }

  // ------------------------------------------------- followers and requests

  // A request of a watched round carries at least the watched log.
  ghost predicate RequestTrue(o: Option<Watch>, m: Message)
    requires m.AppendEntries?
  {
    o.Some? && m.term == o.value.t && m.round >= o.value.r ==>
      m.prevIndex + |m.entries| >= o.value.len
  }

  lemma AcceptSteady(o: Option<Watch>, ids: set<NodeId>, n: Node, from: NodeId, m: Message, w: nat, stop: nat)
    requires Steady(o, ids, n) && m.AppendEntries? && RequestTrue(o, m)
    requires n.role == Follower && n.term == m.term
    requires n.commit <= |AppendBatch(n, m.prevIndex, m.term, m.entries, 0, w).0.log|
    ensures Steady(o, ids, Accept(n, from, m, w, stop))
  {
    hide Reading, AppendBatch, ApplyCommitted;
    var (n1, done) := AppendBatch(n, m.prevIndex, m.term, m.entries, 0, w);
    AppendBatchFrame(n, m.prevIndex, m.term, m.entries, 0, w);
    FollowerLogReads(o, ids, n, n1);
    QuietFollower(o, ids, n1);
    if done {
      var n2 := if m.leaderCommit > n1.commit then n1.(commit := Min(m.leaderCommit, |n1.log|)) else n1;
      CommitReads(o, ids, n1, n2.commit);
      ApplySteady(o, ids, n2, stop);
      ApplyCommittedFrame(n2, stop);
      var n3 := ApplyCommitted(n2, stop).0;
      AcknowledgeReads(o, ids, n3, from, m.prevIndex + |m.entries|, m.round);
      QuietFollower(o, ids, Send(n3, from, AppendReply(n3.term, true, m.prevIndex + |m.entries|, m.round, 0)));
    }
  }

  lemma FollowSteady(o: Option<Watch>, ids: set<NodeId>, n: Node, m: Message, w: nat)
    requires Steady(o, ids, n) && m.AppendEntries?
    ensures Steady(o, ids, Follow(n, m, w).0)
  {
    hide Steady, BecomeFollower;
    if m.term > n.term || n.role != Follower {
      BecomeFollowerSteady(o, ids, n, m.term, Some(m.leader), w);
    } else {
      BookSteady(o, ids, n, n.(leader := Some(m.leader)));
    }
  }

  lemma AppendEntriesSteady(o: Option<Watch>, ids: set<NodeId>, n: Node, from: NodeId, m: Message, f: Faults)
    requires Steady(o, ids, n) && m.AppendEntries? && RequestTrue(o, m)
    requires var (n1, ok, w) := Follow(n, m, f.writes);
             m.term >= n.term && ok && PrefixMatches(n1.log, m) ==>
               n1.commit <= |AppendBatch(n1, m.prevIndex, m.term, m.entries, 0, w).0.log|
    ensures Steady(o, ids, HandleAppendEntries(n, from, m, f))
  {
    hide Steady, RequestTrue, Accept, PrefixMatches, AppendBatch;
    if m.term < n.term {
      SendPlainSteady(o, ids, n, from, AppendReply(n.term, false, 0, m.round, 0));
    } else {
      var (n1, ok, w) := Follow(n, m, f.writes);
      FollowSteady(o, ids, n, m, f.writes);
      if ok {
        if PrefixMatches(n1.log, m) {
          AcceptSteady(o, ids, n1, from, m, w, f.stop);
        } else {
          SendPlainSteady(o, ids, n1, from, AppendReply(n1.term, false, 0, m.round, |n1.log|));
        }
      }
    }
  }

  // -------------------------------------------------------- the whole group

  ghost predicate Echoed(c: Cluster, m: Message)
    requires m.AppendReply?
  {
    exists s, q :: s in c && q in c[s].sent && q.msg.AppendEntries?
                   && q.msg.term == m.term && q.msg.round == m.round
  }

  // Every acknowledgement echoes the round of a request that was sent.
  ghost predicate Echo(c: Cluster) {
    forall f, p :: f in c && p in c[f].sent && Acceptance(p.msg) ==> Echoed(c, p.msg)
  }

  ghost predicate AllSteady(c: Cluster, o: Option<Watch>) {
    forall i :: i in c ==> Steady(o, c.Keys, c[i])
  }

  ghost predicate ReadInv(c: Cluster, o: Option<Watch>) {
    AllSteady(c, o) && Echo(c)
  }

  // The watched term is the watched member's.
  ghost predicate WatchOk(h: History, o: Option<Watch>) {
    o.Some? ==> o.value.t in h.reigns && h.reigns[o.value.t].leader == o.value.l
  }

  // What one step adds: new packets never acknowledge anything but the request delivered.
  ghost predicate Advances(e: Event, n: Node, n': Node) {
    && n'.id == n.id && n'.peers == n.peers && n.term <= n'.term
    && n.sent <= n'.sent
    && (forall p :: p in n'.sent && Acceptance(p.msg) ==>
          p in n.sent || (e.Deliver? && e.p.msg.AppendEntries? && p.msg.term == e.p.msg.term
                          && p.msg.round == e.p.msg.round))
    && (e.Reboot? || (n.commit <= n'.commit && n.applied <= n'.applied))
  }

  // The committed part of a follower's log survives every accepted batch.
  lemma BatchKeepsCommit(c: Cluster, h: History, p: Packet, w0: nat)
    requires Inv(c, h) && p.src in c && p.dst in c && p in c[p.src].sent && p.msg.AppendEntries?
    ensures p.src != p.dst
    ensures p.msg.term in h.reigns && h.reigns[p.msg.term].leader == p.src
    ensures p.msg.leaderCommit <= p.msg.prevIndex + |p.msg.entries|
    ensures var (n1, ok, w) := Follow(c[p.dst], p.msg, w0);
            p.msg.term >= c[p.dst].term && ok && PrefixMatches(n1.log, p.msg) ==>
              n1.commit <= |AppendBatch(n1, p.msg.prevIndex, p.msg.term, p.msg.entries, 0, w).0.log|
  {
    hide At, NodeOk, HistoryOk, Inv, AppendBatch;
    var i, m := p.dst, p.msg;
    Enter(c, i, h);
    SenderOk(c, i, c[i], h, p);
    var (n1, ok, w) := Follow(c[i], m, w0);
    if m.term >= c[i].term && ok && PrefixMatches(n1.log, m) {
      FollowAt(c, i, c[i], h, m, w0);
      BatchAt(c, i, n1, h, p.src, m, w);
      NodeOf(c, i, AppendBatch(n1, m.prevIndex, m.term, m.entries, 0, w).0, h);
    }
  }

  lemma AppendEntriesAdvances(c: Cluster, h: History, p: Packet, f: Faults)
    requires Inv(c, h) && p.src in c && p.dst in c && p in c[p.src].sent && p.msg.AppendEntries?
    ensures Advances(Deliver(p, f), c[p.dst], HandleAppendEntries(c[p.dst], p.src, p.msg, f))
    ensures HandleAppendEntries(c[p.dst], p.src, p.msg, f).commit
              <= Max(c[p.dst].commit, p.msg.prevIndex + |p.msg.entries|)
  {
    hide Inv, Accept, AppendBatch, PrefixMatches, Follow, Advances;
    var n, m := c[p.dst], p.msg;
    BatchKeepsCommit(c, h, p, f.writes);
    RefusedAdvances(n, p, f, n, 0);
    if m.term >= n.term {
      var (n1, ok, w) := Follow(n, m, f.writes);
      FollowAdvances(n, p, f);
      RefusedAdvances(n, p, f, n1, |n1.log|);
      if ok && PrefixMatches(n1.log, m) {
        AcceptOnward(n1, p.src, m, w, f.stop);
        AcceptAdvances(n, p, f, n1, Accept(n1, p.src, m, w, f.stop));
      }
    }
  }

  lemma FollowAdvances(n: Node, p: Packet, f: Faults)
    requires p.msg.AppendEntries? && p.msg.term >= n.term
    ensures var (n1, ok, _) := Follow(n, p.msg, f.writes);
            && Advances(Deliver(p, f), n, n1) && n1.commit == n.commit
            && (ok ==> n1.term == p.msg.term && n1.role == Follower)
  {
  }

  lemma RefusedAdvances(n: Node, p: Packet, f: Faults, n1: Node, hint: nat)
    requires n1 == n || Advances(Deliver(p, f), n, n1)
    ensures p.msg.AppendEntries? ==>
              Advances(Deliver(p, f), n, Send(n1, p.src, AppendReply(n1.term, false, 0, p.msg.round, hint)))
  {
  }

  lemma AcceptAdvances(n: Node, p: Packet, f: Faults, n1: Node, n': Node)
    requires p.msg.AppendEntries? && Advances(Deliver(p, f), n, n1)
    requires n'.id == n1.id && n'.peers == n1.peers && n1.term == n'.term && n1.sent <= n'.sent
    requires n1.commit <= n'.commit && n1.applied <= n'.applied
    requires forall q :: q in n'.sent ==>
               q in n1.sent || (q.msg.AppendReply? && q.msg.term == p.msg.term && q.msg.round == p.msg.round)
    ensures Advances(Deliver(p, f), n, n')
  {
  }

  lemma DeliverAdvances(c: Cluster, h: History, p: Packet, f: Faults)
    requires Inv(c, h) && p.src in c && p.dst in c && p in c[p.src].sent
    ensures Advances(Deliver(p, f), c[p.dst], HandleMessage(c[p.dst], p.src, p.msg, f))
  {
    hide Inv, HandleRequestVote, HandleVoteReply, HandleAppendReply, HandleAppendEntries;
    match p.msg
    case RequestVote(_, _, _, _) => RequestVoteOnward(c[p.dst], p.src, p.msg, f);
    case VoteReply(_, _) => VoteReplyOnward(c[p.dst], p.src, p.msg, f);
    case AppendEntries(_, _, _, _, _, _, _) => AppendEntriesAdvances(c, h, p, f);
    case AppendReply(_, _, _, _, _) => AppendReplyOnward(c[p.dst], p.src, p.msg, f);
  }

  lemma StepAdvances(c: Cluster, e: Event, h: History)
    requires Inv(c, h) && Enabled(c, e)
    ensures Advances(e, c[Actor(e)], React(c[Actor(e)], e))
  {
    hide Inv, HandleMessage, Tick, Propose, ReadBarrier;
    match e
    case Deliver(p, f) => DeliverAdvances(c, h, p, f);
    case Timer(i, due, f, stop) => TickOnward(c[i], due, f, stop);
    case Write(i, data, f) => ProposeOnward(c[i], data, f);
    case Read(i) => ReadBarrierOnward(c[i]);
    case Reboot(i) =>
  }

  lemma EchoStep(c: Cluster, e: Event, h: History)
    requires Inv(c, h) && Enabled(c, e) && Echo(c)
    ensures Echo(Next(c, e))
  {
    hide Inv, React;
    StepAdvances(c, e, h);
    var i, c' := Actor(e), Next(c, e);
    forall f, p | f in c' && p in c'[f].sent && Acceptance(p.msg) ensures Echoed(c', p.msg) {
      if p in c[f].sent {
        var s, q :| s in c && q in c[s].sent && q.msg.AppendEntries?
                    && q.msg.term == p.msg.term && q.msg.round == p.msg.round;
        assert s in c' && q in c'[s].sent;
      } else {
        assert e.p in c'[e.p.src].sent;
      }
    }
  }

  lemma MemberOk(c: Cluster, h: History, i: NodeId)
    requires Inv(c, h) && i in c
    ensures c[i].id == i && NodeOk(h, c.Keys, c[i])
  {
    hide HistoryOk, NodeOk;
  }

  lemma SteadyOf(c: Cluster, o: Option<Watch>, i: NodeId)
    requires ReadInv(c, o) && i in c
    ensures Steady(o, c.Keys, c[i])
  {
    hide Steady, Echo;
  }

  lemma AckWithinLog(h: History, ids: set<NodeId>, n: Node, from: Node, p: Packet)
    requires HistoryOk(h, ids) && NodeOk(h, ids, n) && NodeOk(h, ids, from)
    requires p in from.sent && p.dst == n.id && Acceptance(p.msg) && n.role == Leader && n.term == p.msg.term
    ensures p.src == from.id && p.src in ids && p.src != n.id && p.msg.matchIndex <= |n.log|
  {
    assert PacketOk(h, ids, from, p) && LeadOk(h, n);
    hide NodeOk, LeadOk;
    assert AckOk(h, ids, (p.msg.term, p.src));
    hide HistoryOk, AckOk;
  }

  lemma AckOfWatched(w: Watch, ids: set<NodeId>, from: Node, p: Packet)
    requires Reading(Some(w), ids, from) && p in from.sent && Acceptance(p.msg)
    requires p.msg.term == w.t && p.msg.round >= w.r
    ensures from.id in w.terms && p.msg.matchIndex >= w.len && w.terms[from.id] <= w.t
  {
    hide Shape, Pace;
  }

  // An acknowledgement that reaches the leader of its term is what it claims.
  lemma AckIsTrue(c: Cluster, h: History, o: Option<Watch>, p: Packet)
    requires Inv(c, h) && ReadInv(c, o) && WatchOk(h, o)
    requires p.src in c && p.dst in c && p in c[p.src].sent && Acceptance(p.msg)
    requires c[p.dst].role == Leader && c[p.dst].term == p.msg.term
    ensures AckTrue(o, c.Keys, c[p.dst], p.src, p.msg)
  {
    hide HistoryOk, NodeOk, Reading, MembersOk, AllSteady;
    var n, m, from := c[p.dst], p.msg, c[p.src];
    MemberOk(c, h, p.dst);
    MemberOk(c, h, p.src);
    AckWithinLog(h, c.Keys, n, from, p);
    SteadyOf(c, o, p.dst);
    SteadyOf(c, o, p.src);
    PaceOf(o, c.Keys, n);
    EchoRound(c, h, n, m);
    if o.Some? && n.term == o.value.t && m.round >= o.value.r { AckOfWatched(o.value, c.Keys, from, p); }
  }

  lemma PaceOf(o: Option<Watch>, ids: set<NodeId>, n: Node)
    requires Reading(o, ids, n)
    ensures Pace(n)
  {
    hide Pace, Shape;
  }

  lemma EchoRound(c: Cluster, h: History, n: Node, m: Message)
    requires MembersOk(c, h) && n.id in c && c[n.id] == n && Pace(n)
    requires m.AppendReply? && Echoed(c, m) && n.role == Leader && n.term == m.term
    ensures m.round <= n.round
  {
    var s, q :| s in c && q in c[s].sent && q.msg.AppendEntries?
                && q.msg.term == m.term && q.msg.round == m.round;
    assert NodeOk(h, c.Keys, c[s]) && NodeOk(h, c.Keys, n);
    assert PacketOk(h, c.Keys, c[s], q) && LeadOk(h, n);
    hide NodeOk;
    assert s == n.id;
  }

  lemma RequestIsTrue(c: Cluster, h: History, o: Option<Watch>, p: Packet)
    requires AllSteady(c, o) && WatchOk(h, o)
    requires p.src in c && p in c[p.src].sent && p.msg.AppendEntries? && c[p.src].id == p.src
    requires p.msg.term in h.reigns && h.reigns[p.msg.term].leader == p.src
    ensures RequestTrue(o, p.msg)
  {
    hide Shape, Pace, Caught, Settled;
    assert Steady(o, c.Keys, c[p.src]);
  }

  lemma DeliverSteady(c: Cluster, h: History, o: Option<Watch>, p: Packet, f: Faults)
    requires Inv(c, h) && ReadInv(c, o) && WatchOk(h, o) && p.src in c && p.dst in c && p in c[p.src].sent
    ensures Steady(o, c.Keys, HandleMessage(c[p.dst], p.src, p.msg, f))
  {
    hide Inv, ReadInv, WatchOk, Steady, HandleRequestVote, HandleVoteReply, HandleAppendReply, HandleAppendEntries;
    var n, m := c[p.dst], p.msg;
    SteadyOf(c, o, p.dst);
    match m
    case RequestVote(_, _, _, _) => RequestVoteSteady(o, c.Keys, n, p.src, m, f);
    case VoteReply(_, _) =>
      CandidateTerm(c, h, p.dst);
      VoteReplySteady(o, c.Keys, n, p.src, m, f);
    case AppendEntries(_, _, _, _, _, _, _) =>
      MemberId(c, h, p.src);
      BatchKeepsCommit(c, h, p, f.writes);
      AllSteadyOf(c, o);
      RequestIsTrue(c, h, o, p);
      AppendEntriesSteady(o, c.Keys, n, p.src, m, f);
    case AppendReply(_, _, _, _, _) =>
      if n.role == Leader && m.term == n.term && m.success { AckIsTrue(c, h, o, p); }
      AppendReplySteady(o, c.Keys, n, p.src, m, f);
  }

  lemma AllSteadyOf(c: Cluster, o: Option<Watch>)
    requires ReadInv(c, o)
    ensures AllSteady(c, o)
  {
    hide AllSteady, Echo;
  }

  lemma CandidateTerm(c: Cluster, h: History, i: NodeId)
    requires Inv(c, h) && i in c
    ensures c[i].role == Candidate ==> c[i].term >= 1
  {
    hide HistoryOk, NodeOk;
    MemberOk(c, h, i);
    assert CandidateOk(h, c.Keys, c[i]) by {
      CandidateOf(h, c.Keys, c[i]);
    }
  }

  lemma CandidateOf(h: History, ids: set<NodeId>, n: Node)
    requires NodeOk(h, ids, n)
    ensures CandidateOk(h, ids, n)
  {
    hide CandidateOk, LogOk, VoteOk, SupportOk, LeadOk, AcksOk, CommitOk, MatchOk, ProposalsOk, PacketsOk;
  }

  lemma ActorSteady(c: Cluster, e: Event, h: History, o: Option<Watch>)
    requires Inv(c, h) && Enabled(c, e) && ReadInv(c, o) && WatchOk(h, o)
    ensures Steady(o, c.Keys, React(c[Actor(e)], e))
  {
    hide Inv, Reading, Caught, Settled, HandleMessage, Tick, Propose, ReadBarrier, Restart;
    assert Steady(o, c.Keys, c[Actor(e)]);
    match e
    case Deliver(p, f) => DeliverSteady(c, h, o, p, f);
    case Timer(i, due, f, stop) => TickSteady(o, c.Keys, c[i], due, f, stop);
    case Write(i, data, f) => ProposeSteady(o, c.Keys, c[i], data, f);
    case Read(i) =>
      NextRoundReads(o, c.Keys, c[i]);
      ReadBarrierSteady(o, c.Keys, c[i]);
      ReadRefused(c[i]);
    case Reboot(i) => RestartSteady(o, c.Keys, c[i]);
  }

  lemma ReadRefused(n: Node)
    ensures n.role != Leader ==> ReadBarrier(n).0 == n
  {
  }

  lemma ReadStep(c: Cluster, e: Event, h: History, o: Option<Watch>)
    requires Inv(c, h) && Enabled(c, e) && ReadInv(c, o) && WatchOk(h, o)
    ensures ReadInv(Next(c, e), o)
  {
    hide Inv, Steady, React, Echo;
    ActorSteady(c, e, h, o);
    EchoStep(c, e, h);
    assert Next(c, e).Keys == c.Keys;
  }

  lemma InitReads(c: Cluster)
    requires Init(c)
    ensures ReadInv(c, None)
  {
    forall i | i in c ensures Steady(None, c.Keys, c[i]) {
      assert Fresh(c[i]);
    }
  }

  // ----------------------------------------------------- watching one read

  ghost function Terms(c: Cluster): map<NodeId, nat> {
    map i | i in c :: c[i].term
  }

  ghost function WatchOf(c: Cluster, l: NodeId): Watch
    requires l in c
  {
    Watch(l, c[l].term, c[l].round + 1, |c[l].log|, Terms(c))
  }

  // Before the request no packet and no acknowledgement belongs to its round.
  lemma NothingEarlier(c: Cluster, h: History, l: NodeId, f: NodeId, p: Packet)
    requires Inv(c, h) && ReadInv(c, None) && l in c && c[l].role == Leader
    requires f in c && p in c[f].sent && Acceptance(p.msg) && p.msg.term == c[l].term
    ensures p.msg.round <= c[l].round
  {
    assert Steady(None, c.Keys, c[l]);
    assert c[l].id == l;
    EchoRound(c, h, c[l], p.msg);
  }

  lemma NoneOfRound(c: Cluster, h: History, l: NodeId, f: NodeId)
    requires Inv(c, h) && ReadInv(c, None) && l in c && c[l].role == Leader && f in c
    ensures forall p :: p in c[f].sent && Acceptance(p.msg) && p.msg.term == c[l].term ==>
              p.msg.round <= c[l].round
  {
    hide Inv, ReadInv;
    forall p | p in c[f].sent && Acceptance(p.msg) && p.msg.term == c[l].term
      ensures p.msg.round <= c[l].round
    {
      NothingEarlier(c, h, l, f, p);
    }
  }

  // A watch over a moment: the members' terms are as the watch says and no
  // acknowledgement belongs to the watched round yet.
  ghost predicate Starting(w: Watch, ids: set<NodeId>, n: Node) {
    && w.terms.Keys == ids && n.id in ids && w.l in ids && w.terms[w.l] == w.t && w.terms[n.id] == n.term
    && (forall p :: p in n.sent && Acceptance(p.msg) && p.msg.term == w.t ==> p.msg.round < w.r)
  }

  lemma StartOther(w: Watch, ids: set<NodeId>, n: Node)
    requires Reading(None, ids, n) && Starting(w, ids, n) && n.id != w.l
    ensures Reading(Some(w), ids, n)
  {
    hide Shape, Pace;
  }

  lemma StartReader(w: Watch, ids: set<NodeId>, n: Node)
    requires Reading(None, ids, n) && Starting(w, ids, n) && n.id == w.l && n.role == Leader
    requires w.r == n.round + 1 && w.len == |n.log| >= 1 && n.log[|n.log| - 1].term == n.term
    ensures Reading(Some(w), ids, n.(round := n.round + 1))
  {
    NextRoundReads(None, ids, n);
    assert Watched(w, n.(round := n.round + 1));
    hide Shape, Pace, Watched;
  }

  lemma StartsAll(c: Cluster, h: History, l: NodeId, i: NodeId)
    requires Inv(c, h) && ReadInv(c, None) && l in c && c[l].role == Leader && i in c
    ensures c[i].id == i && Starting(WatchOf(c, l), c.Keys, c[i])
  {
    hide Inv, ReadInv, NodeOk;
    NoneOfRound(c, h, l, i);
    MemberOk(c, h, i);
  }

  lemma WatchOther(c: Cluster, h: History, l: NodeId, i: NodeId)
    requires Inv(c, h) && ReadInv(c, None) && l in c && c[l].role == Leader && i in c && i != l
    ensures Steady(Some(WatchOf(c, l)), c.Keys, c[i])
  {
    hide Inv, ReadInv, Reading, Starting, Caught, Settled, Terms;
    StartsAll(c, h, l, i);
    SteadyOf(c, None, i);
    StartOther(WatchOf(c, l), c.Keys, c[i]);
  }

  lemma LastIsOwn(h: History, ids: set<NodeId>, n: Node)
    requires HistoryOk(h, ids) && NodeOk(h, ids, n) && n.role == Leader
    ensures n.term in h.reigns && h.reigns[n.term].leader == n.id
    ensures |n.log| >= 1 && n.log[|n.log| - 1].term == n.term
  {
    assert LeadOk(h, n);
    hide NodeOk;
    assert ReignOk(h, ids, n.term);
  }

  lemma WatchReader(c: Cluster, h: History, l: NodeId)
    requires Inv(c, h) && ReadInv(c, None) && l in c && c[l].role == Leader
    ensures Reading(Some(WatchOf(c, l)), c.Keys, c[l].(round := c[l].round + 1))
    ensures WatchOk(h, Some(WatchOf(c, l)))
  {
    hide HistoryOk, MembersOk, ReadInv, Reading, Starting, Caught, Settled, Terms, NodeOk;
    StartsAll(c, h, l, l);
    MemberOk(c, h, l);
    SteadyOf(c, None, l);
    LastIsOwn(h, c.Keys, c[l]);
    StartReader(WatchOf(c, l), c.Keys, c[l]);
  }

  lemma WatchStarts(c: Cluster, h: History, l: NodeId)
    requires Inv(c, h) && ReadInv(c, None) && l in c && c[l].role == Leader
    ensures ReadInv(Next(c, Read(l)), Some(WatchOf(c, l))) && WatchOk(h, Some(WatchOf(c, l)))
  {
    hide Inv, Reading, Caught, Settled, ReadBarrier, Echo, ReadInv, WatchOf, WatchOk;
    var w, c' := WatchOf(c, l), Next(c, Read(l));
    WatchReader(c, h, l);
    EchoOf(c);
    EchoStep(c, Read(l), h);
    SteadyOf(c, None, l);
    ReadBarrierSteady(Some(w), c.Keys, c[l]);
    assert c'.Keys == c.Keys;
    forall i | i in c' ensures Steady(Some(w), c'.Keys, c'[i]) {
      if i != l { WatchOther(c, h, l, i); }
    }
    BothHalves(c', Some(w));
  }

  lemma EchoOf(c: Cluster)
    requires ReadInv(c, None)
    ensures Echo(c)
  {
  }

  lemma BothHalves(c: Cluster, o: Option<Watch>)
    requires AllSteady(c, o) && Echo(c)
    ensures ReadInv(c, o)
  {
  }

  // A quorum that was behind when the read came in bounds what was committed then.
  lemma CommitBeforeRead(c: Cluster, h: History, l: NodeId, a: NodeId)
    requires Inv(c, h) && l in c && a in c && c[l].role == Leader && QuorumBehind(WatchOf(c, l))
    ensures c[a].commit <= |c[l].log|
  {
    hide HistoryOk, MembersOk, QuorumBehind, Extends;
    var w, n := WatchOf(c, l), c[a];
    MemberOk(c, h, a);
    MemberOk(c, h, l);
    LastIsOwn(h, c.Keys, c[l]);
    assert n.commit <= |n.log| && Committed(h, c.Keys, n.log[..n.commit], n.term);
    assert c[l].log == h.reigns[w.t].log;
    hide NodeOk;
    if n.commit > 0 {
      var t: nat, m: nat :| t <= n.term && CommittedBy(h, c.Keys, n.log[..n.commit], t, m);
      ChosenNotLater(c, h, w, t, m);
      if t < w.t {
        LeaderCompleteness(h, c.Keys, t, m, w.t);
        BaseWithinLog(h, c.Keys, w.t);
      }
    }
  }

  lemma BaseWithinLog(h: History, ids: set<NodeId>, t: nat)
    requires HistoryOk(h, ids) && t in h.reigns
    ensures |h.reigns[t].base| < |h.reigns[t].log|
  {
    assert ReignOk(h, ids, t);
  }

  lemma AckerTerm(h: History, ids: set<NodeId>, n: Node, t: nat)
    requires NodeOk(h, ids, n) && (t, n.id) in h.acks
    ensures t <= n.term
  {
    assert Acked(h, t, n.id, 0);
  }

  lemma ChosenNotLater(c: Cluster, h: History, w: Watch, t: nat, m: nat)
    requires Inv(c, h) && Chosen(h, c.Keys, t, m) && w.terms == Terms(c) && QuorumBehind(w)
    ensures t <= w.t
  {
    hide HistoryOk, NodeOk, MembersOk;
    assert w.terms.Keys == c.Keys;
    var f := CommitMeetsVotes(c.Keys, AckSet(h, c.Keys, t, m), Behind(w));
    MemberOk(c, h, f);
    AckerTerm(h, c.Keys, c[f], t);
  }

  // ------------------------------------------------------------------- runs

  lemma {:induction false} ReadsInRun(r: Run, hs: seq<History>, o: Option<Watch>, j: nat, k: nat)
    requires IsRun(r) && Recorded(r, hs) && j <= k < |r.states|
    requires ReadInv(r.states[j], o) && WatchOk(hs[j], o)
    ensures ReadInv(r.states[k], o)
    decreases k
  {
    hide Inv, Extends, ReadInv, WatchOk, Init;
    if j < k {
      ReadsInRun(r, hs, o, j, k - 1);
      assert StepOf(r, k - 1);
      assert Extends(hs[j], hs[k - 1]);
      WatchStays(hs[j], hs[k - 1], o);
      ReadStep(r.states[k - 1], r.events[k - 1], hs[k - 1], o);
    }
  }

  lemma WatchStays(h: History, g: History, o: Option<Watch>)
    requires Extends(h, g) && WatchOk(h, o)
    ensures WatchOk(g, o)
  {
  }

  // The watch of the read at step j holds in every later state.
  lemma WatchInRun(r: Run, hs: seq<History>, j: nat, k: nat, l: NodeId)
    requires IsRun(r) && Recorded(r, hs) && j < k < |r.states|
    requires r.events[j] == Read(l) && l in r.states[j] && r.states[j][l].role == Leader
    ensures ReadInv(r.states[k], Some(WatchOf(r.states[j], l)))
    ensures r.states[k].Keys == r.states[j].Keys
  {
    hide Inv, Extends, ReadInv, Init;
    InitReads(r.states[0]);
    ReadsInRun(r, hs, None, 0, j);
    assert StepOf(r, j);
    var w := Some(WatchOf(r.states[j], l));
    WatchStarts(r.states[j], hs[j], l);
    assert Extends(hs[j], hs[j + 1]);
    WatchStays(hs[j], hs[j + 1], w);
    ReadsInRun(r, hs, w, j + 1, k);
  }

  lemma FinishedMeans(c: Cluster, o: Option<Watch>)
    requires ReadInv(c, o) && o.Some? && o.value.l in c && c[o.value.l].id == o.value.l
    requires (o.value.t, o.value.r) in c[o.value.l].finished
    ensures c[o.value.l].applied >= o.value.len && QuorumBehind(o.value)
    ensures c[o.value.l].applied <= c[o.value.l].commit
  {
    assert Steady(o, c.Keys, c[o.value.l]);
  }

  // Linearizable reads: a read barrier opened at step j and reported done by
  // state k reads a state machine that has applied everything any member had
  // committed at step j.
  lemma LinearizableRead(r: Run, j: nat, k: nat, l: NodeId, a: NodeId)
    requires IsRun(r) && j < k < |r.states| && r.events[j] == Read(l)
    requires l in r.states[j] && l in r.states[k] && a in r.states[j] && r.states[j][l].role == Leader
    requires var res := ReadBarrier(r.states[j][l]).1;
             (res.term, res.round) in r.states[k][l].finished
    ensures r.states[j][a].commit <= r.states[k][l].applied <= r.states[k][l].commit
    ensures r.states[k][l].commit <= |r.states[k][l].log| && r.states[j][a].commit <= |r.states[j][a].log|
    ensures r.states[j][a].log[..r.states[j][a].commit] <= r.states[k][l].log
  {
    hide Inv, ReadInv, Extends, IsRun, QuorumBehind, Recorded, ReadBarrier;
    var hs := RecordRun(r);
    ReadRound(r.states[j][l]);
    ReadSoFar(r, hs, j, k, l, a);
    var na := r.states[j][a];
    if na.commit > 0 { StateMachineSafety(r, j, k, a, l, na.commit - 1); }
  }

  lemma ReadRound(n: Node)
    requires n.role == Leader
    ensures ReadBarrier(n).1 == ReadIndex(n.commit, n.term, n.round + 1)
  {
    hide SendHeartbeats;
    SendHeartbeatsFrame(n);
  }

  lemma ReadSoFar(r: Run, hs: seq<History>, j: nat, k: nat, l: NodeId, a: NodeId)
    requires IsRun(r) && Recorded(r, hs) && j < k < |r.states| && r.events[j] == Read(l)
    requires l in r.states[j] && l in r.states[k] && a in r.states[j] && r.states[j][l].role == Leader
    requires (r.states[j][l].term, r.states[j][l].round + 1) in r.states[k][l].finished
    ensures r.states[j][a].commit <= r.states[k][l].applied <= r.states[k][l].commit
    ensures r.states[k][l].commit <= |r.states[k][l].log| && r.states[j][a].commit <= |r.states[j][a].log|
  {
    hide Inv, ReadInv, Extends, IsRun, QuorumBehind, Terms;
    WatchInRun(r, hs, j, k, l);
    assert Inv(r.states[j], hs[j]) && Inv(r.states[k], hs[k]);
    hide Recorded;
    MemberId(r.states[k], hs[k], l);
    FinishedMeans(r.states[k], Some(WatchOf(r.states[j], l)));
    CommitBeforeRead(r.states[j], hs[j], l, a);
    CommitWithinLog(r.states[j], hs[j], a);
    CommitWithinLog(r.states[k], hs[k], l);
  }

  lemma MemberId(c: Cluster, h: History, i: NodeId)
    requires Inv(c, h) && i in c
    ensures c[i].id == i
  {
    hide HistoryOk, NodeOk;
  }

  lemma CommitWithinLog(c: Cluster, h: History, i: NodeId)
    requires Inv(c, h) && i in c
    ensures c[i].commit <= |c[i].log|
  {
    hide HistoryOk;
  }

  // ------------------------------------------------- committed entries stay

  // No step, whatever writes fail in it, cuts a log at or below its commit
  // index, and only a restart lowers the commit index.
  lemma CommittedIsNeverCut(r: Run, k: nat, a: NodeId)
    requires IsRun(r) && k < |r.events| && a in r.states[k] && a in r.states[k + 1]
    ensures r.states[k][a].commit <= |r.states[k][a].log|
    ensures r.states[k][a].log[..r.states[k][a].commit] <= r.states[k + 1][a].log
    ensures r.events[k] == Reboot(a) || r.states[k][a].commit <= r.states[k + 1][a].commit
  {
    hide Inv, Extends, React, Init;
    var hs := RecordRun(r);
    var n, n', e := r.states[k][a], r.states[k + 1][a], r.events[k];
    StepFacts(r, hs, k);
    if a != Actor(e) {
      assert n' == n;
      CommitWithinLog(r.states[k], hs[k], a);
    } else {
      CommitWithinLog(r.states[k], hs[k], a);
      if e.Reboot? {
        RestartKeepsLog(n, e);
      } else if n.commit > 0 {
        StateMachineSafety(r, k, k + 1, a, a, n.commit - 1);
      }
    }
  }

  lemma StepFacts(r: Run, hs: seq<History>, k: nat)
    requires IsRun(r) && Recorded(r, hs) && k < |r.events|
    ensures Inv(r.states[k], hs[k])
    ensures Enabled(r.states[k], r.events[k]) && r.states[k + 1] == Next(r.states[k], r.events[k])
    ensures Actor(r.events[k]) in r.states[k]
    ensures Advances(r.events[k], r.states[k][Actor(r.events[k])], r.states[k + 1][Actor(r.events[k])])
  {
    hide Inv, Extends, React, Advances, Init;
    assert StepOf(r, k);
    StepAdvances(r.states[k], r.events[k], hs[k]);
  }

  lemma RestartKeepsLog(n: Node, e: Event)
    requires e.Reboot?
    ensures React(n, e).log == n.log
  {
  }

  // The commit index a follower adopts never passes the prefix it just checked.
  lemma FollowerCommitIsVerified(r: Run, k: nat, p: Packet, f: Faults)
    requires IsRun(r) && k < |r.events| && r.events[k] == Deliver(p, f) && p.msg.AppendEntries?
    requires p.dst in r.states[k] && p.dst in r.states[k + 1]
    ensures r.states[k + 1][p.dst].commit <= Max(r.states[k][p.dst].commit, p.msg.prevIndex + |p.msg.entries|)
  {
    hide Inv, Extends, Init, HandleAppendEntries;
    var hs := RecordRun(r);
    StepFacts(r, hs, k);
    AppendEntriesAdvances(r.states[k], hs[k], p, f);
  }
}
