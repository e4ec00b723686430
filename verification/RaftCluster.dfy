/**
 A Raft group as a step system. Packets may be lost, duplicated, delayed and
 reordered: everything ever sent may be delivered at any time, any number of
 times, or never. Timers expire freely, log store writes and state machine
 applies fail freely, and a member may restart at any moment.
 */
module RaftCluster {
  import opened Wrappers
  import opened RaftTypes
  import opened RaftSpec
  import opened RaftFrames
  import opened RaftQuorum
  import opened RaftHistory
  import opened RaftInvariant
  import opened RaftElection
  import opened RaftReplication

  type Cluster = map<NodeId, Node>

  datatype Event =
    | Deliver(p: Packet, f: Faults)
    | Timer(i: NodeId, due: bool, f: Faults, stop: nat)
    | Write(i: NodeId, data: string, f: Faults)
    | Read(i: NodeId)
    | Reboot(i: NodeId)

  predicate Enabled(c: Cluster, e: Event) {
    match e
    case Deliver(p, _) => p.src in c && p.dst in c && p in c[p.src].sent
    case Timer(i, _, _, _) => i in c
    case Write(i, _, _) => i in c
    case Read(i) => i in c
    case Reboot(i) => i in c
  }

  function Actor(e: Event): NodeId {
    match e
    case Deliver(p, _) => p.dst
    case Timer(i, _, _, _) => i
    case Write(i, _, _) => i
    case Read(i) => i
    case Reboot(i) => i
  }

  function React(n: Node, e: Event): Node {
    match e
    case Deliver(p, f) => HandleMessage(n, p.src, p.msg, f)
    case Timer(_, due, f, stop) => Tick(n, due, f, stop)
    case Write(_, data, f) => Propose(n, data, f).0
    case Read(_) => ReadBarrier(n).0
    case Reboot(_) => Restart(n)
  }

  function Next(c: Cluster, e: Event): Cluster
    requires Enabled(c, e)
  {
    c[Actor(e) := React(c[Actor(e)], e)]
  }

  // A member that has just been created over an empty log store.
  ghost predicate Fresh(n: Node) {
    && n == Restart(n)
    && n.term == 0 && n.votedFor == None && n.log == [] && n.sent == []
  }

  ghost predicate Init(c: Cluster) {
    && c.Keys != {}
    && forall i :: i in c ==>
         c[i].id == i && Fresh(c[i]) && Unique(c[i].peers) && Members(c[i].peers) == c.Keys
  }

  // ------------------------------------------------------------- invariant

  ghost predicate MembersOk(c: Cluster, h: History) {
    forall i :: i in c ==> c[i].id == i && NodeOk(h, c.Keys, c[i])
  }

  ghost predicate Inv(c: Cluster, h: History) {
    c.Keys != {} && HistoryOk(h, c.Keys) && MembersOk(c, h)
  }

  // The invariant with member i in state n: handlers are followed change by change.
  ghost predicate At(c: Cluster, i: NodeId, n: Node, h: History) {
    i in c && n.id == i && Inv(c[i := n], h)
  }

  lemma NodeOf(c: Cluster, i: NodeId, n: Node, h: History)
    requires At(c, i, n, h)
    ensures c[i := n].Keys == c.Keys
    ensures NodeOk(h, c.Keys, n) && HistoryOk(h, c.Keys)
    ensures i in c && n.id == i && n.applied <= n.commit <= |n.log|
    ensures n.role == Candidate ==> n.term >= 1
  {
    hide HistoryOk;
    assert c[i := n].Keys == c.Keys;
    assert c[i := n][i] == n;
  }

  lemma Enter(c: Cluster, i: NodeId, h: History)
    requires Inv(c, h) && i in c
    ensures At(c, i, c[i], h)
  {
    hide HistoryOk;
    assert c[i := c[i]] == c;
  }

  lemma Move(c: Cluster, i: NodeId, n: Node, h: History, n': Node, g: History)
    requires At(c, i, n, h) && n'.id == i
    requires Extends(h, g) && HistoryOk(g, c.Keys) && NodeOk(g, c.Keys, n')
    requires forall j :: j != i ==> Untouched(h, g, j)
    ensures At(c, i, n', g)
  {
    hide NodeOk, HistoryOk, Extends, Untouched;
    var d, d' := c[i := n], c[i := n'];
    assert d.Keys == c.Keys && d'.Keys == c.Keys;
    forall j | j in d' ensures d'[j].id == j && NodeOk(g, d'.Keys, d'[j]) {
      if j != i {
        assert d'[j] == d[j];
        assert NodeOk(h, d.Keys, d[j]);
        StillOk(h, g, c.Keys, d[j]);
      }
    }
  }

  // A move that records nothing.
  lemma Shift(c: Cluster, i: NodeId, n: Node, h: History, n': Node)
    requires At(c, i, n, h) && n'.id == i && NodeOk(h, c.Keys, n')
    ensures At(c, i, n', h)
  {
    hide At, NodeOk, HistoryOk;
    NodeOf(c, i, n, h);
    Move(c, i, n, h, n', h);
  }

  // ------------------------------------------------------- changes of state

  lemma StepDownAt(c: Cluster, i: NodeId, n: Node, h: History, leader: Option<NodeId>)
    requires At(c, i, n, h)
    ensures At(c, i, StepDown(n, leader), h)
  {
    hide At, NodeOk, HistoryOk;
    NodeOf(c, i, n, h);
    StepDownOk(h, c.Keys, n, leader);
    Shift(c, i, n, h, StepDown(n, leader));
  }

  lemma BumpAt(c: Cluster, i: NodeId, n: Node, h: History, t: nat, leader: Option<NodeId>)
    requires At(c, i, n, h) && t > n.term
    ensures At(c, i, StepDown(n.(term := t, votedFor := None), leader), h)
  {
    hide At, NodeOk, HistoryOk;
    NodeOf(c, i, n, h);
    BumpOk(h, c.Keys, n, t, leader);
    Shift(c, i, n, h, StepDown(n.(term := t, votedFor := None), leader));
  }

  lemma BecomeFollowerAt(c: Cluster, i: NodeId, n: Node, h: History, t: nat, leader: Option<NodeId>, w: nat)
    requires At(c, i, n, h)
    ensures At(c, i, BecomeFollower(n, t, leader, w).0, h)
  {
    hide At, NodeOk, HistoryOk;
    if t > n.term {
      if w > 0 { BumpAt(c, i, n, h, t, leader); }
    } else {
      StepDownAt(c, i, n, h, leader);
    }
  }

  lemma SendAt(c: Cluster, i: NodeId, n: Node, h: History, to: NodeId, m: Message)
    requires At(c, i, n, h) && PacketOk(h, c.Keys, n, Packet(n.id, to, m))
    ensures At(c, i, Send(n, to, m), h)
  {
    hide At, NodeOk, HistoryOk;
    NodeOf(c, i, n, h);
    SendOk(h, c.Keys, n, to, m);
    Shift(c, i, n, h, Send(n, to, m));
  }

  // A refusal commits the sender to nothing.
  lemma RefuseAt(c: Cluster, i: NodeId, n: Node, h: History, to: NodeId, m: Message)
    requires At(c, i, n, h) && to in c && to != i
    requires (m.VoteReply? && !m.granted) || (m.AppendReply? && !m.success)
    ensures At(c, i, Send(n, to, m), h)
  {
    hide At, NodeOk, HistoryOk;
    NodeOf(c, i, n, h);
    SendAt(c, i, n, h, to, m);
  }

  lemma LeaderHintAt(c: Cluster, i: NodeId, n: Node, h: History, leader: Option<NodeId>)
    requires At(c, i, n, h)
    ensures At(c, i, n.(leader := leader), h)
  {
    hide At, NodeOk, HistoryOk;
    NodeOf(c, i, n, h);
    LeaderHintOk(h, c.Keys, n, leader);
    Shift(c, i, n, h, n.(leader := leader));
  }

  lemma PeerIsMember(c: Cluster, i: NodeId, n: Node, h: History, k: nat)
    requires At(c, i, n, h) && k < |n.peers|
    ensures n.peers[k] in c && n.id == i
  {
    NodeOf(c, i, n, h);
    assert n.peers[k] in Members(n.peers);
  }

  lemma {:induction false} RequestVotesAt(c: Cluster, i: NodeId, n: Node, h: History, k: nat)
    requires At(c, i, n, h) && n.role == Candidate
    ensures At(c, i, RequestVotesFrom(n, k), h)
    decreases |n.peers| - k
  {
    hide At, NodeOk, HistoryOk;
    if k < |n.peers| {
      if n.peers[k] == n.id {
        RequestVotesAt(c, i, n, h, k + 1);
      } else {
        PeerIsMember(c, i, n, h, k);
        var m := RequestVote(n.term, n.id, |n.log|, LastTerm(n.log));
        SendAt(c, i, n, h, n.peers[k], m);
        RequestVotesAt(c, i, Send(n, n.peers[k], m), h, k + 1);
      }
    }
  }

  // ------------------------------------------------------ leaders at work

  lemma SendAppendAt(c: Cluster, i: NodeId, n: Node, h: History, to: NodeId)
    requires At(c, i, n, h) && n.role == Leader && to in c && to != i
    ensures At(c, i, SendAppend(n, to), h)
  {
    hide At, NodeOk, HistoryOk;
    NodeOf(c, i, n, h);
    TrackPeerOk(h, c.Keys, n, to);
    var n1 := TrackPeer(n, to);
    Shift(c, i, n, h, n1);
    var next := n1.next[to];
    if next != 0 && next - 1 <= |n.log| {
      SendRequestOk(h, c.Keys, n1, to, next - 1);
      Shift(c, i, n1, h, Send(n1, to, AppendRequest(n1, next - 1)));
    }
  }

  lemma {:induction false} SendFromAt(c: Cluster, i: NodeId, n: Node, h: History, k: nat)
    requires At(c, i, n, h) && n.role == Leader
    ensures At(c, i, SendFrom(n, k), h)
    decreases |n.peers| - k
  {
    hide At, NodeOk, HistoryOk;
    if k < |n.peers| {
      if n.peers[k] == n.id {
        SendFromAt(c, i, n, h, k + 1);
      } else {
        PeerIsMember(c, i, n, h, k);
        SendAppendAt(c, i, n, h, n.peers[k]);
        SendFromAt(c, i, SendAppend(n, n.peers[k]), h, k + 1);
      }
    }
  }

  lemma SendHeartbeatsAt(c: Cluster, i: NodeId, n: Node, h: History)
    requires At(c, i, n, h) && n.role == Leader
    ensures At(c, i, SendHeartbeats(n), h)
  {
    hide At, NodeOk, HistoryOk;
    var n1 := n.(round := n.round + 1);
    NodeOf(c, i, n, h);
    RoundOk(h, c.Keys, n);
    Shift(c, i, n, h, n1);
    SendFromAt(c, i, n1, h, 0);
  }

  lemma EvaluateAt(c: Cluster, i: NodeId, n: Node, h: History)
    requires At(c, i, n, h)
    ensures At(c, i, EvaluateBarriers(n), h)
  {
    hide At, NodeOk, HistoryOk;
    NodeOf(c, i, n, h);
    EvaluateOk(h, c.Keys, n);
    Shift(c, i, n, h, EvaluateBarriers(n));
  }

  lemma {:induction false} ApplyCommittedAt(c: Cluster, i: NodeId, n: Node, h: History, stop: nat)
    requires At(c, i, n, h)
    ensures At(c, i, ApplyCommitted(n, stop).0, h)
    decreases n.commit - n.applied
  {
    hide At, NodeOk, HistoryOk;
    if n.applied >= n.commit {
      EvaluateAt(c, i, n, h);
    } else {
      NodeOf(c, i, n, h);
      if n.applied + 1 > stop {
        ApplyStopsOk(h, c.Keys, n);
        Shift(c, i, n, h, DropPending(n, n.applied + 1).(barriers := []));
      } else {
        ApplyNextOk(h, c.Keys, n);
        Shift(c, i, n, h, ApplyNext(n));
        ApplyCommittedAt(c, i, ApplyNext(n), h, stop);
      }
    }
  }

  lemma AdvanceCommitAt(c: Cluster, i: NodeId, n: Node, h: History, stop: nat)
    requires At(c, i, n, h) && n.role == Leader
    ensures At(c, i, AdvanceCommit(n, stop).0, h)
  {
    hide At, NodeOk, HistoryOk;
    var q := QuorumMatch(n);
    if q <= n.commit || q > |n.log| || n.log[q - 1].term != n.term {
    } else {
      var n1 := n.(commit := q);
      NodeOf(c, i, n, h);
      LeaderCommitOk(h, c.Keys, n);
      Shift(c, i, n, h, n1);
      ApplyCommittedAt(c, i, n1, h, stop);
      ApplyCommittedFrame(n1, stop);
      var (n2, ok) := ApplyCommitted(n1, stop);
      if ok && |n2.peers| > 1 { SendHeartbeatsAt(c, i, n2, h); }
    }
  }

  lemma AppendOwnAt(c: Cluster, i: NodeId, n: Node, h: History, data: string) returns (g: History)
    requires At(c, i, n, h) && n.role == Leader
    ensures At(c, i, AppendOwn(n, data), g) && Extends(h, g)
  {
    hide At, NodeOk, HistoryOk;
    NodeOf(c, i, n, h);
    g := Grown(h, n, data);
    GrowOk(h, c.Keys, n, data);
    Move(c, i, n, h, AppendOwn(n, data), g);
  }

  // ------------------------------------------------------------- elections

  lemma QuorumSize(c: Cluster, i: NodeId, n: Node, h: History)
    requires At(c, i, n, h)
    ensures |n.peers| == |c.Keys|
  {
    NodeOf(c, i, n, h);
    MembersCount(n.peers);
  }

  lemma TakeOfficeAt(c: Cluster, i: NodeId, n: Node, h: History) returns (g: History)
    requires At(c, i, n, h) && n.role == Candidate && HasQuorum(n, |n.votes|)
    ensures At(c, i, AppendOwn(Crown(n), ""), g) && Extends(h, g)
  {
    hide At, NodeOk, HistoryOk;
    NodeOf(c, i, n, h);
    QuorumSize(c, i, n, h);
    TermIsOpen(h, c.Keys, n);
    g := Crowned(h, n);
    CrownedExtends(h, c.Keys, n);
    CrownedUntouched(h, c.Keys, n);
    CrownedOk(h, c.Keys, n);
    TakeOfficeOk(h, c.Keys, n);
    Move(c, i, n, h, AppendOwn(Crown(n), ""), g);
  }

  // A no-op that cannot be stored turns the winner back into a follower.
  lemma AbdicateAt(c: Cluster, i: NodeId, n: Node, h: History)
    requires At(c, i, n, h) && n.role == Candidate
    ensures At(c, i, StepDown(Crown(n), None), h)
  {
    hide At, NodeOk, HistoryOk;
    NodeOf(c, i, n, h);
    AbdicateOk(h, c.Keys, n);
    Shift(c, i, n, h, StepDown(Crown(n), None));
  }

  lemma BecomeLeaderAt(c: Cluster, i: NodeId, n: Node, h: History, f: Faults) returns (g: History)
    requires At(c, i, n, h) && n.role == Candidate && HasQuorum(n, |n.votes|)
    ensures At(c, i, BecomeLeader(n, f), g) && Extends(h, g)
  {
    hide At, NodeOk, HistoryOk;
    NodeOf(c, i, n, h);
    if f.writes == 0 {
      AbdicateAt(c, i, n, h);
      g := h;
    } else {
      g := TakeOfficeAt(c, i, n, h);
      var n1 := AppendOwn(Crown(n), "");
      SendHeartbeatsAt(c, i, n1, g);
      SendHeartbeatsFrame(n1);
      AdvanceCommitAt(c, i, SendHeartbeats(n1), g, f.stop);
    }
  }

  lemma CampaignAt(c: Cluster, i: NodeId, n: Node, h: History)
    requires At(c, i, n, h) && n.role != Leader
    ensures At(c, i, Campaign(n), Stood(h, n)) && Extends(h, Stood(h, n))
  {
    hide At, NodeOk, HistoryOk;
    NodeOf(c, i, n, h);
    StoodOk(h, c.Keys, n);
    StoodUntouched(h, n);
    CampaignOk(h, c.Keys, n);
    Move(c, i, n, h, Campaign(n), Stood(h, n));
  }

  lemma StartElectionAt(c: Cluster, i: NodeId, n: Node, h: History, f: Faults) returns (g: History)
    requires At(c, i, n, h) && n.role != Leader
    ensures At(c, i, StartElection(n, f), g) && Extends(h, g)
  {
    hide At, NodeOk, HistoryOk, Extends, BecomeLeader, RequestVotesFrom;
    if f.writes == 0 {
      ExtendsReflexive(h);
      LeaderHintAt(c, i, n, h, None);
      g := h;
    } else {
      CampaignAt(c, i, n, h);
      var h1, n1 := Stood(h, n), Campaign(n);
      if HasQuorum(n1, 1) {
        g := BecomeLeaderAt(c, i, n1, h1, Faults(f.writes - 1, f.stop));
        ExtendsTransitive(h, h1, g);
      } else {
        RequestVotesAt(c, i, n1, h1, 0);
        g := h1;
      }
    }
  }

  // ---------------------------------------------------------- vote handlers

  // A delivered packet was sent by another member in good standing.
  lemma SenderOk(c: Cluster, i: NodeId, n: Node, h: History, p: Packet)
    requires At(c, i, n, h) && p.src in c && p.dst == i && p in c[p.src].sent
    requires p.src == i ==> n.sent == c[i].sent
    ensures p.src != i && c[p.src].id == p.src
    ensures NodeOk(h, c.Keys, c[p.src]) && PacketOk(h, c.Keys, c[p.src], p)
  {
    NodeOf(c, i, n, h);
    var d := c[i := n];
    assert NodeOk(h, d.Keys, d[p.src]);
    assert PacketOk(h, c.Keys, d[p.src], p);
  }

  lemma GrantAt(c: Cluster, i: NodeId, n: Node, h: History, p: Packet) returns (g: History)
    requires At(c, i, n, h) && p.src in c && p.src != i && p in c[p.src].sent
    requires PacketOk(h, c.Keys, c[p.src], p) && c[p.src].id == p.src
    requires p.msg.RequestVote? && MayVote(n, p.msg)
    ensures At(c, i, n.(votedFor := Some(p.msg.candidate)), g) && Extends(h, g)
    ensures (n.term, i) in g.ballots && g.ballots[(n.term, i)].candidate == p.src
  {
    hide NodeOk, HistoryOk, Extends;
    NodeOf(c, i, n, h);
    g := Granted(h, n, p.msg);
    var n' := n.(votedFor := Some(p.msg.candidate));
    GrantHistoryOk(h, c.Keys, n, p.msg);
    GrantRecorded(h, c.Keys, n, p.msg);
    GrantOk(h, c.Keys, n, p.msg);
    var d, d' := c[i := n], c[i := n'];
    assert d.Keys == c.Keys && d'.Keys == c.Keys;
    forall j | j in d' ensures d'[j].id == j && NodeOk(g, d'.Keys, d'[j]) {
      if j != i {
        assert d'[j] == d[j];
        assert NodeOk(h, d.Keys, d[j]);
        if j == p.src {
          SupportedOk(h, c.Keys, n, d[j], p);
        } else {
          StillOk(h, g, c.Keys, d[j]);
        }
      }
    }
  }

  lemma RequestVoteAt(c: Cluster, h: History, p: Packet, f: Faults) returns (g: History)
    requires Inv(c, h) && p.src in c && p.dst in c && p in c[p.src].sent && p.msg.RequestVote?
    ensures At(c, p.dst, HandleRequestVote(c[p.dst], p.src, p.msg, f), g) && Extends(h, g)
  {
    hide At, NodeOk, HistoryOk;
    var i, m := p.dst, p.msg;
    var n := c[i];
    Enter(c, i, h);
    SenderOk(c, i, n, h, p);
    g := h;
    if m.term < n.term {
      RefuseAt(c, i, n, h, p.src, VoteReply(n.term, false));
    } else {
      var (n1, ok, w) := if m.term > n.term then BecomeFollower(n, m.term, None, f.writes)
                         else (n, true, f.writes);
      if m.term > n.term { BecomeFollowerAt(c, i, n, h, m.term, None, f.writes); }
      if ok {
        if (n1.votedFor == None || n1.votedFor == Some(m.candidate))
           && UpToDate(n1.log, m.lastIndex, m.lastTerm) {
          if w > 0 {
            g := GrantAt(c, i, n1, h, p);
            SendAt(c, i, n1.(votedFor := Some(m.candidate)), g, p.src, VoteReply(n1.term, true));
          }
        } else {
          RefuseAt(c, i, n1, h, p.src, VoteReply(n1.term, false));
        }
      }
    }
  }

  lemma VoteReplyAt(c: Cluster, h: History, p: Packet, f: Faults) returns (g: History)
    requires Inv(c, h) && p.src in c && p.dst in c && p in c[p.src].sent && p.msg.VoteReply?
    ensures At(c, p.dst, HandleVoteReply(c[p.dst], p.src, p.msg, f), g) && Extends(h, g)
  {
    hide At, NodeOk, HistoryOk;
    var i, m := p.dst, p.msg;
    var n := c[i];
    Enter(c, i, h);
    SenderOk(c, i, n, h, p);
    g := h;
    if m.term > n.term {
      BecomeFollowerAt(c, i, n, h, m.term, None, f.writes);
    } else if n.role == Candidate && m.term == n.term && m.granted {
      var n1 := n.(votes := n.votes + {p.src});
      NodeOf(c, i, n, h);
      VoteCountedOk(h, c.Keys, n, p.src);
      Shift(c, i, n, h, n1);
      if HasQuorum(n1, |n1.votes|) { g := BecomeLeaderAt(c, i, n1, h, f); }
    }
  }

  // -------------------------------------------------------- append handlers

  lemma FollowAt(c: Cluster, i: NodeId, n: Node, h: History, m: Message, w: nat)
    requires At(c, i, n, h) && m.AppendEntries?
    ensures At(c, i, Follow(n, m, w).0, h)
  {
    hide At, NodeOk, HistoryOk;
    if m.term > n.term || n.role != Follower {
      BecomeFollowerAt(c, i, n, h, m.term, Some(m.leader), w);
    } else {
      LeaderHintAt(c, i, n, h, Some(m.leader));
    }
  }

  // A follower about to accept a request of the leader of its term.
  ghost predicate Accepting(c: Cluster, i: NodeId, n: Node, h: History, src: NodeId, m: Message) {
    && At(c, i, n, h) && m.AppendEntries? && AppendOk(h, c.Keys, src, m)
    && n.role == Follower && n.term == m.term && PrefixMatches(n.log, m)
  }

  lemma BatchAt(c: Cluster, i: NodeId, n: Node, h: History, src: NodeId, m: Message, w: nat)
    requires Accepting(c, i, n, h, src, m)
    ensures var (n', done) := AppendBatch(n, m.prevIndex, m.term, m.entries, 0, w);
            && At(c, i, n', h)
            && Replicated(h, n, n')
            && (done ==> h.reigns[m.term].log[..m.prevIndex + |m.entries|] <= n'.log)
  {
    hide At, NodeOk, HistoryOk;
    NodeOf(c, i, n, h);
    BatchOk(h, c.Keys, n, src, m, w);
    var n' := AppendBatch(n, m.prevIndex, m.term, m.entries, 0, w).0;
    ReplicateOk(h, c.Keys, n, n');
    Shift(c, i, n, h, n');
  }

  lemma FollowerCommitAt(c: Cluster, i: NodeId, n: Node, h: History, src: NodeId, m: Message)
    requires At(c, i, n, h) && m.AppendEntries? && AppendOk(h, c.Keys, src, m)
    requires n.term == m.term && m.leaderCommit > n.commit
    requires h.reigns[m.term].log[..m.prevIndex + |m.entries|] <= n.log
    ensures Min(m.leaderCommit, |n.log|) == m.leaderCommit
    ensures At(c, i, n.(commit := m.leaderCommit), h)
  {
    hide At, NodeOk, HistoryOk;
    NodeOf(c, i, n, h);
    var lead := h.reigns[m.term].log;
    assert lead[..m.leaderCommit] <= lead[..m.prevIndex + |m.entries|];
    FollowerCommitOk(h, c.Keys, n, m.leaderCommit);
    Shift(c, i, n, h, n.(commit := m.leaderCommit));
  }

  lemma AcknowledgeAt(c: Cluster, i: NodeId, n: Node, h: History, to: NodeId, k: nat, round: nat)
    returns (g: History)
    requires At(c, i, n, h) && MayAck(h, n, k) && to in c && to != i
    ensures At(c, i, Send(n, to, AppendReply(n.term, true, k, round, 0)), g) && Extends(h, g)
  {
    hide At, NodeOk, HistoryOk;
    NodeOf(c, i, n, h);
    g := WithAck(h, n.term, i, k);
    WithAckExtends(h, n.term, i, k);
    WithAckOk(h, c.Keys, n, k);
    AckedNodeOk(h, c.Keys, n, k);
    Move(c, i, n, h, n, g);
    SendAt(c, i, n, g, to, AppendReply(n.term, true, k, round, 0));
  }

  // From the accepted prefix to the acknowledgement.
  lemma AcceptAt(c: Cluster, i: NodeId, n: Node, h: History, src: NodeId, m: Message, w: nat, stop: nat)
    returns (g: History)
    requires Accepting(c, i, n, h, src, m) && src in c && src != i
    ensures At(c, i, Accept(n, src, m, w, stop), g) && Extends(h, g)
  {
    hide At, NodeOk, HistoryOk, Extends, AppendBatch, Backed;
    g := h;
    ExtendsReflexive(h);
    BatchAt(c, i, n, h, src, m, w);
    var (n1, done) := AppendBatch(n, m.prevIndex, m.term, m.entries, 0, w);
    if done {
      var n2 := if m.leaderCommit > n1.commit then n1.(commit := Min(m.leaderCommit, |n1.log|)) else n1;
      if m.leaderCommit > n1.commit { FollowerCommitAt(c, i, n1, h, src, m); }
      ApplyCommittedAt(c, i, n2, h, stop);
      ApplyCommittedFrame(n2, stop);
      g := AcknowledgeAt(c, i, ApplyCommitted(n2, stop).0, h, src, m.prevIndex + |m.entries|, m.round);
    }
  }

  lemma AppendEntriesAt(c: Cluster, h: History, p: Packet, f: Faults) returns (g: History)
    requires Inv(c, h) && p.src in c && p.dst in c && p in c[p.src].sent && p.msg.AppendEntries?
    ensures At(c, p.dst, HandleAppendEntries(c[p.dst], p.src, p.msg, f), g) && Extends(h, g)
  {
    hide At, NodeOk, HistoryOk;
    var i, m := p.dst, p.msg;
    var n := c[i];
    Enter(c, i, h);
    SenderOk(c, i, n, h, p);
    g := h;
    if m.term < n.term {
      RefuseAt(c, i, n, h, p.src, AppendReply(n.term, false, 0, m.round, 0));
    } else {
      var (n1, ok, w) := Follow(n, m, f.writes);
      FollowAt(c, i, n, h, m, f.writes);
      if ok {
        if !PrefixMatches(n1.log, m) {
          RefuseAt(c, i, n1, h, p.src, AppendReply(n1.term, false, 0, m.round, |n1.log|));
        } else {
          g := AcceptAt(c, i, n1, h, p.src, m, w, f.stop);
        }
      }
    }
  }

  lemma AppendReplyAt(c: Cluster, h: History, p: Packet, f: Faults)
    requires Inv(c, h) && p.src in c && p.dst in c && p in c[p.src].sent && p.msg.AppendReply?
    ensures At(c, p.dst, HandleAppendReply(c[p.dst], p.src, p.msg, f), h)
  {
    hide At, NodeOk, HistoryOk;
    var i, m, from := p.dst, p.msg, p.src;
    var n := c[i];
    Enter(c, i, h);
    SenderOk(c, i, n, h, p);
    if m.term > n.term {
      BecomeFollowerAt(c, i, n, h, m.term, None, f.writes);
    } else if n.role == Leader && m.term == n.term {
      NodeOf(c, i, n, h);
      if m.success {
        var n0 := Progress(n, from, m.matchIndex, m.round);
        ProgressOk(h, c.Keys, n, from, m.matchIndex, m.round);
        Shift(c, i, n, h, n0);
        AdvanceCommitAt(c, i, n0, h, f.stop);
        AdvanceCommitFrame(n0, f.stop);
        var (n1, ok) := AdvanceCommit(n0, f.stop);
        if ok {
          EvaluateAt(c, i, n1, h);
          SendAppendAt(c, i, EvaluateBarriers(n1), h, from);
        }
      } else {
        var x := Get(n.next, from);
        var n1 := n.(next := n.next[from := if x > 1 then x - 1 else x]);
        NextOk(h, c.Keys, n, n1.next);
        Shift(c, i, n, h, n1);
        SendAppendAt(c, i, n1, h, from);
      }
    }
  }

  // ------------------------------------------------------- local operations

  lemma TickAt(c: Cluster, i: NodeId, h: History, due: bool, f: Faults, stop: nat) returns (g: History)
    requires Inv(c, h) && i in c
    ensures At(c, i, Tick(c[i], due, f, stop), g) && Extends(h, g)
  {
    hide At, NodeOk, HistoryOk;
    var n := c[i];
    Enter(c, i, h);
    g := h;
    if due && n.role == Leader {
      SendHeartbeatsAt(c, i, n, h);
      SendHeartbeatsFrame(n);
      ApplyCommittedAt(c, i, SendHeartbeats(n), g, stop);
    } else if due {
      g := StartElectionAt(c, i, n, h, f);
      ApplyCommittedAt(c, i, StartElection(n, f), g, stop);
    } else {
      ApplyCommittedAt(c, i, n, g, stop);
    }
  }

  lemma PendingAt(c: Cluster, i: NodeId, n: Node, h: History, data: string)
    requires At(c, i, n, h) && n.role == Leader && |n.log| > 0
    requires n.log[|n.log| - 1] == Entry(|n.log|, n.term, data)
    ensures At(c, i, n.(pending := n.pending[|n.log| := Entry(|n.log|, n.term, data)]), h)
  {
    hide At, NodeOk, HistoryOk;
    NodeOf(c, i, n, h);
    var n' := n.(pending := n.pending[|n.log| := Entry(|n.log|, n.term, data)]);
    PendingOk(h, c.Keys, n, data);
    Shift(c, i, n, h, n');
  }

  lemma ProposeAt(c: Cluster, i: NodeId, h: History, data: string, f: Faults) returns (g: History)
    requires Inv(c, h) && i in c
    ensures At(c, i, Propose(c[i], data, f).0, g) && Extends(h, g)
  {
    hide At, NodeOk, HistoryOk;
    var n := c[i];
    Enter(c, i, h);
    g := h;
    if n.role == Leader && f.writes > 0 && n.term > 0 {
      g := AppendOwnAt(c, i, n, h, data);
      var n1 := AppendOwn(n, data);
      PendingAt(c, i, n1, g, data);
      var n2 := n1.(pending := n1.pending[|n.log| + 1 := Entry(|n.log| + 1, n.term, data)]);
      AdvanceCommitAt(c, i, n2, g, f.stop);
      AdvanceCommitFrame(n2, f.stop);
      SendHeartbeatsAt(c, i, AdvanceCommit(n2, f.stop).0, g);
    }
  }

  lemma ReadBarrierAt(c: Cluster, i: NodeId, h: History)
    requires Inv(c, h) && i in c
    ensures At(c, i, ReadBarrier(c[i]).0, h)
  {
    hide At, NodeOk, HistoryOk;
    var n := c[i];
    Enter(c, i, h);
    if n.role == Leader {
      SendHeartbeatsAt(c, i, n, h);
      var n1, n' := SendHeartbeats(n), ReadBarrier(n).0;
      NodeOf(c, i, n1, h);
      BarriersOk(h, c.Keys, n1, n'.barriers, n'.finished);
      Shift(c, i, n1, h, n');
    }
  }

  lemma RestartAt(c: Cluster, i: NodeId, h: History)
    requires Inv(c, h) && i in c
    ensures At(c, i, Restart(c[i]), h)
  {
    hide At, NodeOk, HistoryOk;
    var n := c[i];
    Enter(c, i, h);
    NodeOf(c, i, n, h);
    RestartOk(h, c.Keys, n);
    Shift(c, i, n, h, Restart(n));
  }

  // ------------------------------------------------------------------ steps

  // Every step keeps the invariant, over a record that only grows.
  lemma StepKeepsInv(c: Cluster, e: Event, h: History) returns (g: History)
    requires Inv(c, h) && Enabled(c, e)
    ensures Inv(Next(c, e), g) && Extends(h, g)
  {
    hide HistoryOk, MembersOk, Extends;
    g := h;
    ExtendsReflexive(h);
    match e
    case Deliver(p, f) =>
      match p.msg {
        case RequestVote(_, _, _, _) => g := RequestVoteAt(c, h, p, f);
        case VoteReply(_, _) => g := VoteReplyAt(c, h, p, f);
        case AppendEntries(_, _, _, _, _, _, _) => g := AppendEntriesAt(c, h, p, f);
        case AppendReply(_, _, _, _, _) => AppendReplyAt(c, h, p, f);
      }
    case Timer(i, due, f, stop) => g := TickAt(c, i, h, due, f, stop);
    case Write(i, data, f) => g := ProposeAt(c, i, h, data, f);
    case Read(i) => ReadBarrierAt(c, i, h);
    case Reboot(i) => RestartAt(c, i, h);
  }

  lemma InitInv(c: Cluster)
    requires Init(c)
    ensures Inv(c, History(map[], map[], map[]))
  {
    var h := History(map[], map[], map[]);
    forall i | i in c ensures c[i].id == i && NodeOk(h, c.Keys, c[i]) {
      assert Fresh(c[i]);
      assert PacketsOk(h, c.Keys, c[i]);
    }
  }
}
