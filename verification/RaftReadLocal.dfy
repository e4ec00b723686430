/**
 Read barriers, member by member: what a leader's heartbeat rounds, match
 indices and barriers keep while a read request is outstanding.
 */
module RaftReadLocal {
  import opened Wrappers
  import opened RaftTypes
  import opened RaftSpec
  import opened RaftFrames
  import opened RaftQuorum

  // A read barrier under observation: leader l of term t opened round r when
  // its log had `len` entries and the members were in the given terms.
  datatype Watch = Watch(l: NodeId, t: nat, r: nat, len: nat, terms: map<NodeId, nat>)

  ghost predicate Shape(ids: set<NodeId>, n: Node) {
    Unique(n.peers) && Members(n.peers) == ids && n.id in ids && n.applied <= n.commit <= |n.log|
  }

  // Rounds, match indices and barriers of one member.
  ghost predicate Pace(n: Node) {
    && (forall p :: p in n.sent && p.msg.AppendEntries? ==>
          && p.msg.term <= n.term
          && (p.msg.term == n.term ==> n.role != Candidate)
          && (p.msg.term == n.term && n.role == Leader ==> p.msg.round <= n.round))
    && (n.role == Leader ==>
          && n.id in n.matched && n.matched[n.id] == |n.log|
          && (forall p :: p in n.matched ==> n.matched[p] <= |n.log|)
          && (forall p :: p in n.acked ==> n.acked[p] <= n.round))
    && (n.barriers != [] ==> n.role == Leader)
    && (forall b :: b in n.barriers ==> b.term == n.term && b.round <= n.round)
    && (forall x :: x in n.finished ==>
          && x.0 <= n.term
          && (x.0 == n.term ==> n.role != Candidate && (n.role == Leader ==> x.1 <= n.round)))
  }

  // Every waiting barrier is behind nothing but its own target.
  ghost predicate Settled(n: Node) {
    forall b :: b in n.barriers ==> n.applied == n.commit || b.target == n.commit
  }

  // A leader's commit index has caught up with its match indices.
  ghost predicate Caught(n: Node) {
    n.role == Leader ==>
      var q := QuorumMatch(n);
      q <= n.commit || q > |n.log| || n.log[q - 1].term != n.term
  }

  // A voting quorum was, at request time, in no later term than the reader's.
  ghost predicate QuorumBehind(w: Watch) {
    |Behind(w)| >= |w.terms.Keys| / 2 + 1
  }

  ghost function Behind(w: Watch): set<NodeId> {
    set f | f in w.terms && w.terms[f] <= w.t
  }

  ghost predicate WatchedLeader(w: Watch, n: Node) {
    && n.round >= w.r && |n.log| >= w.len >= 1
    && (forall y :: w.len - 1 <= y < |n.log| ==> n.log[y].term == w.t)
    && (forall p :: p in n.acked && n.acked[p] >= w.r ==>
          p in w.terms && w.terms[p] <= w.t && Get(n.matched, p) >= w.len)
  }

  ghost predicate Watched(w: Watch, n: Node) {
    && n.id in w.terms && w.l in w.terms && w.terms[w.l] == w.t
    && w.terms[n.id] <= n.term
    && (forall p :: p in n.sent && p.msg.AppendReply? && p.msg.success && p.msg.term == w.t && p.msg.round >= w.r ==>
          p.msg.matchIndex >= w.len && w.terms[n.id] <= w.t)
    && (n.id == w.l ==>
          && (forall p :: p in n.sent && p.msg.AppendEntries? && p.msg.term == w.t && p.msg.round >= w.r ==>
                p.msg.prevIndex + |p.msg.entries| >= w.len)
          && (n.term == w.t ==> n.role != Candidate)
          && (n.role == Leader && n.term == w.t ==> WatchedLeader(w, n))
          && ((w.t, w.r) in n.finished ==> n.applied >= w.len && QuorumBehind(w)))
  }

  ghost predicate Reading(o: Option<Watch>, ids: set<NodeId>, n: Node) {
    match o
    case None => Shape(ids, n) && Pace(n)
    case Some(w) => Shape(ids, n) && Pace(n) && w.terms.Keys == ids && Watched(w, n)
  }

  // ------------------------------------------------------------ the argument

  // A quorum of acknowledgements of the watched round puts the whole log of the
  // request moment below the commit index.
  lemma RoundCommits(w: Watch, ids: set<NodeId>, n: Node)
    requires Shape(ids, n) && Pace(n) && Caught(n) && w.terms.Keys == ids && Watched(w, n)
    requires n.id == w.l && n.role == Leader && n.term == w.t && QuorumAcknowledged(n, w.r)
    ensures n.commit >= w.len && QuorumBehind(w)
  {
    var a := Ackers(n, w.r);
    var full := a + {n.id};
    QuorumAcknowledgedExact(n, w.r);
    MembersCount(n.peers);
    assert n.id !in a;
    assert |full| == |a| + 1;
    assert n.id in Members(n.peers);
    assert full <= Holders(n.peers, n.matched, w.len);
    SubsetCount(full, Holders(n.peers, n.matched, w.len));
    QuorumMatchExact(n, w.len);
    assert full <= Behind(w);
    SubsetCount(full, Behind(w));
    MatchBounded(ids, n);
  }

  lemma MatchBounded(ids: set<NodeId>, n: Node)
    requires Shape(ids, n) && Pace(n) && n.role == Leader
    ensures QuorumMatch(n) <= |n.log|
  {
    QuorumMatchExact(n, |n.log| + 1);
    assert Holders(n.peers, n.matched, |n.log| + 1) == {};
  }

  // ------------------------------------------------------------- role changes

  lemma StepDownReads(o: Option<Watch>, ids: set<NodeId>, n: Node, t: nat, v: Option<NodeId>, leader: Option<NodeId>)
    requires Reading(o, ids, n) && t >= n.term
    ensures Reading(o, ids, StepDown(n.(term := t, votedFor := v), leader))
    ensures StepDown(n.(term := t, votedFor := v), leader).barriers == []
  {
  }

  lemma CampaignReads(o: Option<Watch>, ids: set<NodeId>, n: Node)
    requires Reading(o, ids, n) && n.role != Leader
    ensures Reading(o, ids, Campaign(n)) && Campaign(n).barriers == []
  {
  }

  lemma OfficeReads(o: Option<Watch>, ids: set<NodeId>, n: Node)
    requires Reading(o, ids, n) && n.role == Candidate
    ensures Reading(o, ids, AppendOwn(Crown(n), ""))
  {
    assert n.id in Members(n.peers);
  }

  lemma AbdicateReads(o: Option<Watch>, ids: set<NodeId>, n: Node)
    requires Reading(o, ids, n) && n.role == Candidate
    ensures Reading(o, ids, StepDown(Crown(n), None)) && StepDown(Crown(n), None).barriers == []
  {
  }

  lemma RestartReads(o: Option<Watch>, ids: set<NodeId>, n: Node)
    requires Reading(o, ids, n)
    ensures Reading(o, ids, Restart(n)) && Restart(n).barriers == []
  {
  }

  lemma AppendOwnReads(o: Option<Watch>, ids: set<NodeId>, n: Node, data: string)
    requires Reading(o, ids, n) && n.role == Leader
    ensures Reading(o, ids, AppendOwn(n, data)) && (Settled(n) ==> Settled(AppendOwn(n, data)))
  {
  }

  // ------------------------------------------------------------------ sending

  lemma SendPlainReads(o: Option<Watch>, ids: set<NodeId>, n: Node, to: NodeId, m: Message)
    requires Reading(o, ids, n) && !m.AppendEntries? && !(m.AppendReply? && m.success)
    ensures Reading(o, ids, Send(n, to, m))
  {
  }

  lemma {:induction false} RequestVotesReads(o: Option<Watch>, ids: set<NodeId>, n: Node, k: nat)
    requires Reading(o, ids, n)
    ensures Reading(o, ids, RequestVotesFrom(n, k))
    decreases |n.peers| - k
  {
    hide Reading;
    if k < |n.peers| {
      if n.peers[k] == n.id {
        RequestVotesReads(o, ids, n, k + 1);
      } else {
        var m := RequestVote(n.term, n.id, |n.log|, LastTerm(n.log));
        SendPlainReads(o, ids, n, n.peers[k], m);
        RequestVotesReads(o, ids, Send(n, n.peers[k], m), k + 1);
      }
    }
  }

  // The leader state a heartbeat leaves alone.
  ghost predicate SameWork(n: Node, n': Node) {
    && n'.id == n.id && n'.peers == n.peers && n'.term == n.term && n'.role == n.role && n'.log == n.log
    && n'.commit == n.commit && n'.applied == n.applied && n'.barriers == n.barriers
    && n'.finished == n.finished && n'.acked == n.acked
    && (forall p :: Get(n'.matched, p) == Get(n.matched, p))
  }

  lemma SameWorkKeeps(n: Node, n': Node)
    requires SameWork(n, n')
    ensures Settled(n) ==> Settled(n')
    ensures QuorumMatch(n') == QuorumMatch(n)
    ensures Caught(n) ==> Caught(n')
  {
    assert Matches(n'.peers, n'.matched) == Matches(n.peers, n.matched);
  }

  lemma TrackPeerReads(o: Option<Watch>, ids: set<NodeId>, n: Node, to: NodeId)
    requires Reading(o, ids, n)
    ensures Reading(o, ids, TrackPeer(n, to)) && SameWork(n, TrackPeer(n, to))
  {
    var n' := TrackPeer(n, to);
    assert forall p :: Get(n'.matched, p) == Get(n.matched, p);
  }

  lemma SendRequestReads(o: Option<Watch>, ids: set<NodeId>, n: Node, to: NodeId, prev: nat)
    requires Reading(o, ids, n) && n.role == Leader && prev <= |n.log|
    ensures Reading(o, ids, Send(n, to, AppendRequest(n, prev)))
  {
    var n' := Send(n, to, AppendRequest(n, prev));
    assert AppendRequest(n, prev).prevIndex + |AppendRequest(n, prev).entries| == |n.log|;
    assert forall p :: p in n'.sent ==> p in n.sent || p == Packet(n.id, to, AppendRequest(n, prev));
  }

  lemma SendAppendReads(o: Option<Watch>, ids: set<NodeId>, n: Node, to: NodeId)
    requires Reading(o, ids, n) && n.role == Leader
    ensures Reading(o, ids, SendAppend(n, to)) && SameWork(n, SendAppend(n, to))
    ensures SendAppend(n, to).round == n.round
  {
    hide Reading;
    TrackPeerReads(o, ids, n, to);
    var n1 := TrackPeer(n, to);
    var next := n1.next[to];
    if next != 0 && next - 1 <= |n.log| { SendRequestReads(o, ids, n1, to, next - 1); }
  }

  lemma {:induction false} SendFromReads(o: Option<Watch>, ids: set<NodeId>, n: Node, k: nat)
    requires Reading(o, ids, n) && n.role == Leader
    ensures Reading(o, ids, SendFrom(n, k)) && SameWork(n, SendFrom(n, k))
    ensures SendFrom(n, k).round == n.round
    decreases |n.peers| - k
  {
    hide Reading;
    if k < |n.peers| {
      if n.peers[k] == n.id {
        SendFromReads(o, ids, n, k + 1);
      } else {
        SendAppendReads(o, ids, n, n.peers[k]);
        SendFromReads(o, ids, SendAppend(n, n.peers[k]), k + 1);
      }
    }
  }

  lemma NextRoundReads(o: Option<Watch>, ids: set<NodeId>, n: Node)
    requires Reading(o, ids, n)
    ensures Reading(o, ids, n.(round := n.round + 1))
  {
  }

  lemma HeartbeatsRead(o: Option<Watch>, ids: set<NodeId>, n: Node)
    requires Reading(o, ids, n) && n.role == Leader
    ensures Reading(o, ids, SendHeartbeats(n)) && SameWork(n, SendHeartbeats(n))
    ensures SendHeartbeats(n).round == n.round + 1
  {
    hide Reading;
    NextRoundReads(o, ids, n);
    SendFromReads(o, ids, n.(round := n.round + 1), 0);
  }

  // ---------------------------------------------------------- commit and apply

  lemma {:induction false} WaitingSubset(n: Node, bs: seq<Barrier>)
    ensures forall b :: b in Waiting(n, bs) ==> b in bs
  {
    if |bs| > 0 { WaitingSubset(n, bs[1..]); }
  }

  lemma EvaluateReads(o: Option<Watch>, ids: set<NodeId>, n: Node)
    requires Reading(o, ids, n) && Caught(n) && Settled(n)
    ensures Reading(o, ids, EvaluateBarriers(n))
    ensures Caught(EvaluateBarriers(n)) && Settled(EvaluateBarriers(n))
  {
    var n' := EvaluateBarriers(n);
    WaitingSubset(n, n.barriers);
    if o.Some? && n.id == o.value.l {
      var w := o.value;
      if (w.t, w.r) in Served(n, n.barriers) {
        var b :| b in n.barriers && Ready(n, b) && (b.term, b.round) == (w.t, w.r);
        RoundCommits(w, ids, n);
      }
    }
  }

  lemma ApplyNextReads(o: Option<Watch>, ids: set<NodeId>, n: Node)
    requires Reading(o, ids, n) && Caught(n) && n.applied < n.commit
    ensures Reading(o, ids, ApplyNext(n)) && Caught(ApplyNext(n))
  {
    hide QuorumIndex;
    var n' := ApplyNext(n);
    assert n' == n.(applied := n'.applied, pending := n'.pending, acknowledged := n'.acknowledged);
  }

  lemma ApplyStopsReads(o: Option<Watch>, ids: set<NodeId>, n: Node)
    requires Reading(o, ids, n) && Caught(n)
    ensures var n' := DropPending(n, n.applied + 1).(barriers := []);
            Reading(o, ids, n') && Caught(n') && Settled(n')
  {
  }

  lemma IndicesInOrder(o: Option<Watch>, ids: set<NodeId>, n: Node)
    requires Reading(o, ids, n)
    ensures n.applied <= n.commit <= |n.log| && (n.applied == n.commit ==> Settled(n))
  {
    hide Pace, Watched;
  }

  lemma AppliedNext(n: Node)
    ensures ApplyNext(n).commit == n.commit && ApplyNext(n).applied == n.applied + 1
  {
  }

  lemma {:induction false} ApplyCommittedReads(o: Option<Watch>, ids: set<NodeId>, n: Node, stop: nat)
    requires Reading(o, ids, n) && Caught(n)
    ensures var n' := ApplyCommitted(n, stop).0;
            Reading(o, ids, n') && Caught(n') && Settled(n')
    decreases n.commit - n.applied
  {
    hide Reading, Caught, Settled, EvaluateBarriers, DropPending, ApplyNext;
    IndicesInOrder(o, ids, n);
    if n.applied >= n.commit {
      EvaluateReads(o, ids, n);
    } else if n.applied + 1 > stop {
      ApplyStopsReads(o, ids, n);
    } else {
      AppliedNext(n);
      ApplyNextReads(o, ids, n);
      ApplyCommittedReads(o, ids, ApplyNext(n), stop);
    }
  }

  lemma CommitReads(o: Option<Watch>, ids: set<NodeId>, n: Node, c: nat)
    requires Reading(o, ids, n) && n.commit <= c <= |n.log|
    ensures Reading(o, ids, n.(commit := c))
    ensures n.role != Leader || c == QuorumMatch(n) ==> Caught(n.(commit := c))
  {
  }

  lemma AdvanceCommitReads(o: Option<Watch>, ids: set<NodeId>, n: Node, stop: nat)
    requires Reading(o, ids, n) && n.role == Leader && Settled(n)
    ensures var n' := AdvanceCommit(n, stop).0;
            Reading(o, ids, n') && Caught(n') && Settled(n')
  {
    hide Reading;
    var q := QuorumMatch(n);
    if q <= n.commit || q > |n.log| || n.log[q - 1].term != n.term {
    } else {
      var n1 := n.(commit := q);
      CommitReads(o, ids, n, q);
      hide Caught, Settled;
      ApplyCommittedReads(o, ids, n1, stop);
      ApplyCommittedFrame(n1, stop);
      var n2 := ApplyCommitted(n1, stop).0;
      HeartbeatsRead(o, ids, n2);
      SameWorkKeeps(n2, SendHeartbeats(n2));
    }
  }

  lemma ProgressReads(o: Option<Watch>, ids: set<NodeId>, n: Node, from: NodeId, m: nat, round: nat)
    requires Reading(o, ids, n) && n.role == Leader && from in ids && from != n.id
    requires m <= |n.log| && round <= n.round
    requires o.Some? && n.id == o.value.l && n.term == o.value.t && round >= o.value.r ==>
               m >= o.value.len && o.value.terms[from] <= o.value.t
    ensures Reading(o, ids, Progress(n, from, m, round)) && (Settled(n) ==> Settled(Progress(n, from, m, round)))
  {
  }

  // ---------------------------------------------------------------- followers

  lemma FollowerLogReads(o: Option<Watch>, ids: set<NodeId>, n: Node, n': Node)
    requires Reading(o, ids, n) && n.role == Follower && n.commit <= |n'.log|
    requires n' == n.(log := n'.log, pending := n'.pending)
    ensures Reading(o, ids, n')
  {
  }

  lemma AcknowledgeReads(o: Option<Watch>, ids: set<NodeId>, n: Node, to: NodeId, k: nat, round: nat)
    requires Reading(o, ids, n)
    requires o.Some? && n.term == o.value.t && round >= o.value.r ==> k >= o.value.len
    ensures Reading(o, ids, Send(n, to, AppendReply(n.term, true, k, round, 0)))
  {
  }

  lemma BookReads(o: Option<Watch>, ids: set<NodeId>, n: Node, n': Node)
    requires Reading(o, ids, n)
    requires n' == n.(leader := n'.leader, votedFor := n'.votedFor, votes := n'.votes, next := n'.next,
                      pending := n'.pending, acknowledged := n'.acknowledged)
    ensures Reading(o, ids, n') && (Caught(n) ==> Caught(n')) && (Settled(n) ==> Settled(n'))
  {
  }
}
