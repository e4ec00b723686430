/**
 What every handler answers and leaves behind, said of the request and the state
 before it alone. Safety would also hold of members that never grant a vote or
 never reply; these lemmas say that they do, when, and with what.
 */
module RaftAnswers {
  import opened Wrappers
  import opened RaftTypes
  import opened RaftSpec
  import opened RaftFrames
  import opened RaftQuorum

  // ------------------------------------------------------------------- votes

  // (lastTerm, lastIndex) is lexicographically at least the log's own.
  predicate AtLeast(lastTerm: nat, lastIndex: nat, log: Log) {
    var own := if log == [] then 0 else log[|log| - 1].term;
    lastTerm > own || (lastTerm == own && lastIndex >= |log|)
  }

  predicate MayVote(n: Node, m: Message)
    requires m.RequestVote?
  {
    AtLeast(m.lastTerm, m.lastIndex, n.log) &&
    (m.term > n.term || n.votedFor == None || n.votedFor == Some(m.candidate))
  }

  /** A vote is granted exactly to the first candidate of the term whose log is not behind. */
  lemma VoteAnswer(n: Node, from: NodeId, m: Message, f: Faults)
    requires m.RequestVote? && m.term >= n.term
    requires f.writes >= if m.term > n.term then 2 else 1
    ensures var n' := HandleRequestVote(n, from, m, f);
            var granted := MayVote(n, m);
            && n'.sent == n.sent + [Packet(n.id, from, VoteReply(m.term, granted))]
            && n'.id == n.id && n'.term == m.term && n'.log == n.log && n'.commit == n.commit
            && n'.role == (if m.term > n.term then Follower else n.role)
            && n'.votedFor == (if granted then Some(m.candidate) else if m.term > n.term then None else n.votedFor)
  {
    hide BecomeFollower;
    FollowerFields(n, m.term, None, f.writes);
    LogIsBehind(n.log, m.lastIndex, m.lastTerm);
    hide UpToDate, AtLeast;
  }

  lemma LogIsBehind(log: Log, lastIndex: nat, lastTerm: nat)
    ensures UpToDate(log, lastIndex, lastTerm) <==> AtLeast(lastTerm, lastIndex, log)
  {
  }

  // Stepping down keeps the log, the indices and the outbox.
  lemma FollowerFields(n: Node, t: nat, leader: Option<NodeId>, w: nat)
    ensures var (n', ok, left) := BecomeFollower(n, t, leader, w);
            && n'.id == n.id && n'.peers == n.peers && n'.log == n.log && n'.sent == n.sent
            && n'.commit == n.commit && n'.applied == n.applied
            && (if t > n.term && w == 0 then !ok && n' == n
                else ok && n'.role == Follower && n'.leader == leader && n'.votes == {}
                     && n'.term == Max(t, n.term) && n'.votedFor == (if t > n.term then None else n.votedFor)
                     && left == (if t > n.term then w - 1 else w))
            && (n.role == Leader && ok ==> n'.pending == map[] && n'.barriers == [])
            && (n.role != Leader ==> n'.pending == n.pending && n'.barriers == n.barriers)
  {
  }

  /** A request of an earlier term is refused; a write that fails leaves no reply behind. */
  lemma VoteRefused(n: Node, from: NodeId, m: Message, f: Faults)
    requires m.RequestVote?
    ensures var n' := HandleRequestVote(n, from, m, f);
            && (m.term < n.term ==> n' == n.(sent := n.sent + [Packet(n.id, from, VoteReply(n.term, false))]))
            && (m.term > n.term && f.writes == 0 ==> n' == n)
            && (m.term > n.term && f.writes == 1 && MayVote(n, m) ==>
                  n'.sent == n.sent && n'.term == m.term && n'.votedFor == None && n'.role == Follower)
            && (m.term == n.term && f.writes == 0 && MayVote(n, m) ==> n' == n)
            && (m.term == n.term && !MayVote(n, m) ==>
                  n' == n.(sent := n.sent + [Packet(n.id, from, VoteReply(n.term, false))]))
  {
    hide BecomeFollower;
    FollowerFields(n, m.term, None, f.writes);
    LogIsBehind(n.log, m.lastIndex, m.lastTerm);
    hide UpToDate, AtLeast;
  }

  // --------------------------------------------------------------- elections

  // The packets a member has handed out since `before`.
  function New(before: Node, after: Node): seq<Packet> {
    if |before.sent| <= |after.sent| then after.sent[|before.sent|..] else []
  }

  ghost predicate ToEveryOther(n: Node, packets: seq<Packet>, msg: Message) {
    && (forall p :: p in packets ==> p.src == n.id && p.dst in n.peers && p.dst != n.id && p.msg == msg)
    && (forall q :: q in n.peers && q != n.id ==> Packet(n.id, q, msg) in packets)
  }

  function LogTerm(log: Log, i: nat): nat
    requires i <= |log|
  {
    if i == 0 then 0 else log[i - 1].term
  }

  lemma {:induction false} RequestsSent(n: Node, k: nat)
    requires k <= |n.peers|
    ensures var n', msg := RequestVotesFrom(n, k), RequestVote(n.term, n.id, |n.log|, LogTerm(n.log, |n.log|));
            && n' == n.(sent := n'.sent) && n.sent <= n'.sent
            && (forall p :: p in New(n, n') ==>
                  p.src == n.id && p.dst in n.peers[k..] && p.dst != n.id && p.msg == msg)
            && (forall q :: q in n.peers[k..] && q != n.id ==> Packet(n.id, q, msg) in New(n, n'))
    decreases |n.peers| - k
  {
    if k < |n.peers| {
      assert n.peers[k..] == [n.peers[k]] + n.peers[k + 1..];
      if n.peers[k] == n.id {
        RequestsSent(n, k + 1);
      } else {
        var msg := RequestVote(n.term, n.id, |n.log|, LogTerm(n.log, |n.log|));
        var n1 := Send(n, n.peers[k], msg);
        RequestsSent(n1, k + 1);
        NewCons(n, n1, RequestVotesFrom(n, k), Packet(n.id, n.peers[k], msg));
        hide New, RequestVotesFrom;
      }
    }
  }

  /** An election raises the term, votes for itself and asks every other member once for its vote. */
  lemma ElectionAsks(n: Node, f: Faults)
    requires f.writes > 0 && |n.peers| >= 2
    ensures var n' := StartElection(n, f);
            && n' == n.(role := Candidate, term := n.term + 1, votedFor := Some(n.id), leader := None,
                        votes := {n.id}, sent := n'.sent)
            && n.sent <= n'.sent
            && ToEveryOther(n, New(n, n'), RequestVote(n.term + 1, n.id, |n.log|, LogTerm(n.log, |n.log|)))
  {
    var n1 := Campaign(n);
    RequestsSent(n1, 0);
    assert n1.peers[0..] == n1.peers;
    hide RequestVotesFrom;
    assert New(n, RequestVotesFrom(n1, 0)) == New(n1, RequestVotesFrom(n1, 0));
  }

  lemma ElectionFails(n: Node)
    ensures forall stop :: StartElection(n, Faults(0, stop)) == n.(leader := None)
  {
  }

  // Nobody else takes office.
  lemma OnlyCandidates(n: Node, f: Faults)
    ensures n.role != Candidate ==> BecomeLeader(n, f) == n
  {
  }

  /** A member without others elects itself, with one write for the vote and one for its entry. */
  lemma SoleMember(n: Node, f: Faults)
    requires f.writes > 0 && |n.peers| < 2
    ensures var n' := StartElection(n, f);
            && n'.term == n.term + 1 && n'.votedFor == Some(n.id)
            && (if f.writes > 1 then n'.role == Leader && n'.log == n.log + [Entry(|n.log| + 1, n.term + 1, "")]
                else n'.role == Follower && n'.log == n.log && n'.sent == n.sent)
  {
    hide BecomeLeader;
    OfficeTaken(Campaign(n), Faults(f.writes - 1, f.stop));
  }

  /** Votes are counted as a set; the one that makes a majority puts the candidate into office. */
  lemma VoteCounted(n: Node, from: NodeId, m: Message, f: Faults)
    requires m.VoteReply? && m.term <= n.term
    ensures var n', votes := HandleVoteReply(n, from, m, f), n.votes + {from};
            if n.role != Candidate || m.term < n.term || !m.granted then n' == n
            else if 2 * |votes| <= |n.peers| then n' == n.(votes := votes)
            else if f.writes > 0 && n.term > 0 then
              n'.role == Leader && n'.leader == Some(n.id) && n'.term == n.term && n'.votedFor == n.votedFor
              && n'.log == n.log + [Entry(|n.log| + 1, n.term, "")]
            else n'.role == Follower && n'.term == n.term && n'.log == n.log && n'.sent == n.sent
  {
    var n1 := n.(votes := n.votes + {from});
    if n.role == Candidate {
      OfficeTaken(n1, f);
    }
  }

  lemma OfficeTaken(n: Node, f: Faults)
    requires n.role == Candidate
    ensures var n' := BecomeLeader(n, f);
            if f.writes > 0 && n.term > 0 then
              n'.role == Leader && n'.leader == Some(n.id) && n'.term == n.term && n'.votedFor == n.votedFor
              && n'.log == n.log + [Entry(|n.log| + 1, n.term, "")]
            else n'.role == Follower && n'.term == n.term && n'.votedFor == n.votedFor && n'.log == n.log
                 && n'.sent == n.sent
                 && forall p :: p in n.peers ==> Get(n'.matched, p) == if p == n.id then |n.log| else 0
  {
    hide AdvanceCommit, SendHeartbeats;
    var n1 := AppendOwn(Crown(n), "");
    SendHeartbeatsFrame(n1);
    AdvanceCommitFrame(SendHeartbeats(n1), f.stop);
  }

  /**
   Taking office in a group of three or more: the new leader's first entry goes to
   every other member, and nothing is committed yet.
   */
  lemma LeaderStarts(n: Node, f: Faults)
    requires n.role == Candidate && f.writes > 0 && n.term > 0
    requires Unique(n.peers) && n.id in n.peers && |n.peers| >= 3
    ensures var n', e := BecomeLeader(n, f), Entry(|n.log| + 1, n.term, "");
            && n' == n.(role := Leader, leader := Some(n.id), log := n.log + [e], round := 1, acked := map[],
                        next := n'.next, matched := n'.matched, sent := n'.sent)
            && (forall p :: p in n.peers ==>
                  NextOf(n', p) == (if p == n.id then |n.log| + 2 else |n.log| + 1)
                  && Get(n'.matched, p) == (if p == n.id then |n.log| + 1 else 0))
            && NextInLog(n') && n.sent <= n'.sent
            && (forall q :: q in n.peers && q != n.id ==>
                  Packet(n.id, q, AppendEntries(n.term, n.id, |n.log|, LogTerm(n.log, |n.log|), [e], n.commit, 1)) in n'.sent)
  {
    hide BecomeLeader, SendHeartbeats, Crown, AppendOwn, Sent, NextInLog, NextOf;
    var n1, e := AppendOwn(Crown(n), ""), Entry(|n.log| + 1, n.term, "");
    OfficeTables(n);
    HeartbeatsSent(n1);
    LeaderBeats(n, f);
    var n2 := SendHeartbeats(n1);
    SameNextInLog(n1, n2);
    forall q | q in n.peers && q != n.id
      ensures Packet(n.id, q, AppendEntries(n.term, n.id, |n.log|, LogTerm(n.log, |n.log|), [e], n.commit, 1)) in n2.sent
    {
      FirstRequest(n, n1, n2, q);
    }
  }

  // The commit attempt that ends taking office finds only the leader's own entry.
  lemma LeaderBeats(n: Node, f: Faults)
    requires n.role == Candidate && f.writes > 0 && n.term > 0
    requires Unique(n.peers) && n.id in n.peers && |n.peers| >= 3
    ensures BecomeLeader(n, f) == SendHeartbeats(AppendOwn(Crown(n), ""))
  {
    hide SendHeartbeats, AdvanceCommit, Crown, AppendOwn, NextInLog, NextOf, Sent;
    var n1 := AppendOwn(Crown(n), "");
    OfficeTables(n);
    HeartbeatsSent(n1);
    OnlyOwnHeld(SendHeartbeats(n1));
    CommitRule(SendHeartbeats(n1), 0, f.stop);
  }

  lemma SameNextInLog(n: Node, n': Node)
    requires NextInLog(n) && n'.log == n.log && forall p :: NextOf(n', p) == NextOf(n, p)
    ensures NextInLog(n')
  {
    forall p | p in n'.next ensures 1 <= n'.next[p] <= |n'.log| + 1 {
      assert NextOf(n', p) == NextOf(n, p);
    }
  }

  lemma OfficeTables(n: Node)
    requires n.role == Candidate && n.id in n.peers
    ensures var n1 := AppendOwn(Crown(n), "");
            && n1 == n.(role := Leader, leader := Some(n.id), log := n.log + [Entry(|n.log| + 1, n.term, "")],
                        round := 0, acked := map[], next := n1.next, matched := n1.matched)
            && (forall p :: p in n.peers ==>
                  NextOf(n1, p) == (if p == n.id then |n.log| + 2 else |n.log| + 1)
                  && Get(n1.matched, p) == (if p == n.id then |n.log| + 1 else 0))
            && NextInLog(n1)
  {
  }

  lemma FirstRequest(n: Node, n1: Node, n2: Node, q: NodeId)
    requires n1.log == n.log + [Entry(|n.log| + 1, n.term, "")] && n1.id == n.id && n1.peers == n.peers
    requires n1.term == n.term && n1.commit == n.commit && n1.round == 0 && q in n.peers && q != n.id
    requires NextInLog(n1) && NextOf(n1, q) == |n.log| + 1
    requires Sent(n1.(round := 1), n1.peers, New(n1, n2))
    ensures Packet(n.id, q, AppendEntries(n.term, n.id, |n.log|, LogTerm(n.log, |n.log|),
                                          [Entry(|n.log| + 1, n.term, "")], n.commit, 1)) in n2.sent
  {
    var m := n1.(round := 1);
    assert NextOf(m, q) == |n.log| + 1;
    assert Packet(m.id, q, RequestAt(m, NextOf(m, q), m.round)) in New(n1, n2);
    assert n1.log[|n.log|..] == [Entry(|n.log| + 1, n.term, "")];
    assert LogTerm(n1.log, |n.log|) == LogTerm(n.log, |n.log|);
  }

  lemma OnlyOwnHeld(n: Node)
    requires Unique(n.peers) && n.id in n.peers && |n.peers| >= 3
    requires forall p :: p in n.peers && p != n.id ==> Get(n.matched, p) == 0
    ensures QuorumHolds(n, 0) && !QuorumHolds(n, 1)
  {
    MembersCount(n.peers);
    assert Holders(n.peers, n.matched, 0) == Members(n.peers);
    SubsetCount(Holders(n.peers, n.matched, 1), {n.id});
  }

  // A higher term in any reply turns the member into a follower of that term.
  lemma HigherTermFollows(n: Node, from: NodeId, m: Message, f: Faults)
    requires (m.VoteReply? || m.AppendReply?) && m.term > n.term
    ensures var n' := HandleMessage(n, from, m, f);
            if f.writes == 0 then n' == n
            else n'.term == m.term && n'.votedFor == None && n'.role == Follower && n'.leader == None
                 && n'.log == n.log && n'.sent == n.sent && n'.commit == n.commit
                 && (n.role == Leader ==> n'.pending == map[] && n'.barriers == [])
  {
  }

  // ------------------------------------------------------------- replication

  // The request for a peer that is taken to hold everything before index `x`.
  function RequestAt(n: Node, x: nat, r: nat): Message
    requires 1 <= x <= |n.log| + 1
  {
    AppendEntries(n.term, n.id, x - 1, LogTerm(n.log, x - 1), n.log[x - 1..], n.commit, r)
  }

  // Where the next request for a peer begins; one not known yet gets what comes next.
  function NextOf(n: Node, p: NodeId): nat {
    if p in n.next then n.next[p] else |n.log| + 1
  }

  predicate NextInLog(n: Node) {
    forall p :: p in n.next ==> 1 <= n.next[p] <= |n.log| + 1
  }

  // The same next index and match index for every peer.
  ghost predicate KeepsTables(n: Node, n': Node) {
    forall p :: Get(n'.matched, p) == Get(n.matched, p) && NextOf(n', p) == NextOf(n, p)
                && (p in n.next ==> p in n'.next)
  }

  /** A request carries everything from the peer's next index on. */
  lemma AppendSent(n: Node, to: NodeId)
    requires 1 <= NextOf(n, to) <= |n.log| + 1
    ensures var n' := SendAppend(n, to);
            && n'.sent == n.sent + [Packet(n.id, to, RequestAt(n, NextOf(n, to), n.round))]
            && n' == n.(next := n.next[to := NextOf(n, to)], matched := n'.matched, sent := n'.sent)
            && (forall p :: Get(n'.matched, p) == Get(n.matched, p))
  {
    hide TrackPeer;
    PeerTracked(n, to);
  }

  lemma PeerTracked(n: Node, to: NodeId)
    ensures var n1 := TrackPeer(n, to);
            && n1.next == n.next[to := NextOf(n, to)] && n1 == n.(next := n1.next, matched := n1.matched)
            && (forall p :: Get(n1.matched, p) == Get(n.matched, p))
  {
    assert to in n.next ==> n.next[to := n.next[to]] == n.next;
  }

  ghost predicate Sent(n: Node, peers: seq<NodeId>, packets: seq<Packet>)
    requires NextInLog(n)
  {
    && (forall p :: p in packets ==>
          p.src == n.id && p.dst in peers && p.dst != n.id && p.msg == RequestAt(n, NextOf(n, p.dst), n.round))
    && (forall q :: q in peers && q != n.id ==> Packet(n.id, q, RequestAt(n, NextOf(n, q), n.round)) in packets)
  }

  lemma {:induction false} AppendsSent(n: Node, k: nat)
    requires k <= |n.peers| && NextInLog(n)
    ensures var n' := SendFrom(n, k);
            && n.sent <= n'.sent && Sent(n, n.peers[k..], New(n, n'))
            && n' == n.(next := n'.next, matched := n'.matched, sent := n'.sent)
            && KeepsTables(n, n')
    decreases |n.peers| - k
  {
    hide SendAppend, Sent, RequestAt;
    if k < |n.peers| {
      var to := n.peers[k];
      assert n.peers[k..] == [to] + n.peers[k + 1..];
      if to == n.id {
        AppendsSent(n, k + 1);
        SentSkips(n, to, n.peers[k + 1..], New(n, SendFrom(n, k)));
      } else {
        AppendSent(n, to);
        var n1 := SendAppend(n, to);
        AppendsSent(n1, k + 1);
        var n' := SendFrom(n1, k + 1);
        NewCons(n, n1, n', Packet(n.id, to, RequestAt(n, NextOf(n, to), n.round)));
        SentCons(n, n1, to, n.peers[k + 1..], New(n1, n'));
      }
    } else {
      SentNone(n);
      assert n.peers[k..] == [];
    }
  }

  lemma SentNone(n: Node)
    requires NextInLog(n)
    ensures Sent(n, [], New(n, n))
  {
  }

  lemma SentSkips(n: Node, to: NodeId, peers: seq<NodeId>, packets: seq<Packet>)
    requires NextInLog(n) && to == n.id && Sent(n, peers, packets)
    ensures Sent(n, [to] + peers, packets)
  {
  }

  lemma NewCons(n: Node, n1: Node, n': Node, p: Packet)
    requires n1.sent == n.sent + [p] && n1.sent <= n'.sent
    ensures n.sent <= n'.sent && New(n, n') == [p] + New(n1, n')
  {
  }

  lemma SentCons(n: Node, n1: Node, to: NodeId, peers: seq<NodeId>, packets: seq<Packet>)
    requires NextInLog(n) && NextInLog(n1) && to != n.id
    requires n1 == n.(next := n1.next, matched := n1.matched, sent := n1.sent)
    requires forall p :: NextOf(n1, p) == NextOf(n, p)
    requires Sent(n1, peers, packets)
    ensures Sent(n, [to] + peers, [Packet(n.id, to, RequestAt(n, NextOf(n, to), n.round))] + packets)
  {
  }

  /** A heartbeat is one request to every other member, all under a new round. */
  lemma HeartbeatsSent(n: Node)
    requires NextInLog(n)
    ensures var n' := SendHeartbeats(n);
            && n.sent <= n'.sent && Sent(n.(round := n.round + 1), n.peers, New(n, n'))
            && n' == n.(round := n.round + 1, next := n'.next, matched := n'.matched, sent := n'.sent)
            && KeepsTables(n, n')
  {
    hide SendFrom;
    var n1 := n.(round := n.round + 1);
    AppendsSent(n1, 0);
    assert n1.peers[0..] == n1.peers;
    assert New(n, SendFrom(n1, 0)) == New(n1, SendFrom(n1, 0));
  }

  // ------------------------------------------------------ applying and reading

  // A quorum, the member included, has echoed the barrier's round, and the
  // state machine has reached its index.
  ghost predicate Answerable(n: Node, b: Barrier) {
    1 + |Ackers(n, b.round)| >= |n.peers| / 2 + 1 && n.applied >= b.target
  }

  /** Looking at the barriers answers exactly those that are answerable. */
  lemma BarriersAnswered(n: Node)
    requires Unique(n.peers)
    ensures var n' := EvaluateBarriers(n);
            && n' == n.(barriers := n'.barriers, finished := n'.finished)
            && (forall b :: b in n'.barriers <==> b in n.barriers && !Answerable(n, b))
            && (forall t, r :: (t, r) in n'.finished <==>
                  (t, r) in n.finished || exists b :: b in n.barriers && Answerable(n, b) && (b.term, b.round) == (t, r))
  {
    forall b: Barrier
      ensures Ready(n, b) <==> Answerable(n, b)
    {
      QuorumAcknowledgedExact(n, b.round);
    }
    hide Answerable, Ready;
    StillWaiting(n, n.barriers);
  }

  lemma {:induction false} StillWaiting(n: Node, bs: seq<Barrier>)
    ensures forall b :: b in Waiting(n, bs) <==> b in bs && !Ready(n, b)
  {
    hide Ready;
    if bs != [] {
      StillWaiting(n, bs[1..]);
      assert bs == [bs[0]] + bs[1..];
    }
  }

  // How far the state machine gets when it refuses every index above `stop`.
  function Reached(n: Node, stop: nat): nat {
    if n.applied >= n.commit then n.applied else Max(n.applied, Min(n.commit, stop))
  }

  ghost predicate Settles(n: Node, i: nat, e: Entry) {
    i in n.pending && n.pending[i] == e
  }

  lemma {:induction false} ReachedExact(n: Node, stop: nat)
    requires n.commit <= |n.log|
    ensures var (n', ok) := ApplyCommitted(n, stop);
            && n'.applied == Reached(n, stop) && (ok <==> n'.applied >= n.commit)
            && (!ok ==> n'.barriers == [] && n'.finished == n.finished)
    decreases n.commit - n.applied
  {
    if n.applied < n.commit && n.applied + 1 <= stop {
      hide EvaluateBarriers;
      ReachedExact(ApplyNext(n), stop);
    }
  }

  // A commit index past the log stops at the log's end, without dropping anything.
  lemma {:induction false} LogEnds(n: Node, stop: nat)
    requires n.applied <= |n.log| < n.commit && |n.log| <= stop
    ensures var (n', ok) := ApplyCommitted(n, stop);
            n'.applied == |n.log| && !ok && n'.barriers == n.barriers
    decreases n.commit - n.applied
  {
    if n.applied < |n.log| { LogEnds(ApplyNext(n), stop); }
  }

  // The proposals that are still waiting: those applied are gone, and after a
  // refusal also those behind it.
  lemma {:induction false} WaitingExact(n: Node, stop: nat)
    requires n.commit <= |n.log|
    ensures var (n', ok) := ApplyCommitted(n, stop);
            && (forall i :: i in n'.pending <==>
                  i in n.pending && !(n.applied < i <= n'.applied) && (ok || i <= n'.applied))
            && (forall i :: i in n'.pending ==> n'.pending[i] == n.pending[i])
    decreases n.commit - n.applied
  {
    if n.applied < n.commit && n.applied + 1 <= stop {
      var n1 := ApplyNext(n);
      assert ApplyCommitted(n, stop) == ApplyCommitted(n1, stop);
      hide ApplyCommitted;
      WaitingExact(n1, stop);
      ReachedExact(n1, stop);
      assert n1.applied == n.applied + 1 <= ApplyCommitted(n1, stop).0.applied;
      assert forall i :: i in n1.pending <==> i in n.pending && i != n.applied + 1;
    } else {
      ReachedExact(n, stop);
    }
  }

  lemma {:induction false} AnsweredExact(n: Node, stop: nat, e: Entry)
    requires n.commit <= |n.log|
    ensures var n' := ApplyCommitted(n, stop).0;
            e in n'.acknowledged <==>
            e in n.acknowledged || exists i :: n.applied < i <= n'.applied && Settles(n, i, e)
    decreases n.commit - n.applied
  {
    if n.applied < n.commit && n.applied + 1 <= stop {
      var n1, i := ApplyNext(n), n.applied + 1;
      AnsweredExact(n1, stop, e);
      ReachedExact(n1, stop);
      hide ApplyCommitted, EvaluateBarriers;
      AnsweredNext(n, ApplyCommitted(n1, stop).0.applied, e);
    }
  }

  lemma AnsweredNext(n: Node, upTo: nat, e: Entry)
    requires n.applied + 1 <= upTo
    ensures var n1 := ApplyNext(n);
            e in n1.acknowledged || (exists i :: n1.applied < i <= upTo && Settles(n1, i, e)) <==>
            e in n.acknowledged || exists i :: n.applied < i <= upTo && Settles(n, i, e)
  {
    var n1, i := ApplyNext(n), n.applied + 1;
    if e in n1.acknowledged && e !in n.acknowledged { assert Settles(n, i, e); }
    if j :| n.applied < j <= upTo && Settles(n, j, e) {
      if j != i { assert Settles(n1, j, e); }
    }
    if j :| n1.applied < j <= upTo && Settles(n1, j, e) { assert Settles(n, j, e); }
  }

  /** Applying goes on up to the commit index or the first refusal, and answers what it applies. */
  lemma AppliedExact(n: Node, stop: nat)
    requires n.commit <= |n.log|
    ensures var (n', ok) := ApplyCommitted(n, stop);
            && n'.applied == Reached(n, stop) && (ok <==> n'.applied >= n.commit)
            && (forall e :: e in n'.acknowledged <==>
                  e in n.acknowledged || exists i :: n.applied < i <= n'.applied && Settles(n, i, e))
            && (forall i :: i in n'.pending <==>
                  i in n.pending && !(n.applied < i <= n'.applied) && (ok || i <= n'.applied))
            && (forall i :: i in n'.pending ==> n'.pending[i] == n.pending[i])
            && (!ok ==> n'.barriers == [] && n'.finished == n.finished)
  {
    hide ApplyCommitted, Reached, Settles;
    ReachedExact(n, stop);
    WaitingExact(n, stop);
    forall e {
      AnsweredExact(n, stop, e);
    }
  }

  /** A read starts a round of heartbeats and is answered at once or queued for that round. */
  lemma ReadAnswer(n: Node)
    requires Unique(n.peers) && NextInLog(n)
    ensures var (n', res) := ReadBarrier(n);
            if n.role != Leader then n' == n && res == ReadNotLeader
            else
              var b := Barrier(n.term, n.round + 1, n.commit);
              && res == ReadIndex(n.commit, n.term, n.round + 1) && n'.round == n.round + 1
              && n.sent <= n'.sent && Sent(n.(round := n.round + 1), n.peers, New(n, n'))
              && n' == n.(round := n'.round, next := n'.next, matched := n'.matched, sent := n'.sent,
                          barriers := n'.barriers, finished := n'.finished)
              && KeepsTables(n, n')
              && (if Answerable(n, b) then n'.finished == n.finished + {(b.term, b.round)} && n'.barriers == n.barriers
                  else n'.barriers == n.barriers + [b] && n'.finished == n.finished)
  {
    if n.role == Leader {
      hide SendHeartbeats, Sent, QuorumAcknowledged;
      HeartbeatsSent(n);
      var n1 := SendHeartbeats(n);
      var b := Barrier(n.term, n.round + 1, n.commit);
      QuorumAcknowledgedExact(n1, b.round);
      SameAckers(n, n1, b.round);
      assert ReadBarrier(n).0.sent == n1.sent;
    }
  }

  lemma SameAckers(n: Node, n1: Node, r: nat)
    requires n1.peers == n.peers && n1.id == n.id && n1.acked == n.acked
    ensures Ackers(n, r) == Ackers(n1, r)
  {
  }

  // ------------------------------------------------------------------ commit

  ghost predicate QuorumHolds(n: Node, x: nat) {
    |Holders(n.peers, n.matched, x)| >= (|n.peers| - 1) / 2 + 1
  }

  /** The commit index moves to the largest index a quorum holds, if that entry is of this term. */
  lemma CommitRule(n: Node, q: nat, stop: nat)
    requires Unique(n.peers) && |n.peers| > 0 && QuorumHolds(n, q) && !QuorumHolds(n, q + 1)
    ensures var n' := AdvanceCommit(n, stop).0;
            if n.commit < q <= |n.log| && n.log[q - 1].term == n.term
            then n'.commit == q && n'.applied == Reached(n.(commit := q), stop)
            else AdvanceCommit(n, stop) == (n, true)
  {
    QuorumMatchExact(n, q);
    QuorumMatchExact(n, q + 1);
    assert QuorumMatch(n) == q;
    hide ApplyCommitted, SendHeartbeats, QuorumMatch, QuorumHolds;
    if n.commit < q <= |n.log| {
      var n0 := n.(commit := q);
      AppliedExact(n0, stop);
      ApplyCommittedFrame(n0, stop);
      SendHeartbeatsFrame(ApplyCommitted(n0, stop).0);
    }
  }

  /** A new commit index is announced to the others at once, unless applying it was refused. */
  lemma CommitAnnounced(n: Node, q: nat, stop: nat)
    requires Unique(n.peers) && |n.peers| > 0 && QuorumHolds(n, q) && !QuorumHolds(n, q + 1) && NextInLog(n)
    requires n.commit < q <= |n.log| && n.log[q - 1].term == n.term
    ensures var (n', ok) := AdvanceCommit(n, stop);
            && (ok <==> Reached(n.(commit := q), stop) >= q)
            && (if ok && |n.peers| > 1
                then n'.round == n.round + 1 && n.sent <= n'.sent
                     && Sent(n.(commit := q, round := n.round + 1), n.peers, New(n, n'))
                else n'.round == n.round && n'.sent == n.sent)
  {
    QuorumMatchExact(n, q);
    QuorumMatchExact(n, q + 1);
    assert QuorumMatch(n) == q;
    hide ApplyCommitted, SendHeartbeats, QuorumMatch, QuorumHolds, Reached;
    var n0 := n.(commit := q);
    AppliedExact(n0, stop);
    ApplyCommittedFrame(n0, stop);
    var n1 := ApplyCommitted(n0, stop).0;
    assert NextInLog(n1) && n1.sent == n.sent;
    HeartbeatsSent(n1);
    SentAlike(n0.(round := n.round + 1), n1.(round := n.round + 1), n.peers, New(n1, SendHeartbeats(n1)));
  }

  lemma SentAlike(n: Node, n1: Node, peers: seq<NodeId>, packets: seq<Packet>)
    requires NextInLog(n) && NextInLog(n1) && Sent(n1, peers, packets)
    requires n1.id == n.id && n1.term == n.term && n1.log == n.log && n1.commit == n.commit && n1.round == n.round
    requires n1.next == n.next
    ensures Sent(n, peers, packets)
  {
    forall q: NodeId ensures RequestAt(n, NextOf(n, q), n.round) == RequestAt(n1, NextOf(n1, q), n1.round) { }
  }

  // --------------------------------------------------------------- followers

  predicate PrefixFits(log: Log, m: Message)
    requires m.AppendEntries?
  {
    m.prevIndex <= |log| && (m.prevIndex == 0 || log[m.prevIndex - 1].term == m.prevTerm)
  }

  // Entries of the sender's term at the positions they claim, and the same
  // entry wherever the log already has one of that term.
  predicate GoodBatch(log: Log, prev: nat, t: nat, entries: Log) {
    && t > 0
    && (forall k :: 0 <= k < |entries| ==> entries[k].index == prev + k + 1 && entries[k].term == t)
    && (forall k :: 0 <= k < |entries| && prev + k < |log| && log[prev + k].term == t ==> log[prev + k] == entries[k])
  }

  // Nothing to do when everything is there already; otherwise the log is cut
  // at the first difference and continued with the batch.
  function Merged(log: Log, prev: nat, t: nat, entries: Log): Log
    requires prev <= |log|
  {
    if prev + |entries| <= |log| && OfTerm(log, prev, prev + |entries|, t) then log
    else log[..prev] + entries
  }

  predicate OfTerm(log: Log, from: nat, to: nat, t: nat)
    requires to <= |log|
  {
    forall i :: from <= i < to ==> log[i].term == t
  }

  lemma {:induction false} BatchMerged(n: Node, prev: nat, t: nat, entries: Log, k: nat, w: nat)
    requires k <= |entries| && prev + k <= |n.log| && GoodBatch(n.log, prev, t, entries)
    requires n.log[prev..prev + k] == entries[..k] && w >= 2 * (|entries| - k)
    ensures var (n', done) := AppendBatch(n, prev, t, entries, k, w);
            done && n'.log == Merged(n.log, prev, t, entries)
    decreases |entries| - k
  {
    hide AppendBatch, DropPending, Merged;
    if k == |entries| {
      BatchEnds(n, prev, t, entries, w);
      AllThere(n.log, prev, t, entries);
    } else {
      var e, i := entries[k], prev + k;
      assert e.index == i + 1 && e.term == t > 0 && (i < |n.log| && n.log[i].term == t ==> n.log[i] == e);
      hide GoodBatch;
      if i < |n.log| && n.log[i].term == t {
        EntryThere(n, prev, t, entries, k, w);
        OneMoreThere(n.log, prev, t, entries, k);
        BatchMerged(n, prev, t, entries, k + 1, w);
      } else {
        var n2, w2 := EntryTaken(n, prev, t, entries, k, w);
        CutAndOne(n.log, n2.log, prev, t, entries, k);
        BatchMerged(n2, prev, t, entries, k + 1, w2);
      }
    }
  }

  lemma BatchEnds(n: Node, prev: nat, t: nat, entries: Log, w: nat)
    ensures AppendBatch(n, prev, t, entries, |entries|, w) == (n, true)
  {
  }

  lemma EntryThere(n: Node, prev: nat, t: nat, entries: Log, k: nat, w: nat)
    requires k < |entries| && prev + k < |n.log| && n.log[prev + k] == entries[k]
    requires entries[k].index == prev + k + 1 && entries[k].term == t
    ensures AppendBatch(n, prev, t, entries, k, w) == AppendBatch(n, prev, t, entries, k + 1, w)
  {
  }

  // What is stored behind a difference is cut, and the entry appended.
  lemma EntryTaken(n: Node, prev: nat, t: nat, entries: Log, k: nat, w: nat) returns (n2: Node, w2: nat)
    requires k < |entries| && prev + k <= |n.log| && (prev + k < |n.log| ==> n.log[prev + k].term != t)
    requires entries[k].index == prev + k + 1 && entries[k].term == t > 0 && w >= 2
    ensures n2.log == n.log[..prev + k] + [entries[k]] && w2 >= w - 2
    ensures AppendBatch(n, prev, t, entries, k, w) == AppendBatch(n2, prev, t, entries, k + 1, w2)
  {
    var i := prev + k;
    var n1 := if i < |n.log| then DropPending(n.(log := n.log[..i]), i + 1) else n;
    w2 := if i < |n.log| then w - 2 else w - 1;
    n2 := n1.(log := n1.log + [entries[k]]);
    assert i == |n.log| ==> n.log[..i] == n.log;
  }

  lemma AllThere(log: Log, prev: nat, t: nat, entries: Log)
    requires prev + |entries| <= |log| && GoodBatch(log, prev, t, entries)
    requires log[prev..prev + |entries|] == entries[..|entries|]
    ensures Merged(log, prev, t, entries) == log
  {
    forall i | prev <= i < prev + |entries| ensures log[i].term == t {
      assert log[i] == log[prev..prev + |entries|][i - prev] == entries[i - prev];
    }
  }

  lemma OneMoreThere(log: Log, prev: nat, t: nat, entries: Log, k: nat)
    requires k < |entries| && prev + k < |log| && GoodBatch(log, prev, t, entries) && log[prev + k].term == t
    requires log[prev..prev + k] == entries[..k]
    ensures log[prev..prev + k + 1] == entries[..k + 1]
  {
    assert log[prev..prev + k + 1] == log[prev..prev + k] + [log[prev + k]];
    assert entries[..k + 1] == entries[..k] + [entries[k]];
  }

  // After a difference the log ends with the batch so far.
  lemma CutAndOne(log: Log, log2: Log, prev: nat, t: nat, entries: Log, k: nat)
    requires k < |entries| && prev + k <= |log| && GoodBatch(log, prev, t, entries)
    requires prev + k < |log| ==> log[prev + k].term != t
    requires log[prev..prev + k] == entries[..k] && log2 == log[..prev + k] + [entries[k]]
    ensures GoodBatch(log2, prev, t, entries) && prev + k + 1 == |log2|
    ensures log2[prev..prev + k + 1] == entries[..k + 1]
    ensures Merged(log, prev, t, entries) == log[..prev] + entries == Merged(log2, prev, t, entries)
  {
    assert log2[prev..prev + k + 1] == log[prev..prev + k] + [entries[k]] == entries[..k + 1];
    assert log2[..prev] == log[..prev];
    forall j | 0 <= j < |entries| && prev + j < |log2| ensures log2[prev + j] == entries[j] {
      assert log2[prev..prev + k + 1][j] == entries[..k + 1][j];
    }
    assert prev + k < |log| ==> log[prev + k].term != t;
    if k + 1 == |entries| {
      assert log2 == log[..prev] + entries;
    }
  }

  /** An append request that fits is merged, acknowledged up to its end, and its commit index taken over. */
  lemma AppendAnswer(n: Node, from: NodeId, m: Message, f: Faults)
    requires m.AppendEntries? && m.term >= n.term && PrefixFits(n.log, m)
    requires GoodBatch(n.log, m.prevIndex, m.term, m.entries) && f.writes >= 1 + 2 * |m.entries|
    ensures var n' := HandleAppendEntries(n, from, m, f);
            && n'.log == Merged(n.log, m.prevIndex, m.term, m.entries)
            && n'.id == n.id && n'.term == m.term && n'.role == Follower && n'.leader == Some(m.leader)
            && n'.commit == (if m.leaderCommit > n.commit then Min(m.leaderCommit, |n'.log|) else n.commit)
            && n'.sent == n.sent +
                 [Packet(n.id, from, AppendReply(m.term, true, m.prevIndex + |m.entries|, m.round, 0))]
            && (n.commit <= |n'.log| ==> n'.applied == Reached(n.(commit := n'.commit), f.stop))
  {
    hide AppendBatch, ApplyCommitted, BecomeFollower, Merged, GoodBatch;
    FollowFields(n, m, f.writes);
    var (n1, ok, w) := Follow(n, m, f.writes);
    hide Follow;
    assert n1.log[m.prevIndex..m.prevIndex + 0] == m.entries[..0];
    BatchMerged(n1, m.prevIndex, m.term, m.entries, 0, w);
    AppendBatchFrame(n1, m.prevIndex, m.term, m.entries, 0, w);
    var n2 := AppendBatch(n1, m.prevIndex, m.term, m.entries, 0, w).0;
    var n3 := if m.leaderCommit > n2.commit then n2.(commit := Min(m.leaderCommit, |n2.log|)) else n2;
    ApplyCommittedFrame(n3, f.stop);
    if n.commit <= |n2.log| {
      AppliedExact(n3, f.stop);
    }
  }

  lemma FollowFields(n: Node, m: Message, w: nat)
    requires m.AppendEntries? && m.term >= n.term
    ensures var (n1, ok, left) := Follow(n, m, w);
            && n1.id == n.id && n1.log == n.log && n1.sent == n.sent && n1.commit == n.commit && n1.applied == n.applied
            && (m.term > n.term && w == 0 ==> !ok && n1 == n)
            && (m.term == n.term && n.role == Follower ==> n1 == n.(leader := Some(m.leader)) && left == w)
            && (m.term == n.term || w > 0 ==>
                  ok && n1.term == m.term && n1.role == Follower && n1.leader == Some(m.leader) && left + 1 >= w)
  {
    hide BecomeFollower;
    FollowerFields(n, m.term, Some(m.leader), w);
  }

  /** A request that does not fit is refused with the log's length; an old one with the newer term. */
  lemma AppendRefused(n: Node, from: NodeId, m: Message, f: Faults)
    requires m.AppendEntries?
    ensures var n' := HandleAppendEntries(n, from, m, f);
            && (m.term < n.term ==>
                  n' == n.(sent := n.sent + [Packet(n.id, from, AppendReply(n.term, false, 0, m.round, 0))]))
            && (m.term > n.term && f.writes == 0 ==> n' == n)
            && (m.term >= n.term && (m.term == n.term || f.writes > 0) && !PrefixFits(n.log, m) ==>
                  && n'.sent == n.sent + [Packet(n.id, from, AppendReply(m.term, false, 0, m.round, |n.log|))]
                  && n'.log == n.log && n'.commit == n.commit && n'.term == m.term && n'.role == Follower)
  {
    if m.term >= n.term {
      hide Follow, Accept;
      FollowFields(n, m, f.writes);
    }
  }

  // An entry that cannot stand where the batch puts it.
  predicate Misplaced(log: Log, i: nat, t: nat, e: Entry) {
    e.index != i || e.term != t || (i <= |log| && i > 0 && log[i - 1].term == t && log[i - 1].data != e.data)
  }

  lemma {:induction false} BatchStops(n: Node, prev: nat, t: nat, entries: Log, k: nat, b: nat, w: nat)
    requires k <= b < |entries| && prev + b <= |n.log| && Misplaced(n.log, prev + b + 1, t, entries[b])
    requires forall j :: k <= j < b ==> n.log[prev + j] == entries[j] && entries[j].index == prev + j + 1 && entries[j].term == t
    ensures AppendBatch(n, prev, t, entries, k, w) == (n, false)
    decreases b - k
  {
    if k < b { BatchStops(n, prev, t, entries, k + 1, b, w); }
  }

  /**
   A batch with an entry of another term, out of place, or different from the
   stored entry of that term goes unanswered, and what is stored stays.
   */
  lemma BadBatch(n: Node, from: NodeId, m: Message, f: Faults, b: nat)
    requires m.AppendEntries? && m.term >= n.term && (m.term > n.term ==> f.writes > 0) && PrefixFits(n.log, m)
    requires b < |m.entries| && m.prevIndex + b <= |n.log|
    requires Misplaced(n.log, m.prevIndex + b + 1, m.term, m.entries[b])
    requires forall j :: 0 <= j < b ==>
               n.log[m.prevIndex + j] == m.entries[j] && m.entries[j].index == m.prevIndex + j + 1
               && m.entries[j].term == m.term
    ensures var n' := HandleAppendEntries(n, from, m, f);
            && n'.sent == n.sent && n'.log == n.log && n'.commit == n.commit && n'.applied == n.applied
            && n'.term == m.term && n'.role == Follower
  {
    hide Follow, AppendBatch;
    FollowFields(n, m, f.writes);
    var (n1, ok, w) := Follow(n, m, f.writes);
    BatchStops(n1, m.prevIndex, m.term, m.entries, 0, b, w);
  }

  // ----------------------------------------------------- the leader's answers

  lemma {:induction false} SendingKeepsMatches(n: Node, k: nat)
    ensures var n' := SendFrom(n, k);
            n'.log == n.log && KeepsTables(n, n')
    decreases |n.peers| - k
  {
    hide SendAppend;
    if k < |n.peers| {
      if n.peers[k] == n.id { SendingKeepsMatches(n, k + 1); }
      else {
        SentOneFrame(n, n.peers[k]);
        SendingKeepsMatches(SendAppend(n, n.peers[k]), k + 1);
      }
    }
  }

  lemma CommitKeepsMatches(n: Node, stop: nat)
    ensures var n' := AdvanceCommit(n, stop).0;
            n'.acked == n.acked && KeepsTables(n, n')
  {
    hide ApplyCommitted, SendFrom, QuorumMatch;
    var n0 := n.(commit := QuorumMatch(n));
    ApplyCommittedFrame(n0, stop);
    var n1 := ApplyCommitted(n0, stop).0;
    SendHeartbeatsFrame(n1);
    SendingKeepsMatches(n1.(round := n1.round + 1), 0);
  }

  // What the tables say once the reply is recorded.
  ghost predicate Counted(n: Node, n0: Node, from: NodeId, m: Message)
    requires m.AppendReply?
  {
    && n0 == n.(matched := n0.matched, next := n0.next, acked := n0.acked)
    && Get(n0.matched, from) == Max(Get(n.matched, from), m.matchIndex)
    && Get(n0.acked, from) == Max(Get(n.acked, from), m.round)
    && Get(n0.next, from) == Max(Get(n.next, from), Get(n0.matched, from) + 1)
    && (forall p :: p != from ==> Get(n0.matched, p) == Get(n.matched, p) && Get(n0.acked, p) == Get(n.acked, p)
                                  && Get(n0.next, p) == Get(n.next, p))
  }

  /**
   An acknowledgement raises what the peer is known to hold and the round it
   echoed; the commit rule is then applied to exactly these tables.
   */
  lemma AcknowledgementCounted(n: Node, from: NodeId, m: Message, f: Faults) returns (n0: Node)
    requires n.role == Leader && m.AppendReply? && m.term == n.term && m.success
    ensures n0 == Progress(n, from, m.matchIndex, m.round) && Counted(n, n0, from, m)
    ensures var n', n1 := HandleAppendReply(n, from, m, f), AdvanceCommit(n0, f.stop).0;
            && n'.commit == n1.commit && n'.applied == n1.applied && n'.acknowledged == n1.acknowledged
            && n'.acked == n0.acked && n'.round >= n.round && KeepsTables(n0, n')
            && n'.role == Leader && n'.id == n.id && n'.peers == n.peers && n'.log == n.log && n'.term == n.term
  {
    n0 := Progress(n, from, m.matchIndex, m.round);
    ReplyCounted(n, from, m);
    var n1 := AdvanceCommit(n0, f.stop).0;
    ReplyContinues(n, from, m, f);
    hide HandleAppendReply, Progress, AdvanceCommit, NextOf, Get;
    CommitKeepsMatches(n0, f.stop);
    AdvanceCommitFrame(n0, f.stop);
  }

  // After the commit rule only reads are answered and one more request sent.
  lemma ReplyContinues(n: Node, from: NodeId, m: Message, f: Faults)
    requires n.role == Leader && m.AppendReply? && m.term == n.term && m.success
    ensures SameOffice(AdvanceCommit(Progress(n, from, m.matchIndex, m.round), f.stop).0, HandleAppendReply(n, from, m, f))
  {
    var n0 := Progress(n, from, m.matchIndex, m.round);
    var n1 := AdvanceCommit(n0, f.stop).0;
    ServedThenSent(n1, from);
    var n2 := EvaluateBarriers(n1);
    assert HandleAppendReply(n, from, m, f) in {n1, n2, SendAppend(n2, from)} by {
      hide SameOffice, Progress, AdvanceCommit, EvaluateBarriers, SendAppend, Get;
    }
    SameOfficeItself(n1);
    hide *;
  }

  // Answering reads and sending once more keep the tables.
  lemma ServedThenSent(n: Node, to: NodeId)
    ensures SameOffice(n, EvaluateBarriers(n)) && SameOffice(n, SendAppend(EvaluateBarriers(n), to))
  {
    hide EvaluateBarriers, SendAppend;
    BarriersFrame(n);
    SentOneFrame(EvaluateBarriers(n), to);
  }

  lemma SameOfficeItself(n: Node)
    ensures SameOffice(n, n)
  {
  }

  ghost predicate SameOffice(n: Node, n': Node) {
    && n'.commit == n.commit && n'.applied == n.applied && n'.acked == n.acked && n'.acknowledged == n.acknowledged
    && n'.role == n.role && n'.id == n.id && n'.peers == n.peers && n'.log == n.log && n'.term == n.term
    && n'.round == n.round && KeepsTables(n, n')
  }

  lemma ReplyCounted(n: Node, from: NodeId, m: Message)
    requires m.AppendReply?
    ensures Counted(n, Progress(n, from, m.matchIndex, m.round), from, m)
  {
  }

  lemma SentOneFrame(n: Node, to: NodeId)
    ensures var n' := SendAppend(n, to);
            && n' == n.(next := n'.next, matched := n'.matched, sent := n'.sent)
            && KeepsTables(n, n')
  {
    hide TrackPeer;
    PeerTracked(n, to);
  }

  lemma BarriersFrame(n: Node)
    ensures EvaluateBarriers(n) == n.(barriers := EvaluateBarriers(n).barriers, finished := EvaluateBarriers(n).finished)
  {
  }

  /** A refusal backs the peer's next index up by one and asks again from there. */
  lemma RefusalBacksUp(n: Node, from: NodeId, m: Message, f: Faults)
    requires n.role == Leader && m.AppendReply? && m.term == n.term && !m.success && from in n.next
    requires 1 <= n.next[from] <= |n.log| + 1
    ensures var n' := HandleAppendReply(n, from, m, f);
            var x := if n.next[from] > 1 then n.next[from] - 1 else 1;
            && Get(n'.next, from) == x && n'.sent == n.sent + [Packet(n.id, from, RequestAt(n, x, n.round))]
            && n'.commit == n.commit && n'.log == n.log && n'.role == Leader
  {
    var x := if n.next[from] > 1 then n.next[from] - 1 else 1;
    RefusalAsksAgain(n, from, m, f, x);
    hide HandleAppendReply, SendAppend, RequestAt;
    var n1 := n.(next := n.next[from := x]);
    AppendSent(n1, from);
    SameRequest(n1, n, x);
  }

  lemma SameRequest(n1: Node, n: Node, x: nat)
    requires n1 == n.(next := n1.next) && 1 <= x <= |n.log| + 1
    ensures RequestAt(n1, x, n1.round) == RequestAt(n, x, n.round)
  {
  }

  lemma RefusalAsksAgain(n: Node, from: NodeId, m: Message, f: Faults, x: nat)
    requires n.role == Leader && m.AppendReply? && m.term == n.term && !m.success && from in n.next
    requires 1 <= n.next[from] && x == if n.next[from] > 1 then n.next[from] - 1 else 1
    ensures HandleAppendReply(n, from, m, f) == SendAppend(n.(next := n.next[from := x]), from)
  {
    hide SendAppend, EvaluateBarriers, AdvanceCommit, Progress, BecomeFollower;
  }

  // Replies that are not for this leader change nothing.
  lemma StaleReplies(n: Node, from: NodeId, m: Message, f: Faults)
    requires m.AppendReply? && m.term <= n.term && (n.role != Leader || m.term < n.term)
    ensures HandleAppendReply(n, from, m, f) == n
  {
  }

  /** A proposal is appended, waits for its commit or is answered already, and the answer says which. */
  lemma ProposalAnswer(n: Node, data: string, f: Faults)
    requires n.role == Leader && f.writes > 0 && n.term > 0 && n.commit <= |n.log| && n.applied <= n.commit
    ensures var (n', res) := Propose(n, data, f);
            var i := |n.log| + 1;
            var e := Entry(i, n.term, data);
            && n'.log == n.log + [e] && n'.role == Leader && n'.term == n.term
            && res.Proposed? && res.index == i && res.term == n.term && (res.committed <==> n'.commit >= i)
            && n'.round > n.round
            && (n'.applied < i && i in n'.pending ==> n'.pending[i] == e)
            && (n'.commit < i && n'.applied == n'.commit ==> i in n'.pending) && (n'.applied >= i ==> e in n'.acknowledged)
  {
    var i, e := |n.log| + 1, Entry(|n.log| + 1, n.term, data);
    var n1 := AppendOwn(n, data);
    var n2 := n1.(pending := n1.pending[i := e]);
    hide AdvanceCommit, SendHeartbeats;
    AdvanceCommitFrame(n2, f.stop);
    SendHeartbeatsFrame(AdvanceCommit(n2, f.stop).0);
    ProposalWaits(n2, i, e, f.stop);
  }

  lemma ProposalWaits(n: Node, i: nat, e: Entry, stop: nat)
    requires i in n.pending && n.pending[i] == e && n.applied < i && n.commit < i == |n.log| && n.applied <= n.commit
    ensures var n' := AdvanceCommit(n, stop).0;
            && (n'.applied < i && i in n'.pending ==> n'.pending[i] == e)
            && (n'.commit < i && n'.applied == n'.commit ==> i in n'.pending) && (n'.applied >= i ==> e in n'.acknowledged)
  {
    var q := QuorumMatch(n);
    hide QuorumMatch, ApplyCommitted, SendHeartbeats;
    if n.commit < q <= |n.log| && n.log[q - 1].term == n.term {
      var n0 := n.(commit := q);
      AppliedExact(n0, stop);
      var n1 := ApplyCommitted(n0, stop).0;
      ApplyCommittedFrame(n0, stop);
      SendHeartbeatsFrame(n1);
      assert Settles(n0, i, e);
    }
  }

  /** A proposal that is not committed at once goes out to every other member. */
  lemma ProposalSent(n: Node, data: string, f: Faults, q: nat)
    requires n.role == Leader && f.writes > 0 && n.term > 0 && Unique(n.peers) && |n.peers| > 0 && NextInLog(n)
    requires QuorumHolds(AppendOwn(n, data), q) && !QuorumHolds(AppendOwn(n, data), q + 1) && q <= n.commit
    ensures var n', e := Propose(n, data, f).0, Entry(|n.log| + 1, n.term, data);
            && n' == n.(log := n.log + [e], pending := n.pending[|n.log| + 1 := e], round := n.round + 1,
                        next := n'.next, matched := n'.matched, sent := n'.sent)
            && n.sent <= n'.sent && NextInLog(n')
            && (forall p :: p != n.id ==> NextOf(n', p) == (if p in n.next then n.next[p] else |n.log| + 2)
                                          && Get(n'.matched, p) == Get(n.matched, p))
            && Get(n'.matched, n.id) == |n.log| + 1
            && (forall p :: p in n.peers && p != n.id && p in n.next ==>
                  var x := n.next[p];
                  Packet(n.id, p, AppendEntries(n.term, n.id, x - 1, LogTerm(n.log, x - 1), n.log[x - 1..] + [e],
                                                n.commit, n.round + 1)) in n'.sent)
  {
    hide Propose, SendHeartbeats, Sent, QuorumHolds;
    var i, e := |n.log| + 1, Entry(|n.log| + 1, n.term, data);
    var n1 := AppendOwn(n, data);
    var n2 := n1.(pending := n1.pending[i := e]);
    assert NextInLog(n2);
    ProposalBeats(n, data, f, q);
    HeartbeatsSent(n2);
    var n3 := SendHeartbeats(n2);
    SameNextInLog(n2, n3);
    assert forall p :: p != n.id ==> NextOf(n2, p) == (if p in n.next then n.next[p] else |n.log| + 2);
    hide AppendOwn, NextInLog, NextOf;
    forall p | p in n.peers && p != n.id && p in n.next
      ensures var x := n.next[p];
              Packet(n.id, p, AppendEntries(n.term, n.id, x - 1, LogTerm(n.log, x - 1), n.log[x - 1..] + [e],
                                            n.commit, n.round + 1)) in n3.sent
    {
      LongerRequest(n, n2, n3, e, p);
    }
  }

  lemma ProposalBeats(n: Node, data: string, f: Faults, q: nat)
    requires n.role == Leader && f.writes > 0 && n.term > 0 && Unique(n.peers) && |n.peers| > 0
    requires QuorumHolds(AppendOwn(n, data), q) && !QuorumHolds(AppendOwn(n, data), q + 1) && q <= n.commit
    ensures var n1 := AppendOwn(n, data);
            Propose(n, data, f).0 ==
            SendHeartbeats(n1.(pending := n1.pending[|n.log| + 1 := Entry(|n.log| + 1, n.term, data)]))
  {
    hide AdvanceCommit, SendHeartbeats, QuorumHolds;
    var n1 := AppendOwn(n, data);
    var n2 := n1.(pending := n1.pending[|n.log| + 1 := Entry(|n.log| + 1, n.term, data)]);
    SameHolders(n1, n2, q);
    SameHolders(n1, n2, q + 1);
    CommitRule(n2, q, f.stop);
  }

  lemma SameHolders(n: Node, n': Node, x: nat)
    requires n'.peers == n.peers && n'.matched == n.matched
    ensures QuorumHolds(n', x) <==> QuorumHolds(n, x)
  {
  }

  lemma LongerRequest(n: Node, n2: Node, n3: Node, e: Entry, p: NodeId)
    requires n2.log == n.log + [e] && n2.id == n.id && n2.peers == n.peers && n2.term == n.term && n2.commit == n.commit
    requires n2.round == n.round && NextInLog(n) && NextInLog(n2) && p in n.peers && p != n.id && p in n.next
    requires NextOf(n2, p) == n.next[p] && Sent(n2.(round := n2.round + 1), n2.peers, New(n2, n3))
    ensures var x := n.next[p];
            Packet(n.id, p, AppendEntries(n.term, n.id, x - 1, LogTerm(n.log, x - 1), n.log[x - 1..] + [e],
                                          n.commit, n.round + 1)) in n3.sent
  {
    var m, x := n2.(round := n2.round + 1), n.next[p];
    assert NextOf(m, p) == x;
    assert Packet(m.id, p, RequestAt(m, x, m.round)) in New(n2, n3);
    assert n2.log[x - 1..] == n.log[x - 1..] + [e];
    assert LogTerm(n2.log, x - 1) == LogTerm(n.log, x - 1);
  }

  /** An acknowledgement that commits nothing new still answers the reads whose round it completes. */
  lemma AcknowledgementServes(n: Node, n0: Node, from: NodeId, m: Message, f: Faults, b: Barrier)
    requires n.role == Leader && m.AppendReply? && m.term == n.term && m.success && Unique(n.peers)
    requires n0 == Progress(n, from, m.matchIndex, m.round) && AdvanceCommit(n0, f.stop) == (n0, true)
    requires b in n.barriers && Answerable(n0, b)
    ensures (b.term, b.round) in HandleAppendReply(n, from, m, f).finished
  {
    hide AdvanceCommit, EvaluateBarriers, SendAppend, Answerable;
    BarriersAnswered(n0);
    assert n0.barriers == n.barriers && n0.peers == n.peers;
    SentOneFrame(EvaluateBarriers(n0), from);
  }

  /** A peer that is still behind is sent what it lacks; one that has everything is left alone. */
  lemma AcknowledgementFollowUp(n: Node, from: NodeId, m: Message, f: Faults)
    requires n.role == Leader && m.AppendReply? && m.term == n.term && m.success
    ensures var n0, n' := Progress(n, from, m.matchIndex, m.round), HandleAppendReply(n, from, m, f);
            && (!AdvanceCommit(n0, f.stop).1 ==> n' == AdvanceCommit(n0, f.stop).0)
            && (AdvanceCommit(n0, f.stop) == (n0, true) && 1 <= NextOf(n0, from) <= |n.log| + 1 ==>
                  n'.sent == n.sent + (if Max(Get(n.matched, from), m.matchIndex) >= |n.log| then []
                                       else [Packet(n.id, from, RequestAt(n0, NextOf(n0, from), n.round))]))
  {
    var n0 := Progress(n, from, m.matchIndex, m.round);
    ReplyCounted(n, from, m);
    hide AdvanceCommit, EvaluateBarriers, SendAppend, Progress;
    BarriersFrame(n0);
    var n2 := EvaluateBarriers(n0);
    if 1 <= NextOf(n0, from) <= |n.log| + 1 { AppendSent(n2, from); }
  }

  // Only a leader with a working log store takes proposals.
  lemma ProposalRefused(n: Node, data: string, f: Faults)
    ensures n.role != Leader ==> Propose(n, data, f) == (n, ProposeNotLeader)
    ensures n.role == Leader && f.writes == 0 ==> Propose(n, data, f) == (n, ProposeStoreFailed)
  {
  }

  /** A tick applies what is committed; when the timer is due it beats or stands for election first. */
  lemma TickIdle(n: Node, f: Faults, stop: nat)
    requires n.commit <= |n.log|
    ensures var n' := Tick(n, false, f, stop);
            && n' == n.(applied := n'.applied, pending := n'.pending, acknowledged := n'.acknowledged,
                        barriers := n'.barriers, finished := n'.finished)
            && n'.applied == Reached(n, stop)
  {
    hide ApplyCommitted;
    ApplyCommittedFrame(n, stop);
    AppliedExact(n, stop);
  }

  lemma TickBeats(n: Node, f: Faults, stop: nat)
    requires n.role == Leader && NextInLog(n) && n.commit <= |n.log|
    ensures var n' := Tick(n, true, f, stop);
            && n'.round == n.round + 1 && n.sent <= n'.sent && Sent(n.(round := n.round + 1), n.peers, New(n, n'))
            && n'.role == Leader && n'.term == n.term && n'.log == n.log && n'.applied == Reached(n, stop)
  {
    hide ApplyCommitted, SendHeartbeats, Sent;
    HeartbeatsSent(n);
    var n1 := SendHeartbeats(n);
    ApplyCommittedFrame(n1, stop);
    AppliedExact(n1, stop);
  }

  lemma TickElects(n: Node, f: Faults, stop: nat)
    requires n.role != Leader && f.writes > 0 && |n.peers| >= 2 && n.commit <= |n.log|
    ensures var n' := Tick(n, true, f, stop);
            && n'.role == Candidate && n'.term == n.term + 1 && n'.votedFor == Some(n.id) && n'.votes == {n.id}
            && n.sent <= n'.sent && n'.log == n.log && n'.applied == Reached(n, stop)
            && ToEveryOther(n, New(n, n'), RequestVote(n.term + 1, n.id, |n.log|, LogTerm(n.log, |n.log|)))
  {
    hide ApplyCommitted, StartElection, ToEveryOther;
    ElectionAsks(n, f);
    var n1 := StartElection(n, f);
    ApplyCommittedFrame(n1, stop);
    AppliedExact(n1, stop);
  }
}
