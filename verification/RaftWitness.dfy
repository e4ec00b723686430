/**
 A group of three that does its work: a run from the empty group in which
 member 1 is elected, a proposal is committed and acknowledged, and a read is
 answered. The guards of the handlers are not so strict that nothing happens.
 */
module RaftWitness {
  import opened Wrappers
  import opened RaftTypes
  import opened RaftSpec
  import opened RaftQuorum
  import opened RaftCluster
  import opened RaftSafety
  import opened RaftAnswers

  const FINE := Faults(9, 9)
  const NOOP := Entry(1, 1, "")

  function Empty(i: NodeId): Node {
    Node(i, [1, 2, 3], 0, None, [], Follower, None, 0, 0, map[], map[], {}, map[], {}, 0, map[], [], {}, [])
  }

  function Group(): Cluster {
    map[1 := Empty(1), 2 := Empty(2), 3 := Empty(3)]
  }

  // ------------------------------------------------------------ longer runs

  function Last(r: Run): Cluster
    requires |r.states| > 0
  {
    r.states[|r.states| - 1]
  }

  function Then(r: Run, e: Event): Run
    requires |r.states| > 0 && Enabled(Last(r), e)
  {
    Run(r.states + [Next(Last(r), e)], r.events + [e])
  }

  // r goes on as s.
  ghost predicate GoesOn(r: Run, s: Run) {
    r.states <= s.states && r.events <= s.events
  }

  // A run of the group so far.
  ghost predicate Going(r: Run) {
    |r.states| == |r.events| + 1 && IsRun(r) && Last(r).Keys == {1, 2, 3}
  }

  lemma OneStep(r: Run, e: Event)
    requires Going(r) && Enabled(Last(r), e)
    ensures Going(Then(r, e)) && GoesOn(r, Then(r, e))
    ensures Last(Then(r, e)) == Next(Last(r), e)
  {
    var s := Then(r, e);
    assert Last(s).Keys == {1, 2, 3};
    hide Next, Enabled, Init;
    forall k | 0 <= k < |s.events| ensures StepOf(s, k) {
      if k < |r.events| { assert StepOf(r, k); }
    }
  }

  // ----------------------------------------------------------- three members

  lemma TwoOfThree(n: Node, x: nat)
    requires n.peers == [1, 2, 3]
    ensures Unique(n.peers)
    ensures Get(n.matched, 1) >= x && Get(n.matched, 2) >= x ==> QuorumHolds(n, x)
    ensures Get(n.matched, 2) < x && Get(n.matched, 3) < x ==> !QuorumHolds(n, x)
  {
    var hs := Holders(n.peers, n.matched, x);
    if Get(n.matched, 1) >= x && Get(n.matched, 2) >= x {
      SubsetCount({1, 2}, hs);
    }
    if Get(n.matched, 2) < x && Get(n.matched, 3) < x {
      SubsetCount(hs, {1});
    }
  }

  lemma SecondAcknowledged(n: Node, r: nat)
    requires n.peers == [1, 2, 3] && n.id == 1
    ensures Get(n.acked, 2) >= r > 0 ==> 1 + |Ackers(n, r)| >= 2
    ensures Get(n.acked, 2) < r && Get(n.acked, 3) < r ==> 1 + |Ackers(n, r)| < 2
  {
    if Get(n.acked, 2) >= r > 0 { SubsetCount({2}, Ackers(n, r)); }
    if Get(n.acked, 2) < r && Get(n.acked, 3) < r { assert Ackers(n, r) == {}; }
  }

  // Member 1 leads term 1 with `log`; member 2 is known to hold `held` of it and
  // these are committed and applied.
  ghost predicate Leads(n: Node, log: Log, held: nat) {
    && n.id == 1 && n.peers == [1, 2, 3] && n.role == Leader && n.term == 1
    && n.log == log && OneTerm(log) && held <= |log| <= 9
    && n.commit == held && n.applied == held
    && Get(n.matched, 1) == |log| && Get(n.matched, 2) == held && Get(n.matched, 3) == 0
    && 2 in n.next && n.next[2] == held + 1 && NextInLog(n)
    && Get(n.acked, 2) <= n.round && Get(n.acked, 3) == 0
  }

  ghost predicate OneTerm(log: Log) {
    forall k :: 0 <= k < |log| ==> log[k].index == k + 1 && log[k].term == 1
  }

  ghost predicate Follows(n: Node, log: Log) {
    n.id == 2 && n.term <= 1 && n.log == log && n.commit <= |log|
  }

  lemma AcknowledgementCommits(n: Node, log: Log, rd: nat)
    requires |log| > 0 && Leads(n, log, |log| - 1) && rd <= n.round
    ensures var n' := HandleAppendReply(n, 2, AppendReply(1, true, |log|, rd, 0), FINE);
            && Leads(n', log, |log|)
            && (|log| in n.pending ==> n.pending[|log|] in n'.acknowledged)
  {
    var m := AppendReply(1, true, |log|, rd, 0);
    var n0 := AcknowledgementCounted(n, 2, m, FINE);
    TwoOfThree(n0, |log|);
    TwoOfThree(n0, |log| + 1);
    assert NextInLog(n0);
    hide Progress, HandleAppendReply, AdvanceCommit, QuorumHolds;
    CommitRule(n0, |log|, 9);
    if |log| in n.pending {
      ProposalWaits(n0, |log|, n.pending[|log|], 9);
    }
    SameNextInLog(n0, HandleAppendReply(n, 2, m, FINE));
  }

  lemma RequestTaken(n: Node, log: Log, k: nat, commit: nat, rd: nat)
    requires k <= |log| <= 4 && OneTerm(log) && Follows(n, log[..k]) && |log| <= k + 1
    ensures var m := AppendEntries(1, 1, k, LogTerm(log, k), log[k..], commit, rd);
            var n' := HandleAppendEntries(n, 1, m, FINE);
            && Follows(n', log) && n'.term == 1
            && Packet(2, 1, AppendReply(1, true, |log|, rd, 0)) in n'.sent
  {
    var m := AppendEntries(1, 1, k, LogTerm(log, k), log[k..], commit, rd);
    hide HandleAppendEntries;
    AppendAnswer(n, 1, m, FINE);
    var log' := Merged(n.log, k, 1, m.entries);
    assert log' == log;
    var n' := HandleAppendEntries(n, 1, m, FINE);
    assert n'.sent[|n.sent|] == Packet(2, 1, AppendReply(1, true, |log|, rd, 0));
  }

  /** From a request on the wire to the entry's commit in two steps. */
  lemma Replicates(r: Run, log: Log, rd: nat) returns (s: Run)
    requires Going(r) && 0 < |log| <= 4
    requires Leads(Last(r)[1], log, |log| - 1) && Follows(Last(r)[2], log[..|log| - 1]) && rd <= Last(r)[1].round
    requires Packet(1, 2, AppendEntries(1, 1, |log| - 1, LogTerm(log, |log| - 1), log[|log| - 1..], |log| - 1, rd))
             in Last(r)[1].sent
    ensures Going(s) && GoesOn(r, s) && |s.events| == |r.events| + 2
    ensures Leads(Last(s)[1], log, |log|) && Follows(Last(s)[2], log) && Last(s)[2].term == 1
    ensures |log| in Last(r)[1].pending ==> Last(r)[1].pending[|log|] in Last(s)[1].acknowledged
  {
    var k := |log| - 1;
    var m := AppendEntries(1, 1, k, LogTerm(log, k), log[k..], k, rd);
    var a := AppendReply(1, true, |log|, rd, 0);
    hide HandleAppendEntries, HandleAppendReply, IsRun, Leads, Follows;
    RequestTaken(Last(r)[2], log, k, k, rd);
    AcknowledgementCommits(Last(r)[1], log, rd);
    s := Exchange(r, m, a);
  }

  // A request to member 2 and its reply.
  lemma Exchange(r: Run, m: Message, a: Message) returns (s: Run)
    requires Going(r) && m.AppendEntries? && a.AppendReply? && Packet(1, 2, m) in Last(r)[1].sent
    requires Packet(2, 1, a) in HandleAppendEntries(Last(r)[2], 1, m, FINE).sent
    ensures Going(s) && GoesOn(r, s) && |s.events| == |r.events| + 2
    ensures Last(s)[1] == HandleAppendReply(Last(r)[1], 2, a, FINE)
    ensures Last(s)[2] == HandleAppendEntries(Last(r)[2], 1, m, FINE)
  {
    var e1, e2 := Deliver(Packet(1, 2, m), FINE), Deliver(Packet(2, 1, a), FINE);
    hide HandleAppendEntries, HandleAppendReply, IsRun;
    OneStep(r, e1);
    var r1 := Then(r, e1);
    assert Last(r1)[1] == Last(r)[1] && Last(r1)[2] == HandleAppendEntries(Last(r)[2], 1, m, FINE);
    OneStep(r1, e2);
    s := Then(r1, e2);
  }

  // --------------------------------------------------------------- election

  lemma GroupStarts()
    ensures Going(Run([Group()], []))
  {
    var c := Group();
    assert c.Keys == {1, 2, 3};
    assert 1 in c.Keys;
    forall i | i in c ensures c[i].id == i && Fresh(c[i]) && Unique(c[i].peers) && Members(c[i].peers) == c.Keys {
      EmptyIsFresh(i);
    }
  }

  lemma EmptyIsFresh(i: NodeId)
    ensures Fresh(Empty(i)) && Unique(Empty(i).peers) && Members(Empty(i).peers) == {1, 2, 3}
  {
  }

  lemma Stands(n: Node)
    requires n == Empty(1)
    ensures var n' := Tick(n, true, FINE, 9);
            && n' == n.(role := Candidate, term := 1, votedFor := Some(1), votes := {1}, sent := n'.sent)
            && Packet(1, 2, RequestVote(1, 1, 0, 0)) in n'.sent
  {
    hide StartElection;
    ElectionAsks(n, FINE);
    var n1 := StartElection(n, FINE);
    assert Waiting(n1, []) == [] && Served(n1, []) == {};
    assert 2 in n.peers;
  }

  lemma MajorityOfThree(n: Node)
    requires n.role == Candidate && n.term == 1 && n.votes == {1} && |n.peers| == 3
    ensures HandleVoteReply(n, 2, VoteReply(1, true), FINE) == BecomeLeader(n.(votes := {1, 2}), FINE)
  {
    hide BecomeLeader;
    assert n.votes + {2} == {1, 2};
  }

  // The new leader seen from one peer.
  lemma OfficeFor(n: Node, p: NodeId)
    requires n.role == Candidate && n.term > 0 && p in n.peers && p != n.id
    requires Unique(n.peers) && n.id in n.peers && |n.peers| >= 3
    ensures var n', e := BecomeLeader(n, FINE), Entry(|n.log| + 1, n.term, "");
            && n'.id == n.id && n'.peers == n.peers && n'.term == n.term && n'.commit == n.commit
            && n'.applied == n.applied && n'.role == Leader && n'.log == n.log + [e] && n'.round == 1 && n'.acked == map[]
            && NextInLog(n') && Get(n'.matched, n.id) == |n.log| + 1 && Get(n'.matched, p) == 0
            && p in n'.next && n'.next[p] == |n.log| + 1
            && Packet(n.id, p, AppendEntries(n.term, n.id, |n.log|, LogTerm(n.log, |n.log|), [e], n.commit, 1)) in n'.sent
  {
    hide BecomeLeader, NextInLog;
    LeaderStarts(n, FINE);
    assert NextOf(BecomeLeader(n, FINE), p) == |n.log| + 1;
  }

  lemma TakesOffice(n: Node)
    requires n.id == 1 && n.peers == [1, 2, 3] && n.role == Candidate && n.term == 1 && n.votes == {1}
    requires n.log == [] && n.commit == n.applied == 0
    ensures var n' := HandleVoteReply(n, 2, VoteReply(1, true), FINE);
            && Leads(n', [NOOP], 0) && n'.round == 1
            && Packet(1, 2, AppendEntries(1, 1, 0, 0, [NOOP], 0, 1)) in n'.sent
  {
    hide HandleVoteReply, BecomeLeader, Leads;
    var n1 := n.(votes := {1, 2});
    MajorityOfThree(n);
    NewLeader(n1);
  }

  lemma NewLeader(n: Node)
    requires n.id == 1 && n.peers == [1, 2, 3] && n.role == Candidate && n.term == 1
    requires n.log == [] && n.commit == n.applied == 0
    ensures var n' := BecomeLeader(n, FINE);
            && Leads(n', [NOOP], 0) && n'.round == 1
            && Packet(1, 2, AppendEntries(1, 1, 0, 0, [NOOP], 0, 1)) in n'.sent
  {
    TwoOfThree(n, 0);
    hide BecomeLeader, NextInLog, Unique;
    assert n.peers[0] == 1 && n.peers[1] == 2 && n.peers[2] == 3;
    OfficeFor(n, 2);
    OfficeFor(n, 3);
    OnlyNoop(n.log);
  }

  lemma OnlyNoop(log: Log)
    requires log == []
    ensures log + [Entry(|log| + 1, 1, "")] == [NOOP] && OneTerm([NOOP]) && LogTerm(log, |log|) == 0
  {
  }

  const ASK := RequestVote(1, 1, 0, 0)

  lemma Asked() returns (r: Run)
    ensures Going(r) && |r.events| == 1
    ensures var n := Last(r)[1];
            && n == Empty(1).(role := Candidate, term := 1, votedFor := Some(1), votes := {1}, sent := n.sent)
            && Packet(1, 2, ASK) in n.sent
    ensures Last(r)[2] == Empty(2)
  {
    hide Tick, IsRun;
    GroupStarts();
    Stands(Empty(1));
    var r0, e := Run([Group()], []), Timer(1, true, FINE, 9);
    OneStep(r0, e);
    r := Then(r0, e);
    assert Last(r)[1] == Tick(Empty(1), true, FINE, 9) && Last(r)[2] == Empty(2);
  }

  lemma Voted(r0: Run, n: Node) returns (r: Run)
    requires Going(r0) && Last(r0)[1] == n && Last(r0)[2] == Empty(2)
    requires Packet(1, 2, ASK) in n.sent
    ensures Going(r) && |r.events| == |r0.events| + 1 && Last(r)[1] == n
    ensures Follows(Last(r)[2], []) && Packet(2, 1, VoteReply(1, true)) in Last(r)[2].sent
  {
    hide HandleRequestVote, IsRun;
    var e := Deliver(Packet(1, 2, ASK), FINE);
    VoteAnswer(Empty(2), 1, ASK, FINE);
    OneStep(r0, e);
    r := Then(r0, e);
    assert Last(r)[2] == HandleRequestVote(Empty(2), 1, ASK, FINE);
    assert Last(r)[2].sent[0] == Packet(2, 1, VoteReply(1, true));
  }

  lemma Elected() returns (r: Run)
    ensures Going(r) && |r.events| == 3
    ensures Leads(Last(r)[1], [NOOP], 0) && Last(r)[1].round == 1 && Follows(Last(r)[2], [])
    ensures Packet(1, 2, AppendEntries(1, 1, 0, 0, [NOOP], 0, 1)) in Last(r)[1].sent
  {
    hide HandleVoteReply, IsRun, Leads, Follows;
    var r1 := Asked();
    var n := Last(r1)[1];
    var r2 := Voted(r1, n);
    TakesOffice(n);
    var e := Deliver(Packet(2, 1, VoteReply(1, true)), FINE);
    OneStep(r2, e);
    r := Then(r2, e);
    assert Last(r)[2] == Last(r2)[2] && Last(r)[1] == HandleVoteReply(n, 2, VoteReply(1, true), FINE);
  }

  // ----------------------------------------------------- proposal and read

  lemma TakesProposal(n: Node, data: string)
    requires Leads(n, [NOOP], 1)
    ensures var (n', res) := Propose(n, data, FINE);
            var e := Entry(2, 1, data);
            && res == Proposed(2, 1, false) && Leads(n', [NOOP, e], 1) && n'.round == n.round + 1
            && 2 in n'.pending && n'.pending[2] == e
            && Packet(1, 2, AppendEntries(1, 1, 1, 1, [e], 1, n'.round)) in n'.sent
  {
    ProposalQuorum(n, data);
    TwoEntries(n.log, data);
    hide AppendOwn, Propose, QuorumHolds, NextInLog, Unique, OneTerm;
    ProposalFor(n, data, 1, 2);
    ProposalFor(n, data, 1, 3);
  }

  lemma ProposalQuorum(n: Node, data: string)
    requires Leads(n, [NOOP], 1)
    ensures QuorumHolds(AppendOwn(n, data), 1) && !QuorumHolds(AppendOwn(n, data), 2)
    ensures Unique(n.peers) && 2 in n.peers && 3 in n.peers
    ensures Propose(n, data, FINE).1 == Proposed(2, 1, Propose(n, data, FINE).0.commit >= 2)
  {
    TwoOfThree(AppendOwn(n, data), 1);
    TwoOfThree(AppendOwn(n, data), 2);
    assert n.peers[1] == 2 && n.peers[2] == 3;
    hide AppendOwn, Propose, QuorumHolds, NextInLog;
    ProposalAnswer(n, data, FINE);
  }

  lemma TwoEntries(log: Log, data: string)
    requires log == [NOOP]
    ensures var e := Entry(2, 1, data);
            && log + [e] == [NOOP, e] && log[1..] + [e] == [e] && OneTerm([NOOP, e]) && LogTerm(log, 1) == 1
  {
  }

  // A proposal seen from one peer.
  lemma ProposalFor(n: Node, data: string, q: nat, p: NodeId)
    requires n.role == Leader && n.term > 0 && Unique(n.peers) && p in n.peers && p != n.id && NextInLog(n)
    requires QuorumHolds(AppendOwn(n, data), q) && !QuorumHolds(AppendOwn(n, data), q + 1) && q <= n.commit
    ensures var n', e, i := Propose(n, data, FINE).0, Entry(|n.log| + 1, n.term, data), |n.log| + 1;
            && n' == n.(log := n.log + [e], pending := n.pending[i := e], round := n.round + 1,
                        next := n'.next, matched := n'.matched, sent := n'.sent)
            && NextInLog(n') && Get(n'.matched, n.id) == i && Get(n'.matched, p) == Get(n.matched, p)
            && (p in n.next ==>
                  && p in n'.next && n'.next[p] == n.next[p]
                  && Packet(n.id, p, AppendEntries(n.term, n.id, n.next[p] - 1, LogTerm(n.log, n.next[p] - 1),
                                                   n.log[n.next[p] - 1..] + [e], n.commit, n.round + 1)) in n'.sent)
  {
    hide AppendOwn, Propose, QuorumHolds;
    ProposalSent(n, data, FINE, q);
    var n' := Propose(n, data, FINE).0;
    if p in n.next { assert NextOf(n', p) == n.next[p] <= |n.log| + 1; }
  }

  lemma StartsRead(n: Node, log: Log)
    requires Leads(n, log, |log|)
    ensures var (n', res) := ReadBarrier(n);
            && res == ReadIndex(|log|, 1, n.round + 1) && Leads(n', log, |log|)
            && Barrier(1, n.round + 1, |log|) in n'.barriers && n'.acknowledged == n.acknowledged
            && n'.round == n.round + 1 && Get(n'.acked, 2) < n'.round
            && Packet(1, 2, AppendEntries(1, 1, |log|, LogTerm(log, |log|), log[|log|..], |log|, n.round + 1)) in n'.sent
  {
    hide ReadBarrier;
    ReadAnswer(n);
    SecondAcknowledged(n, n.round + 1);
    var n' := ReadBarrier(n).0;
    assert 2 in n.peers;
    var p := Packet(1, 2, RequestAt(n.(round := n.round + 1), NextOf(n, 2), n.round + 1));
    assert NextInLog(n.(round := n.round + 1));
    assert p in New(n, n');
    assert p in n'.sent;
    assert n'.barriers[|n.barriers|] == Barrier(1, n.round + 1, |log|);
  }

  lemma AnswersRead(n: Node, log: Log, rd: nat)
    requires Leads(n, log, |log|) && Barrier(1, rd, |log|) in n.barriers && 0 < rd
    ensures var n' := HandleAppendReply(n, 2, AppendReply(1, true, |log|, rd, 0), FINE);
            && (1, rd) in n'.finished && n'.acknowledged == n.acknowledged
            && n'.role == Leader && n'.term == 1 && n'.log == log && n'.commit == n'.applied == |log|
  {
    var m := AppendReply(1, true, |log|, rd, 0);
    var n0 := AcknowledgementCounted(n, 2, m, FINE);
    TwoOfThree(n0, |log|);
    TwoOfThree(n0, |log| + 1);
    hide Progress, HandleAppendReply, AdvanceCommit, QuorumHolds;
    CommitRule(n0, |log|, 9);
    SecondAcknowledged(n0, rd);
    AcknowledgementServes(n, n0, 2, m, FINE, Barrier(1, rd, |log|));
  }

  // A read is answered by the round it starts.
  lemma ReadServed(r: Run, log: Log) returns (s: Run, rd: nat)
    requires Going(r) && |log| <= 4 && Leads(Last(r)[1], log, |log|) && Follows(Last(r)[2], log)
    ensures Going(s) && GoesOn(r, s) && |s.events| == |r.events| + 3 && s.events[|r.events|] == Read(1)
    ensures ReadBarrier(Last(r)[1]).1 == ReadIndex(|log|, 1, rd) && (1, rd) in Last(s)[1].finished
    ensures Last(s)[1].acknowledged == Last(r)[1].acknowledged
    ensures Last(s)[1].role == Leader && Last(s)[1].term == 1 && Last(s)[1].log == log
    ensures Last(s)[1].commit == Last(s)[1].applied == |log|
  {
    hide ReadBarrier, HandleAppendEntries, HandleAppendReply, IsRun, Leads, Follows;
    var n := Last(r)[1];
    rd := n.round + 1;
    StartsRead(n, log);
    OneStep(r, Read(1));
    var r1 := Then(r, Read(1));
    assert Last(r1)[1] == ReadBarrier(n).0 && Last(r1)[2] == Last(r)[2];
    s := Beats(r1, log, rd);
  }

  lemma Beats(r: Run, log: Log, rd: nat) returns (s: Run)
    requires Going(r) && |log| <= 4 && Leads(Last(r)[1], log, |log|) && Follows(Last(r)[2], log)
    requires Barrier(1, rd, |log|) in Last(r)[1].barriers && 0 < rd
    requires Packet(1, 2, AppendEntries(1, 1, |log|, LogTerm(log, |log|), log[|log|..], |log|, rd)) in Last(r)[1].sent
    ensures Going(s) && GoesOn(r, s) && |s.events| == |r.events| + 2 && (1, rd) in Last(s)[1].finished
    ensures Last(s)[1].acknowledged == Last(r)[1].acknowledged
    ensures Last(s)[1].role == Leader && Last(s)[1].term == 1 && Last(s)[1].log == log
    ensures Last(s)[1].commit == Last(s)[1].applied == |log|
  {
    var m := AppendEntries(1, 1, |log|, LogTerm(log, |log|), log[|log|..], |log|, rd);
    var a := AppendReply(1, true, |log|, rd, 0);
    assert log[..|log|] == log && OneTerm(log);
    hide HandleAppendEntries, HandleAppendReply, IsRun, Leads, Follows, OneTerm;
    RequestTaken(Last(r)[2], log, |log|, |log|, rd);
    AnswersRead(Last(r)[1], log, rd);
    s := Exchange(r, m, a);
  }

  lemma Written(r: Run, data: string) returns (s: Run)
    requires Going(r) && Leads(Last(r)[1], [NOOP], 1) && Follows(Last(r)[2], [NOOP])
    ensures var e, log := Entry(2, 1, data), [NOOP, Entry(2, 1, data)];
            && Going(s) && GoesOn(r, s) && |s.events| == |r.events| + 3 && s.events[|r.events|] == Write(1, data, FINE)
            && Propose(Last(r)[1], data, FINE).1 == Proposed(2, 1, false)
            && Leads(Last(s)[1], log, 2) && Follows(Last(s)[2], log) && e in Last(s)[1].acknowledged
  {
    var e := Entry(2, 1, data);
    var log := [NOOP, e];
    assert log[..1] == [NOOP] && log[1..] == [e] && LogTerm(log, 1) == 1;
    hide Propose, IsRun, Leads, Follows, OneTerm;
    TakesProposal(Last(r)[1], data);
    OneStep(r, Write(1, data, FINE));
    var r1 := Then(r, Write(1, data, FINE));
    assert Last(r1)[1] == Propose(Last(r)[1], data, FINE).0 && Last(r1)[2] == Last(r)[2];
    s := Replicates(r1, log, Last(r1)[1].round);
  }

  /**
   Eleven steps of a group of three: an election, a proposal answered as not
   yet committed and then acknowledged, and a read answered at its index.
   */
  lemma WorkingRun(data: string) returns (r: Run, rd: nat)
    ensures IsRun(r) && |r.events| == 11 && |r.states| == 12 && forall k :: 0 <= k <= 11 ==> 1 in r.states[k]
    ensures r.events[5] == Write(1, data, FINE) && Propose(r.states[5][1], data, FINE).1 == Proposed(2, 1, false)
    ensures r.events[8] == Read(1) && ReadBarrier(r.states[8][1]).1 == ReadIndex(2, 1, rd)
    ensures var n := r.states[11][1];
            && n.role == Leader && n.term == 1 && n.log == [NOOP, Entry(2, 1, data)] && n.commit == n.applied == 2
            && Entry(2, 1, data) in n.acknowledged && (1, rd) in n.finished
  {
    hide Propose, ReadBarrier, IsRun, Leads, Follows;
    var r3 := Elected();
    assert [NOOP][..0] == [] && [NOOP][0..] == [NOOP];
    var r5 := Replicates(r3, [NOOP], 1);
    var r8 := Written(r5, data);
    var log := [NOOP, Entry(2, 1, data)];
    r, rd := ReadServed(r8, log);
    assert r.states[5] == r8.states[5] == Last(r5) && r.states[8] == Last(r8);
    assert r.events[5] == r8.events[5];
    forall k | 0 <= k <= 11 ensures 1 in r.states[k] { MembersStay(r, k); }
  }

  lemma {:induction false} MembersStay(r: Run, k: nat)
    requires Going(r) && k < |r.states|
    ensures r.states[k].Keys == {1, 2, 3}
    decreases |r.states| - k
  {
    hide React, Init;
    if k + 1 < |r.states| {
      MembersStay(r, k + 1);
      assert StepOf(r, k);
      var e := r.events[k];
      assert Actor(e) in r.states[k];
      assert r.states[k + 1].Keys == r.states[k].Keys;
    }
  }
}
