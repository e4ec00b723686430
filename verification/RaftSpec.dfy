/**
 What each handler of a Raft member does, as a function from the member's state
 to its new state. The class in RaftNode.dfy performs the same work field by
 field and is proved to compute these functions.
 */
module RaftSpec {
  import opened Wrappers
  import opened RaftTypes

  // ---------------------------------------------------------------- helpers

  // Lookup in a C++ map through operator[]: a missing key reads as 0.
  function Get(m: map<NodeId, nat>, k: NodeId): nat {
    if k in m then m[k] else 0
  }

  function Max(a: nat, b: nat): nat {
    if a < b then b else a
  }

  function Min(a: nat, b: nat): nat {
    if a < b then a else b
  }

  function LastTerm(log: Log): nat {
    if |log| == 0 then 0 else log[|log| - 1].term
  }

  predicate UpToDate(log: Log, lastIndex: nat, lastTerm: nat) {
    if lastTerm != LastTerm(log) then lastTerm > LastTerm(log) else lastIndex >= |log|
  }

  predicate HasQuorum(n: Node, count: nat) {
    count >= |n.peers| / 2 + 1
  }

  function Send(n: Node, to: NodeId, msg: Message): Node {
    n.(sent := n.sent + [Packet(n.id, to, msg)])
  }

  // ----------------------------------------------------- quorum match index

  function InsertDesc(x: nat, s: seq<nat>): seq<nat> {
    if |s| == 0 || x >= s[0] then [x] + s else [s[0]] + InsertDesc(x, s[1..])
  }

  function SortDesc(s: seq<nat>): seq<nat> {
    if |s| == 0 then [] else InsertDesc(s[0], SortDesc(s[1..]))
  }

  function Matches(peers: seq<NodeId>, matched: map<NodeId, nat>): seq<nat> {
    seq(|peers|, i requires 0 <= i < |peers| => Get(matched, peers[i]))
  }

  function KthLargest(s: seq<nat>, k: nat): nat {
    if k < |SortDesc(s)| then SortDesc(s)[k] else 0
  }

  // Element (n - 1) / 2 of the descending match list.
  function QuorumIndex(peers: seq<NodeId>, matched: map<NodeId, nat>): nat {
    if |peers| == 0 then 0 else KthLargest(Matches(peers, matched), (|peers| - 1) / 2)
  }

  function QuorumMatch(n: Node): nat {
    QuorumIndex(n.peers, n.matched)
  }

  // ------------------------------------------------------------ replication

  // The request for a peer whose log is taken to match up to `prev`: everything after it.
  function AppendRequest(n: Node, prev: nat): Message
    requires prev <= |n.log|
  {
    var prevTerm := if prev == 0 then 0 else n.log[prev - 1].term;
    AppendEntries(n.term, n.id, prev, prevTerm, n.log[prev..], n.commit, n.round)
  }

  function TrackPeer(n: Node, to: NodeId): Node {
    n.(next := if to in n.next then n.next else n.next[to := |n.log| + 1],
       matched := if to in n.matched then n.matched else n.matched[to := 0])
  }

  function SendAppend(n: Node, to: NodeId): Node {
    var n1 := TrackPeer(n, to);
    var next := n1.next[to];
    if next == 0 || next - 1 > |n.log| then n1 else Send(n1, to, AppendRequest(n1, next - 1))
  }

  function SendFrom(n: Node, k: nat): Node
    decreases |n.peers| - k
  {
    if k >= |n.peers| then n
    else if n.peers[k] == n.id then SendFrom(n, k + 1)
    else SendFrom(SendAppend(n, n.peers[k]), k + 1)
  }

  function SendHeartbeats(n: Node): Node {
    SendFrom(n.(round := n.round + 1), 0)
  }

  // ---------------------------------------------------------- read barriers

  // Peers other than the member itself whose acknowledged round is at least r.
  function AckersFrom(n: Node, r: nat, k: nat): nat
    decreases |n.peers| - k
  {
    if k >= |n.peers| then 0
    else
      (if n.peers[k] != n.id && n.peers[k] in n.acked && n.acked[n.peers[k]] >= r then 1 else 0)
      + AckersFrom(n, r, k + 1)
  }

  predicate QuorumAcknowledged(n: Node, r: nat) {
    HasQuorum(n, 1 + AckersFrom(n, r, 0))
  }

  predicate Ready(n: Node, b: Barrier) {
    QuorumAcknowledged(n, b.round) && n.applied >= b.target
  }

  function Waiting(n: Node, bs: seq<Barrier>): seq<Barrier> {
    if |bs| == 0 then []
    else (if Ready(n, bs[0]) then [] else [bs[0]]) + Waiting(n, bs[1..])
  }

  function Served(n: Node, bs: seq<Barrier>): set<(nat, nat)> {
    set b | b in bs && Ready(n, b) :: (b.term, b.round)
  }

  function EvaluateBarriers(n: Node): Node {
    n.(barriers := Waiting(n, n.barriers), finished := n.finished + Served(n, n.barriers))
  }

  // ----------------------------------------------------------------- apply

  function DropPending(n: Node, from: nat): Node {
    n.(pending := map i | i in n.pending && i < from :: n.pending[i])
  }

  function ApplyNext(n: Node): Node {
    var i := n.applied + 1;
    if i in n.pending then
      n.(applied := i, pending := n.pending - {i}, acknowledged := n.acknowledged + {n.pending[i]})
    else
      n.(applied := i)
  }

  // The flag is false when the state machine refused an entry.
  function ApplyCommitted(n: Node, stop: nat): (Node, bool)
    decreases n.commit - n.applied
  {
    if n.applied >= n.commit then (EvaluateBarriers(n), true)
    else if n.applied + 1 > |n.log| then (n, false)
    else if n.applied + 1 > stop then
      (DropPending(n, n.applied + 1).(barriers := []), false)
    else ApplyCommitted(ApplyNext(n), stop)
  }

  function AdvanceCommit(n: Node, stop: nat): (Node, bool) {
    var c := QuorumMatch(n);
    if c <= n.commit || c > |n.log| || n.log[c - 1].term != n.term then (n, true)
    else
      var (n1, ok) := ApplyCommitted(n.(commit := c), stop);
      if !ok then (n1, false)
      else if |n1.peers| > 1 then (SendHeartbeats(n1), true)
      else (n1, true)
  }

  // ------------------------------------------------------------------ roles

  function StepDown(n: Node, leader: Option<NodeId>): Node {
    var n1 := if n.role == Leader then n.(pending := map[], barriers := []) else n;
    n1.(role := Follower, leader := leader, votes := {})
  }

  // The flag is false when a higher term could not be persisted; the last
  // component is the number of writes left.
  function BecomeFollower(n: Node, t: nat, leader: Option<NodeId>, writes: nat): (Node, bool, nat) {
    if t > n.term then
      if writes == 0 then (n, false, 0)
      else (StepDown(n.(term := t, votedFor := None), leader), true, writes - 1)
    else (StepDown(n, leader), true, writes)
  }

  function InitialProgress(n: Node): Node {
    n.(next := map p | p in n.peers :: |n.log| + 1,
       matched := map p | p in n.peers :: if p == n.id then |n.log| else 0,
       acked := map[],
       round := 0)
  }

  function AppendOwn(n: Node, data: string): Node {
    var i := |n.log| + 1;
    n.(log := n.log + [Entry(i, n.term, data)],
       matched := n.matched[n.id := i],
       next := n.next[n.id := i + 1])
  }

  function Crown(n: Node): Node {
    InitialProgress(n.(role := Leader, leader := Some(n.id)))
  }

  function BecomeLeader(n: Node, f: Faults): Node {
    if n.role != Candidate then n
    else
      var n1 := Crown(n);
      if f.writes == 0 || n.term == 0 then BecomeFollower(n1, n1.term, None, 0).0
      else AdvanceCommit(SendHeartbeats(AppendOwn(n1, "")), f.stop).0
  }

  function RequestVotesFrom(n: Node, k: nat): Node
    decreases |n.peers| - k
  {
    if k >= |n.peers| then n
    else if n.peers[k] == n.id then RequestVotesFrom(n, k + 1)
    else
      RequestVotesFrom(Send(n, n.peers[k], RequestVote(n.term, n.id, |n.log|, LastTerm(n.log))), k + 1)
  }

  function Campaign(n: Node): Node {
    n.(role := Candidate, term := n.term + 1, votedFor := Some(n.id), leader := None, votes := {n.id})
  }

  function StartElection(n: Node, f: Faults): Node {
    if f.writes == 0 then n.(leader := None)
    else
      var n1 := Campaign(n);
      if HasQuorum(n1, 1) then BecomeLeader(n1, Faults(f.writes - 1, f.stop))
      else RequestVotesFrom(n1, 0)
  }

  // --------------------------------------------------------------- handlers

  function HandleRequestVote(n: Node, from: NodeId, m: Message, f: Faults): Node
    requires m.RequestVote?
  {
    if m.term < n.term then Send(n, from, VoteReply(n.term, false))
    else
      var (n1, ok, w) := if m.term > n.term then BecomeFollower(n, m.term, None, f.writes)
                         else (n, true, f.writes);
      if !ok then n1
      else if (n1.votedFor == None || n1.votedFor == Some(m.candidate))
              && UpToDate(n1.log, m.lastIndex, m.lastTerm) then
        if w == 0 then n1
        else Send(n1.(votedFor := Some(m.candidate)), from, VoteReply(n1.term, true))
      else Send(n1, from, VoteReply(n1.term, false))
  }

  function HandleVoteReply(n: Node, from: NodeId, m: Message, f: Faults): Node
    requires m.VoteReply?
  {
    if m.term > n.term then BecomeFollower(n, m.term, None, f.writes).0
    else if n.role != Candidate || m.term != n.term || !m.granted then n
    else
      var n1 := n.(votes := n.votes + {from});
      if HasQuorum(n1, |n1.votes|) then BecomeLeader(n1, f) else n1
  }

  // Entries k, k + 1, ... of a batch that starts after `prev`.
  function AppendBatch(n: Node, prev: nat, t: nat, entries: Log, k: nat, writes: nat): (Node, bool)
    requires k <= |entries|
    decreases |entries| - k
  {
    if k == |entries| then (n, true)
    else
      var e := entries[k];
      var i := prev + k + 1;
      if e.index != i || e.term != t then (n, false)
      else if i <= |n.log| && n.log[i - 1].term == e.term then
        if n.log[i - 1].data != e.data then (n, false)
        else AppendBatch(n, prev, t, entries, k + 1, writes)
      else if i <= |n.log| && writes == 0 then (n, false)
      else
        var n1 := if i <= |n.log| then DropPending(n.(log := n.log[..i - 1]), i) else n;
        var w1 := if i <= |n.log| then writes - 1 else writes;
        if w1 == 0 || e.term == 0 || |n1.log| + 1 != i then (n1, false)
        else AppendBatch(n1.(log := n1.log + [e]), prev, t, entries, k + 1, w1 - 1)
  }

  // A request of the current or a later term makes its receiver a follower.
  function Follow(n: Node, m: Message, writes: nat): (Node, bool, nat)
    requires m.AppendEntries?
  {
    if m.term > n.term || n.role != Follower then BecomeFollower(n, m.term, Some(m.leader), writes)
    else (n.(leader := Some(m.leader)), true, writes)
  }

  predicate PrefixMatches(log: Log, m: Message)
    requires m.AppendEntries?
  {
    m.prevIndex <= |log| && (m.prevIndex == 0 || log[m.prevIndex - 1].term == m.prevTerm)
  }

  function Accept(n: Node, from: NodeId, m: Message, writes: nat, stop: nat): Node
    requires m.AppendEntries?
  {
    var (n1, done) := AppendBatch(n, m.prevIndex, m.term, m.entries, 0, writes);
    if !done then n1
    else
      var n2 := if m.leaderCommit > n1.commit then n1.(commit := Min(m.leaderCommit, |n1.log|)) else n1;
      var n3 := ApplyCommitted(n2, stop).0;
      Send(n3, from, AppendReply(n3.term, true, m.prevIndex + |m.entries|, m.round, 0))
  }

  function HandleAppendEntries(n: Node, from: NodeId, m: Message, f: Faults): Node
    requires m.AppendEntries?
  {
    if m.term < n.term then Send(n, from, AppendReply(n.term, false, 0, m.round, 0))
    else
      var (n1, ok, w) := Follow(n, m, f.writes);
      if !ok then n1
      else if !PrefixMatches(n1.log, m) then Send(n1, from, AppendReply(n1.term, false, 0, m.round, |n1.log|))
      else Accept(n1, from, m, w, f.stop)
  }

  function Progress(n: Node, from: NodeId, match_: nat, round: nat): Node {
    var mi := Max(Get(n.matched, from), match_);
    n.(matched := n.matched[from := mi],
       next := n.next[from := Max(Get(n.next, from), mi + 1)],
       acked := n.acked[from := Max(Get(n.acked, from), round)])
  }

  function HandleAppendReply(n: Node, from: NodeId, m: Message, f: Faults): Node
    requires m.AppendReply?
  {
    if m.term > n.term then BecomeFollower(n, m.term, None, f.writes).0
    else if n.role != Leader || m.term != n.term then n
    else if m.success then
      var (n1, ok) := AdvanceCommit(Progress(n, from, m.matchIndex, m.round), f.stop);
      if !ok then n1
      else
        var n2 := EvaluateBarriers(n1);
        if Get(n2.matched, from) < |n2.log| || n2.commit != n.commit then SendAppend(n2, from) else n2
    else
      var x := Get(n.next, from);
      SendAppend(n.(next := n.next[from := if x > 1 then x - 1 else x]), from)
  }

  function HandleMessage(n: Node, from: NodeId, m: Message, f: Faults): Node {
    match m
    case RequestVote(_, _, _, _) => HandleRequestVote(n, from, m, f)
    case VoteReply(_, _) => HandleVoteReply(n, from, m, f)
    case AppendEntries(_, _, _, _, _, _, _) => HandleAppendEntries(n, from, m, f)
    case AppendReply(_, _, _, _, _) => HandleAppendReply(n, from, m, f)
  }

  // `due` says whether the member's timer has expired; `stop` bounds the apply
  // that closes every tick.
  function Tick(n: Node, due: bool, f: Faults, stop: nat): Node {
    var n1 := if !due then n
              else if n.role == Leader then SendHeartbeats(n)
              else StartElection(n, f);
    ApplyCommitted(n1, stop).0
  }

  function Propose(n: Node, data: string, f: Faults): (Node, ProposeResult) {
    if n.role != Leader then (n, ProposeNotLeader)
    else if f.writes == 0 || n.term == 0 then (n, ProposeStoreFailed)
    else
      var i := |n.log| + 1;
      var n1 := AppendOwn(n, data);
      var n2 := n1.(pending := n1.pending[i := Entry(i, n.term, data)]);
      var n3 := SendHeartbeats(AdvanceCommit(n2, f.stop).0);
      (n3, Proposed(i, n.term, i <= n3.commit))
  }

  function ReadBarrier(n: Node): (Node, ReadResult) {
    if n.role != Leader then (n, ReadNotLeader)
    else
      var n1 := SendHeartbeats(n);
      var b := Barrier(n1.term, n1.round, n.commit);
      (if Ready(n1, b) then n1.(finished := n1.finished + {(b.term, b.round)})
       else n1.(barriers := n1.barriers + [b]),
       ReadIndex(n.commit, n1.term, n1.round))
  }

  // A new process over the same log store. The log store keeps the hard state
  // and the log; packets already handed to the transport may still arrive.
  function Restart(n: Node): Node {
    Node(n.id, n.peers, n.term, n.votedFor, n.log, Follower, None, 0, 0,
         map[], map[], {}, map[], {}, 0, map[], [], {}, n.sent)
  }
}
