/**
 A Raft member as an object whose handlers update its fields in place, each
 proved to compute the corresponding function of RaftSpec.dfy. The outcome of
 log store writes and state machine applies enters through a `Faults` value.
 */
module RaftNode {
  import opened Wrappers
  import opened RaftTypes
  import opened RaftFrames
  import opened RaftQuorum
  import S = RaftSpec

  // -------------------------------------------------------------- local facts

  lemma {:induction false} WaitingAppend(n: Node, bs: seq<Barrier>, b: Barrier)
    ensures S.Waiting(n, bs + [b]) == S.Waiting(n, bs) + (if S.Ready(n, b) then [] else [b])
  {
    if |bs| == 0 {
      assert bs + [b] == [b];
    } else {
      WaitingAppend(n, bs[1..], b);
      assert (bs + [b])[1..] == bs[1..] + [b];
    }
  }

  // After k barriers: those that still wait, then the ones not looked at.
  ghost predicate Served(n: Node, k: nat, i: nat, left: seq<Barrier>, served: set<(nat, nat)>) {
    && k <= |n.barriers|
    && i == |S.Waiting(n, n.barriers[..k])|
    && left == S.Waiting(n, n.barriers[..k]) + n.barriers[k..]
    && served == S.Served(n, n.barriers[..k])
  }

  lemma ServedStart(n: Node)
    ensures Served(n, 0, 0, n.barriers, {})
  {
  }

  lemma ServedStep(n: Node, k: nat, i: nat, left: seq<Barrier>, served: set<(nat, nat)>)
    requires Served(n, k, i, left, served) && i < |left|
    ensures var b := left[i];
            if S.Ready(n, b) then Served(n, k + 1, i, left[..i] + left[i + 1..], served + {(b.term, b.round)})
            else Served(n, k + 1, i + 1, left, served)
  {
    hide S.Ready, S.Waiting, S.Served;
    assert k < |n.barriers|;
    var b, wait := n.barriers[k], S.Waiting(n, n.barriers[..k]);
    assert n.barriers[..k + 1] == n.barriers[..k] + [b];
    assert n.barriers[k..] == [b] + n.barriers[k + 1..];
    WaitingAppend(n, n.barriers[..k], b);
    ServedAppend(n, n.barriers[..k], b);
    OneBehind(wait, b, n.barriers[k + 1..]);
    assert S.Ready(n, b) ==> wait + [] == wait && served + {(b.term, b.round)} == S.Served(n, n.barriers[..k + 1]);
  }

  lemma ServedAppend(n: Node, bs: seq<Barrier>, b: Barrier)
    ensures S.Served(n, bs + [b]) == S.Served(n, bs) + (if S.Ready(n, b) then {(b.term, b.round)} else {})
  {
    hide S.Ready;
  }

  // The element behind `wait`, taken out or left in place.
  lemma OneBehind<T>(wait: seq<T>, b: T, tail: seq<T>)
    ensures var left := wait + ([b] + tail);
            && left[|wait|] == b && left[..|wait|] + left[|wait| + 1..] == wait + tail
            && left == (wait + [b]) + tail
  {
  }

  lemma ServedEnd(n: Node, k: nat, i: nat, left: seq<Barrier>, served: set<(nat, nat)>)
    requires Served(n, k, i, left, served) && i >= |left|
    ensures left == S.Waiting(n, n.barriers) && served == S.Served(n, n.barriers)
  {
    assert n.barriers[..k] == n.barriers;
  }

  lemma {:induction false} UniqueIffCount(peers: seq<NodeId>)
    ensures |Members(peers)| <= |peers|
    ensures Unique(peers) <==> |Members(peers)| == |peers|
  {
    if |peers| == 0 {
      assert Members(peers) == {};
    } else {
      var rest := peers[1..];
      UniqueIffCount(rest);
      if peers[0] in rest {
        assert Members(peers) == Members(rest);
        var j :| 0 <= j < |rest| && rest[j] == peers[0];
        assert peers[j + 1] == peers[0];
      } else {
        assert Members(peers) == Members(rest) + {peers[0]};
        if Unique(rest) {
          forall i, j | 0 <= i < j < |peers| ensures peers[i] != peers[j] {
            if i == 0 { assert peers[j] == rest[j - 1]; }
            else { assert peers[i] == rest[i - 1] && peers[j] == rest[j - 1]; }
          }
        } else {
          var i, j :| 0 <= i < j < |rest| && rest[i] == rest[j];
          assert peers[i + 1] == peers[j + 1];
        }
      }
    }
  }

  lemma {:induction false} SortStep(done: seq<nat>, s: seq<nat>, k: nat)
    requires k < |s| && done == S.SortDesc(s[k + 1..])
    ensures S.InsertDesc(s[k], done) == S.SortDesc(s[k..])
  {
    assert s[k..][1..] == s[k + 1..];
  }

  lemma RestartForgets(n: Node)
    ensures n.(role := Follower, leader := None, votes := {}, commit := 0, applied := 0)
             .(pending := map[], acknowledged := {}, barriers := [], finished := {})
             .(next := map[], matched := map[], round := 0, acked := map[]) == S.Restart(n)
  {
  }

  lemma InitialTables(n: Node, next: map<NodeId, nat>, matched: map<NodeId, nat>)
    requires forall p :: (p in next <==> p in n.peers) && (p in matched <==> p in n.peers)
    requires forall p :: p in next ==> next[p] == |n.log| + 1
    requires forall p :: p in matched ==> matched[p] == if p == n.id then |n.log| else 0
    ensures n.(next := map[], matched := map[], round := 0, acked := map[]).(next := next, matched := matched)
            == S.InitialProgress(n)
  {
    assert next == map p | p in n.peers :: |n.log| + 1;
    assert matched == map p | p in n.peers :: if p == n.id then |n.log| else 0;
  }

  lemma AppliedOne(n: Node)
    ensures S.ApplyNext(n).applied == n.applied + 1 && S.ApplyNext(n).commit == n.commit
  {
  }

  // The entries behind position `prev`, read one by one.
  method SuffixFrom(log: Log, prev: nat) returns (entries: Log)
    requires prev <= |log|
    ensures entries == log[prev..]
  {
    entries := [];
    for i := prev to |log|
      invariant entries == log[prev..i]
    {
      entries := entries + [log[i]];
    }
  }

  // Inserts x before the first smaller element of a descending sequence.
  method Insert(x: nat, s: seq<nat>) returns (r: seq<nat>)
    ensures r == S.InsertDesc(x, s)
  {
    hide S.InsertDesc;
    var i := 0;
    assert s[..0] + S.InsertDesc(x, s[0..]) == S.InsertDesc(x, s) by {
      assert s[0..] == s;
    }
    while i < |s| && s[i] > x
      invariant 0 <= i <= |s|
      invariant S.InsertDesc(x, s) == s[..i] + S.InsertDesc(x, s[i..])
    {
      InsertLater(x, s, i);
      i := i + 1;
    }
    InsertHere(x, s[i..]);
    r := s[..i] + [x] + s[i..];
  }

  lemma InsertLater(x: nat, s: seq<nat>, i: nat)
    requires i < |s| && s[i] > x
    ensures s[..i] + S.InsertDesc(x, s[i..]) == s[..i + 1] + S.InsertDesc(x, s[i + 1..])
  {
    assert s[i..][1..] == s[i + 1..];
    assert S.InsertDesc(x, s[i..]) == [s[i]] + S.InsertDesc(x, s[i + 1..]);
    hide S.InsertDesc;
    assert s[..i + 1] == s[..i] + [s[i]];
  }

  lemma InsertHere(x: nat, s: seq<nat>)
    requires s != [] ==> s[0] <= x
    ensures S.InsertDesc(x, s) == [x] + s
  {
  }

  method SortDescending(s: seq<nat>) returns (r: seq<nat>)
    ensures r == S.SortDesc(s)
  {
    r := [];
    var k := |s|;
    while k > 0
      invariant 0 <= k <= |s|
      invariant r == S.SortDesc(s[k..])
    {
      k := k - 1;
      SortStep(r, s, k);
      r := Insert(s[k], r);
    }
    assert s[0..] == s;
  }

  class RaftNode {
    const id: NodeId
    const peers: seq<NodeId>
    const heartbeatInterval: nat
    const electionTimeout: nat
    var term: nat
    var votedFor: Option<NodeId>
    var log: Log
    var role: Role
    var leader: Option<NodeId>
    var commit: nat
    var applied: nat
    var next: map<NodeId, nat>
    var matched: map<NodeId, nat>
    var votes: set<NodeId>
    var pending: map<nat, Entry>
    var acknowledged: set<Entry>
    var round: nat
    var acked: map<NodeId, nat>
    var barriers: seq<Barrier>
    var finished: set<(nat, nat)>
    var sent: seq<Packet>

    ghost function View(): Node
      reads this
    {
      Node(id, peers, term, votedFor, log, role, leader, commit, applied, next, matched, votes,
           pending, acknowledged, round, acked, barriers, finished, sent)
    }

    // A member over an empty log store.
    constructor (id: NodeId, peers: seq<NodeId>, heartbeatInterval: nat, electionTimeout: nat)
      ensures this.id == id && this.peers == peers
      ensures this.heartbeatInterval == heartbeatInterval && this.electionTimeout == electionTimeout
      ensures View() == S.Restart(View())
      ensures View().term == 0 && View().votedFor == None && View().log == [] && View().sent == []
    {
      this.id, this.peers := id, peers;
      this.heartbeatInterval, this.electionTimeout := heartbeatInterval, electionTimeout;
      term, votedFor, log, role, leader := 0, None, [], Follower, None;
      commit, applied, next, matched, votes := 0, 0, map[], map[], {};
      pending, acknowledged, round, acked, barriers, finished := map[], {}, 0, map[], [], {};
      sent := [];
    }

    // Checks the configuration, then resumes from the hard state and the log; a
    // log store that cannot be read stops it before anything is forgotten.
    method Start(readable: bool) returns (ok: bool)
      modifies this
      ensures ok <==> id != 0 && peers != [] && id in peers && Unique(peers) &&
                      heartbeatInterval < electionTimeout && readable
      ensures View() == if ok then S.Restart(old(View())) else old(View())
    {
      UniqueIffCount(peers);
      var members := set p | p in peers;
      assert members == Members(peers);
      ok := id != 0 && peers != [] && id in peers && |members| == |peers| &&
            heartbeatInterval < electionTimeout && readable;
      if ok { Reset(); }
    }

    method Reset()
      modifies this
      ensures View() == S.Restart(old(View()))
    {
      hide View, S.Restart;
      ghost var n := View();
      ForgetRole();
      ForgetRequests();
      ForgetProgress();
      RestartForgets(n);
    }

    method ForgetRole()
      modifies this`role, this`leader, this`votes, this`commit, this`applied
      ensures View() == old(View()).(role := Follower, leader := None, votes := {}, commit := 0, applied := 0)
    {
      hide View;
      ForgetOffice();
      ForgetCommit();
    }

    method ForgetOffice()
      modifies this`role, this`leader, this`votes
      ensures View() == old(View()).(role := Follower, leader := None, votes := {})
    {
      role, leader, votes := Follower, None, {};
    }

    method ForgetCommit()
      modifies this`commit, this`applied
      ensures View() == old(View()).(commit := 0, applied := 0)
    {
      commit, applied := 0, 0;
    }

    method ForgetRequests()
      modifies this`pending, this`acknowledged, this`barriers, this`finished
      ensures View() == old(View()).(pending := map[], acknowledged := {}, barriers := [], finished := {})
    {
      pending, acknowledged, barriers, finished := map[], {}, [], {};
    }

    method ForgetProgress()
      modifies this`next, this`matched, this`round, this`acked
      ensures next == map[] && matched == map[] && round == 0 && acked == map[]
      ensures View() == old(View()).(next := map[], matched := map[], round := 0, acked := map[])
    {
      next, matched, round, acked := map[], map[], 0, map[];
    }

    // ------------------------------------------------------------ messages out

    method Send(to: NodeId, m: Message)
      modifies this
      ensures View() == S.Send(old(View()), to, m)
    {
      sent := sent + [Packet(id, to, m)];
    }

    method Track(to: NodeId)
      modifies this`next, this`matched
      ensures View() == S.TrackPeer(old(View()), to)
    {
      if to !in next { next := next[to := |log| + 1]; }
      if to !in matched { matched := matched[to := 0]; }
    }

    method SendAppend(to: NodeId)
      modifies this
      ensures View() == S.SendAppend(old(View()), to)
    {
      Track(to);
      var n := next[to];
      if n == 0 || n - 1 > |log| { return; }
      var prev := n - 1;
      var prevTerm := if prev == 0 then 0 else log[prev - 1].term;
      var entries := SuffixFrom(log, prev);
      Send(to, AppendEntries(term, id, prev, prevTerm, entries, commit, round));
    }

    method SendHeartbeats()
      modifies this
      ensures View() == S.SendHeartbeats(old(View()))
    {
      round := round + 1;
      for k := 0 to |peers|
        invariant S.SendFrom(View(), k) == S.SendHeartbeats(old(View()))
      {
        if peers[k] != id { SendAppend(peers[k]); }
      }
    }

    method RequestVotes()
      modifies this
      ensures View() == S.RequestVotesFrom(old(View()), 0)
    {
      for k := 0 to |peers|
        invariant S.RequestVotesFrom(View(), k) == S.RequestVotesFrom(old(View()), 0)
      {
        if peers[k] != id { Send(peers[k], RequestVote(term, id, |log|, S.LastTerm(log))); }
      }
    }

    // --------------------------------------------------------------- quorums

    // The largest index a commit quorum is known to hold.
    method QuorumMatchIndex() returns (q: nat)
      ensures q == S.QuorumMatch(View())
      ensures Unique(peers) && |peers| > 0 ==>
                forall x: nat :: q >= x <==> |Holders(peers, matched, x)| >= (|peers| - 1) / 2 + 1
    {
      var matches: seq<nat> := [];
      for k := 0 to |peers|
        invariant matches == S.Matches(peers[..k], matched)
      {
        assert peers[..k + 1] == peers[..k] + [peers[k]];
        matches := matches + [S.Get(matched, peers[k])];
      }
      assert peers[..|peers|] == peers;
      matches := SortDescending(matches);
      SortDescSorts(S.Matches(peers, matched));
      q := if |matches| == 0 then 0 else matches[(|matches| - 1) / 2];
      if Unique(peers) && |peers| > 0 {
        forall x: nat ensures q >= x <==> |Holders(peers, matched, x)| >= (|peers| - 1) / 2 + 1 {
          QuorumMatchExact(View(), x);
        }
      }
    }

    method QuorumAcknowledged(r: nat) returns (b: bool)
      ensures b == S.QuorumAcknowledged(View(), r)
    {
      var count := 1;
      for k := 0 to |peers|
        invariant count + S.AckersFrom(View(), r, k) == 1 + S.AckersFrom(View(), r, 0)
      {
        if peers[k] != id && peers[k] in acked && acked[peers[k]] >= r { count := count + 1; }
      }
      b := count >= |peers| / 2 + 1;
    }

    // ---------------------------------------------------- barriers, proposals

    method EvaluateBarriers()
      modifies this`barriers, this`finished
      ensures View() == S.EvaluateBarriers(old(View()))
    {
      var left, served := ServeBarriers();
      barriers, finished := left, finished + served;
    }

    // Walks the waiting barriers and takes out those that can be answered.
    method ServeBarriers() returns (left: seq<Barrier>, served: set<(nat, nat)>)
      ensures left == S.Waiting(View(), barriers) && served == S.Served(View(), barriers)
    {
      hide Served, S.QuorumAcknowledged;
      ghost var n, k := View(), 0;
      var i := 0;
      left, served := barriers, {};
      ServedStart(n);
      while i < |left|
        invariant Served(n, k, i, left, served)
        decreases |left| - i
      {
        var b := left[i];
        var ready := QuorumAcknowledged(b.round);
        ServedStep(n, k, i, left, served);
        if ready && applied >= b.target {
          left, served := left[..i] + left[i + 1..], served + {(b.term, b.round)};
        } else {
          i := i + 1;
        }
        k := k + 1;
      }
      ServedEnd(n, k, i, left, served);
    }

    method FailPendingProposals(from: nat)
      modifies this`pending
      ensures View() == S.DropPending(old(View()), from)
    {
      var keys := pending.Keys;
      while keys != {}
        invariant keys <= pending.Keys <= old(pending).Keys
        invariant forall i :: i in old(pending) && i !in keys ==> (i in pending <==> i < from)
        invariant forall i :: i in pending ==> pending[i] == old(pending)[i]
        decreases keys
      {
        var i :| i in keys;
        keys := keys - {i};
        if i >= from { pending := pending - {i}; }
      }
    }

    // ---------------------------------------------------------- apply, commit

    method ApplyNext()
      modifies this`applied, this`acknowledged, this`pending
      ensures View() == S.ApplyNext(old(View()))
    {
      applied := applied + 1;
      if applied in pending {
        acknowledged := acknowledged + {pending[applied]};
        pending := pending - {applied};
      }
    }

    method StopApplying()
      modifies this`pending, this`barriers
      ensures View() == S.DropPending(old(View()), applied + 1).(barriers := [])
    {
      FailPendingProposals(applied + 1);
      barriers := [];
    }

    method ApplyCommitted(stop: nat) returns (ok: bool)
      modifies this
      ensures (View(), ok) == S.ApplyCommitted(old(View()), stop)
    {
      hide S.DropPending, S.EvaluateBarriers, S.ApplyNext;
      while applied < commit
        invariant S.ApplyCommitted(View(), stop) == S.ApplyCommitted(old(View()), stop)
        decreases commit - applied
      {
        if applied + 1 > |log| { return false; }
        if applied + 1 > stop {
          StopApplying();
          return false;
        }
        ghost var before := View();
        ApplyNext();
        AppliedOne(before);
      }
      EvaluateBarriers();
      return true;
    }

    method AdvanceCommit(stop: nat) returns (ok: bool)
      modifies this
      ensures (View(), ok) == S.AdvanceCommit(old(View()), stop)
    {
      var q := QuorumMatchIndex();
      if q <= commit || q > |log| || log[q - 1].term != term { return true; }
      commit := q;
      ok := ApplyCommitted(stop);
      if ok && |peers| > 1 { SendHeartbeats(); }
    }

    // ------------------------------------------------------------------ roles

    // The flag is false when the new term could not be stored.
    method BecomeFollower(t: nat, hint: Option<NodeId>, writes: nat) returns (ok: bool, left: nat)
      modifies this
      ensures (View(), ok, left) == S.BecomeFollower(old(View()), t, hint, writes)
    {
      left := writes;
      if t > term {
        if writes == 0 { return false, 0; }
        left := writes - 1;
        term, votedFor := t, None;
      }
      StepDown(hint);
      ok := true;
    }

    method StepDown(hint: Option<NodeId>)
      modifies this`pending, this`barriers, this`role, this`leader, this`votes
      ensures View() == S.StepDown(old(View()), hint)
    {
      if role == Leader {
        pending := map[];
        barriers := [];
      }
      role, leader, votes := Follower, hint, {};
    }

    method AppendOwn(data: string)
      modifies this`log, this`matched, this`next
      ensures View() == S.AppendOwn(old(View()), data)
    {
      var i := |log| + 1;
      log := log + [Entry(i, term, data)];
      matched := matched[id := i];
      next := next[id := i + 1];
    }

    method InitializeLeaderProgress()
      modifies this`next, this`matched, this`acked, this`round
      ensures View() == S.InitialProgress(old(View()))
    {
      hide View, S.InitialProgress;
      ghost var n := View();
      assert n.peers == peers && n.id == id && n.log == log by {
        ViewFields();
      }
      ForgetProgress();
      FillProgress();
      InitialTables(n, next, matched);
    }

    lemma ViewFields()
      ensures View().peers == peers && View().id == id && View().log == log
    {
    }

    method FillProgress()
      requires next == map[] && matched == map[]
      modifies this`next, this`matched
      ensures View() == old(View()).(next := next, matched := matched)
      ensures forall p :: (p in next <==> p in peers) && (p in matched <==> p in peers)
      ensures forall p :: p in next ==> next[p] == |log| + 1
      ensures forall p :: p in matched ==> matched[p] == if p == id then |log| else 0
    {
      for k := 0 to |peers|
        invariant forall p :: p in next <==> p in peers[..k]
        invariant forall p :: p in next ==> next[p] == |log| + 1
        invariant forall p :: p in matched <==> p in peers[..k]
        invariant forall p :: p in matched ==> matched[p] == if p == id then |log| else 0
      {
        assert peers[..k + 1] == peers[..k] + [peers[k]];
        next := next[peers[k] := |log| + 1];
        matched := matched[peers[k] := if peers[k] == id then |log| else 0];
      }
      assert peers[..|peers|] == peers;
    }

    method BecomeLeader(f: Faults)
      modifies this
      ensures View() == S.BecomeLeader(old(View()), f)
    {
      hide S.AdvanceCommit, S.SendHeartbeats;
      if role != Candidate { return; }
      role, leader := Leader, Some(id);
      InitializeLeaderProgress();
      if f.writes == 0 || term == 0 {
        var _, _ := BecomeFollower(term, None, 0);
      } else {
        AppendOwn("");
        SendHeartbeats();
        var _ := AdvanceCommit(f.stop);
      }
    }

    method Campaign()
      modifies this`role, this`term, this`votedFor, this`leader, this`votes
      ensures View() == S.Campaign(old(View()))
    {
      role, term, votedFor, leader, votes := Candidate, term + 1, Some(id), None, {id};
    }

    method StartElection(f: Faults)
      modifies this
      ensures View() == S.StartElection(old(View()), f)
    {
      hide S.BecomeLeader, S.RequestVotesFrom;
      if f.writes == 0 {
        leader := None;
        return;
      }
      Campaign();
      if 1 >= |peers| / 2 + 1 {
        BecomeLeader(Faults(f.writes - 1, f.stop));
      } else {
        RequestVotes();
      }
    }

    // --------------------------------------------------------------- handlers

    method HandleRequestVote(from: NodeId, m: Message, f: Faults)
      requires m.RequestVote?
      modifies this
      ensures View() == S.HandleRequestVote(old(View()), from, m, f)
    {
      if m.term < term {
        Send(from, VoteReply(term, false));
        return;
      }
      var w := f.writes;
      if m.term > term {
        var ok;
        ok, w := BecomeFollower(m.term, None, f.writes);
        if !ok { return; }
      }
      var granted := (votedFor == None || votedFor == Some(m.candidate))
                     && S.UpToDate(log, m.lastIndex, m.lastTerm);
      if granted {
        if w == 0 { return; }
        votedFor := Some(m.candidate);
      }
      Send(from, VoteReply(term, granted));
    }

    method HandleVoteReply(from: NodeId, m: Message, f: Faults)
      requires m.VoteReply?
      modifies this
      ensures View() == S.HandleVoteReply(old(View()), from, m, f)
    {
      if m.term > term {
        var _, _ := BecomeFollower(m.term, None, f.writes);
        return;
      }
      if role != Candidate || m.term != term || !m.granted { return; }
      votes := votes + {from};
      if |votes| >= |peers| / 2 + 1 { BecomeLeader(f); }
    }

    // Works through a batch entry by entry; false means it stopped early.
    method AppendBatch(m: Message, writes: nat) returns (ok: bool)
      requires m.AppendEntries?
      modifies this`log, this`pending
      ensures (View(), ok) == S.AppendBatch(old(View()), m.prevIndex, m.term, m.entries, 0, writes)
    {
      var w, k := writes, 0;
      while k < |m.entries|
        invariant 0 <= k <= |m.entries|
        invariant S.AppendBatch(View(), m.prevIndex, m.term, m.entries, k, w) ==
                  S.AppendBatch(old(View()), m.prevIndex, m.term, m.entries, 0, writes)
      {
        var e, index := m.entries[k], m.prevIndex + k + 1;
        if e.index != index || e.term != m.term { return false; }
        if index <= |log| {
          if log[index - 1].term != e.term {
            if w == 0 { return false; }
            w := w - 1;
            log := log[..index - 1];
            FailPendingProposals(index);
          } else if log[index - 1].data != e.data {
            return false;
          }
        }
        if index > |log| {
          if w == 0 || e.term == 0 || |log| + 1 != index { return false; }
          w := w - 1;
          log := log + [e];
        }
        k := k + 1;
      }
      ok := true;
    }

    method HandleAppendEntries(from: NodeId, m: Message, f: Faults)
      requires m.AppendEntries?
      modifies this
      ensures View() == S.HandleAppendEntries(old(View()), from, m, f)
    {
      hide S.Accept, S.BecomeFollower;
      if m.term < term {
        Send(from, AppendReply(term, false, 0, m.round, 0));
        return;
      }
      var ok, w := true, f.writes;
      if m.term > term || role != Follower {
        ok, w := BecomeFollower(m.term, Some(m.leader), f.writes);
        if !ok { return; }
      } else {
        leader := Some(m.leader);
      }
      assert (View(), ok, w) == S.Follow(old(View()), m, f.writes);
      if m.prevIndex > |log| || (m.prevIndex != 0 && log[m.prevIndex - 1].term != m.prevTerm) {
        Send(from, AppendReply(term, false, 0, m.round, |log|));
        return;
      }
      Accept(from, m, w, f.stop);
    }

    method Accept(from: NodeId, m: Message, writes: nat, stop: nat)
      requires m.AppendEntries?
      modifies this
      ensures View() == S.Accept(old(View()), from, m, writes, stop)
    {
      hide S.AppendBatch, S.ApplyCommitted;
      var done := AppendBatch(m, writes);
      if !done { return; }
      if m.leaderCommit > commit { commit := S.Min(m.leaderCommit, |log|); }
      var _ := ApplyCommitted(stop);
      Send(from, AppendReply(term, true, m.prevIndex + |m.entries|, m.round, 0));
    }

    method HandleAppendReply(from: NodeId, m: Message, f: Faults)
      requires m.AppendReply?
      modifies this
      ensures View() == S.HandleAppendReply(old(View()), from, m, f)
    {
      hide S.BecomeFollower, S.AdvanceCommit, S.EvaluateBarriers, S.SendAppend, S.Progress;
      if m.term > term {
        var _, _ := BecomeFollower(m.term, None, f.writes);
        return;
      }
      if role != Leader || m.term != term { return; }
      if m.success {
        RecordProgress(from, m.matchIndex, m.round);
        var oldCommit := commit;
        var ok := AdvanceCommit(f.stop);
        if !ok { return; }
        EvaluateBarriers();
        if S.Get(matched, from) < |log| || commit != oldCommit { SendAppend(from); }
      } else {
        BackUp(from);
        SendAppend(from);
      }
    }

    method RecordProgress(from: NodeId, match_: nat, r: nat)
      modifies this`matched, this`next, this`acked
      ensures View() == S.Progress(old(View()), from, match_, r)
    {
      var mi := S.Max(S.Get(matched, from), match_);
      matched := matched[from := mi];
      next := next[from := S.Max(S.Get(next, from), mi + 1)];
      acked := acked[from := S.Max(S.Get(acked, from), r)];
    }

    method BackUp(from: NodeId)
      modifies this`next
      ensures var n := old(View());
              var x := S.Get(n.next, from);
              View() == n.(next := n.next[from := if x > 1 then x - 1 else x])
    {
      var x := S.Get(next, from);
      next := next[from := if x > 1 then x - 1 else x];
    }

    method HandleMessage(from: NodeId, m: Message, f: Faults)
      modifies this
      ensures View() == S.HandleMessage(old(View()), from, m, f)
    {
      match m
      case RequestVote(_, _, _, _) => HandleRequestVote(from, m, f);
      case VoteReply(_, _) => HandleVoteReply(from, m, f);
      case AppendEntries(_, _, _, _, _, _, _) => HandleAppendEntries(from, m, f);
      case AppendReply(_, _, _, _, _) => HandleAppendReply(from, m, f);
    }

    // -------------------------------------------------------------- interface

    method Tick(due: bool, f: Faults, stop: nat)
      modifies this
      ensures View() == S.Tick(old(View()), due, f, stop)
    {
      if due {
        if role == Leader { SendHeartbeats(); } else { StartElection(f); }
      }
      var _ := ApplyCommitted(stop);
    }

    method Propose(data: string, f: Faults) returns (result: ProposeResult)
      modifies this
      ensures (View(), result) == S.Propose(old(View()), data, f)
    {
      hide S.AdvanceCommit, S.SendHeartbeats;
      if role != Leader { return ProposeNotLeader; }
      if f.writes == 0 || term == 0 { return ProposeStoreFailed; }
      var index := |log| + 1;
      AppendOwn(data);
      pending := pending[index := Entry(index, term, data)];
      AdvanceCommitFrame(View(), f.stop);
      var _ := AdvanceCommit(f.stop);
      SendHeartbeatsFrame(View());
      SendHeartbeats();
      result := Proposed(index, term, index <= commit);
    }

    method ReadBarrier() returns (result: ReadResult)
      modifies this
      ensures (View(), result) == S.ReadBarrier(old(View()))
    {
      if role != Leader { return ReadNotLeader; }
      var target := commit;
      SendHeartbeats();
      var quorum := QuorumAcknowledged(round);
      if quorum && applied >= target {
        finished := finished + {(term, round)};
      } else {
        barriers := barriers + [Barrier(term, round, target)];
      }
      result := ReadIndex(target, term, round);
    }
  }
}
