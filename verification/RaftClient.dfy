/**
 What a client of a group is told, over whole runs: the answer to a proposal
 and what it promises for the rest of the run.
 */
module RaftClient {
  import opened RaftTypes
  import opened RaftSpec
  import opened RaftHistory
  import opened RaftInvariant
  import opened RaftCluster
  import opened RaftSafety
  import opened RaftReads
  import opened RaftAnswers

  lemma LeaderFacts(h: History, ids: set<NodeId>, n: Node)
    requires HistoryOk(h, ids) && NodeOk(h, ids, n)
    ensures n.applied <= n.commit <= |n.log|
    ensures n.role == Leader ==> n.term > 0
  {
    hide PacketsOk, MatchOk, AcksOk, VoteOk, LogOk, BallotOk, AckOk;
    if n.role == Leader { assert ReignOk(h, ids, n.term); }
  }

  /**
   A proposal is taken exactly by a leader whose log store works; its answer
   names the slot the entry has from then on, and says whether the leader has
   committed it.
   */
  lemma WriteAnswer(r: Run, k: nat, a: NodeId, data: string, f: Faults)
    requires IsRun(r) && k < |r.events| && r.events[k] == Write(a, data, f)
    ensures a in r.states[k] && a in r.states[k + 1]
    ensures var n, n', res := r.states[k][a], r.states[k + 1][a], Propose(r.states[k][a], data, f).1;
            && (res.ProposeNotLeader? <==> n.role != Leader)
            && (res.ProposeStoreFailed? <==> n.role == Leader && f.writes == 0)
            && (!res.Proposed? ==> n' == n)
            && (res.Proposed? ==>
                  && res.index == |n.log| + 1 == |n'.log| && res.term == n.term == n'.term
                  && n'.log == n.log + [Entry(res.index, res.term, data)]
                  && (res.committed <==> n'.commit >= res.index))
  {
    hide Inv, Extends, Init, Advances, Propose;
    var hs := RecordRun(r);
    StepFacts(r, hs, k);
    var n := r.states[k][a];
    assert r.states[k + 1][a] == Propose(n, data, f).0;
    assert Inv(r.states[k], hs[k]);
    WriteFacts(r.states[k], hs[k], a);
    if n.role == Leader && f.writes > 0 { ProposalAnswer(n, data, f); }
    else { ProposalRefused(n, data, f); }
  }

  lemma WriteFacts(c: Cluster, h: History, a: NodeId)
    requires Inv(c, h) && a in c
    ensures c[a].applied <= c[a].commit <= |c[a].log|
    ensures c[a].role == Leader ==> c[a].term > 0
  {
    hide NodeOk, HistoryOk;
    MemberOk(c, h, a);
    LeaderFacts(h, c.Keys, c[a]);
  }

  /** A proposal answered as committed stands in that slot at every member that ever commits so far. */
  lemma CommittedWriteIsPermanent(r: Run, k: nat, a: NodeId, data: string, f: Faults, j: nat, b: NodeId)
    requires IsRun(r) && k < |r.events| && r.events[k] == Write(a, data, f)
    requires a in r.states[k] && Propose(r.states[k][a], data, f).1.Proposed? && Propose(r.states[k][a], data, f).1.committed
    requires j < |r.states| && b in r.states[j]
    ensures var i, t := Propose(r.states[k][a], data, f).1.index, Propose(r.states[k][a], data, f).1.term;
            1 <= i <= r.states[j][b].commit ==>
              i <= |r.states[j][b].log| && r.states[j][b].log[i - 1] == Entry(i, t, data)
  {
    hide Propose, IsRun;
    RunLength(r);
    WriteAnswer(r, k, a, data, f);
    var i := Propose(r.states[k][a], data, f).1.index;
    if 1 <= i <= r.states[j][b].commit {
      StateMachineSafety(r, k + 1, j, a, b, i - 1);
      var la, lb := r.states[k + 1][a].log, r.states[j][b].log;
      assert la[..i][i - 1] == lb[..i][i - 1];
    }
  }

  lemma RunLength(r: Run)
    requires IsRun(r)
    ensures |r.states| == |r.events| + 1
  {
  }
}
