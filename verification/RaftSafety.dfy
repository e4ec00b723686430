/**
 Safety over whole runs: the four properties of figure 3 of "In Search of an
 Understandable Consensus Algorithm" (extended version) plus durability of
 acknowledged proposals, for every run of the step system in RaftCluster.dfy.
 */
module RaftSafety {
  import opened RaftTypes
  import opened RaftHistory
  import opened RaftInvariant
  import opened RaftReplication
  import opened RaftCluster

  datatype Run = Run(states: seq<Cluster>, events: seq<Event>)

  ghost predicate StepOf(r: Run, k: nat)
    requires k < |r.events| && |r.states| == |r.events| + 1
  {
    Enabled(r.states[k], r.events[k]) && r.states[k + 1] == Next(r.states[k], r.events[k])
  }

  ghost predicate IsRun(r: Run) {
    && |r.states| == |r.events| + 1
    && Init(r.states[0])
    && forall k :: 0 <= k < |r.events| ==> StepOf(r, k)
  }

  // The record of a run, state by state.
  ghost predicate Recorded(r: Run, hs: seq<History>) {
    && |hs| == |r.states|
    && (forall k :: 0 <= k < |hs| ==> Inv(r.states[k], hs[k]))
    && (forall j, k :: 0 <= j <= k < |hs| ==> Extends(hs[j], hs[k]))
    && (forall k :: 0 <= k < |hs| ==> r.states[k].Keys == r.states[0].Keys)
  }

  lemma {:induction false} RecordRun(r: Run) returns (hs: seq<History>)
    requires IsRun(r)
    ensures Recorded(r, hs)
    decreases |r.events|
  {
    hide Inv, Extends, Init;
    if |r.events| == 0 {
      InitInv(r.states[0]);
      hs := [History(map[], map[], map[])];
      ExtendsReflexive(hs[0]);
    } else {
      var m := |r.events| - 1;
      var q := Run(r.states[..m + 1], r.events[..m]);
      forall k | 0 <= k < |q.events| ensures StepOf(q, k) { assert StepOf(r, k); }
      var gs := RecordRun(q);
      assert StepOf(r, m);
      var g := StepKeepsInv(r.states[m], r.events[m], gs[m]);
      assert r.states[m + 1].Keys == r.states[m].Keys;
      hs := gs + [g];
      ExtendsReflexive(g);
      forall j, k | 0 <= j <= k < |hs| ensures Extends(hs[j], hs[k]) {
        if j < k == m + 1 { ExtendsTransitive(gs[j], gs[m], g); }
      }
    }
  }

  ghost predicate Holds(r: Run, k: nat, a: NodeId) {
    IsRun(r) && k < |r.states| && a in r.states[k]
  }

  // What a member's state still means once the record has grown.
  ghost predicate Seen(h: History, ids: set<NodeId>, n: Node) {
    && Backed(h, n.log)
    && n.commit <= |n.log|
    && Committed(h, ids, n.log[..n.commit], n.term)
    && (n.role == Leader ==>
          n.term in h.reigns && h.reigns[n.term].leader == n.id && n.log <= h.reigns[n.term].log)
    && (forall e :: e in n.acknowledged ==> 1 <= e.index <= n.commit && n.log[e.index - 1] == e)
    && (forall p :: p in n.sent && p.msg.AppendEntries? ==> AppendOk(h, ids, n.id, p.msg))
  }

  lemma SeenLater(c: Cluster, g: History, h: History, a: NodeId)
    requires Inv(c, g) && Extends(g, h) && a in c
    ensures Seen(h, c.Keys, c[a]) && c[a].id == a
  {
    hide HistoryOk, NodeOk, Extends;
    assert NodeOk(g, c.Keys, c[a]);
    NodeSeen(g, h, c.Keys, c[a]);
  }

  lemma NodeSeen(g: History, h: History, ids: set<NodeId>, n: Node)
    requires NodeOk(g, ids, n) && Extends(g, h)
    ensures Seen(h, ids, n)
  {
    LeadSeen(g, h, ids, n);
    PacketsSeen(g, h, ids, n);
    assert Backed(g, n.log) && n.commit <= |n.log| && Committed(g, ids, n.log[..n.commit], n.term);
    assert forall e :: e in n.acknowledged ==> 1 <= e.index <= n.commit && n.log[e.index - 1] == e;
    hide NodeOk, Extends, Backed, Committed;
    BackedGrows(g, h, n.log);
    CommittedGrows(g, h, ids, n.log[..n.commit], n.term, n.term);
  }

  lemma LeadSeen(g: History, h: History, ids: set<NodeId>, n: Node)
    requires NodeOk(g, ids, n) && Extends(g, h)
    ensures n.role == Leader ==>
              n.term in h.reigns && h.reigns[n.term].leader == n.id && n.log <= h.reigns[n.term].log
  {
    hide PacketsOk, LogOk, VoteOk, SupportOk, CandidateOk, AcksOk, CommitOk, MatchOk, ProposalsOk;
  }

  lemma PacketsSeen(g: History, h: History, ids: set<NodeId>, n: Node)
    requires NodeOk(g, ids, n) && Extends(g, h)
    ensures forall p :: p in n.sent && p.msg.AppendEntries? ==> AppendOk(h, ids, n.id, p.msg)
  {
    assert PacketsOk(g, ids, n);
    hide NodeOk, Extends, AppendOk;
    forall p | p in n.sent && p.msg.AppendEntries? ensures AppendOk(h, ids, n.id, p.msg) {
      assert PacketOk(g, ids, n, p);
      AppendOkGrows(g, h, ids, n.id, p.msg);
    }
  }

  lemma LeaderNow(c: Cluster, g: History, a: NodeId)
    requires Inv(c, g) && a in c && c[a].role == Leader
    ensures c[a].term in g.reigns && c[a].log == g.reigns[c[a].term].log
  {
    hide HistoryOk;
    assert NodeOk(g, c.Keys, c[a]);
  }

  // Two members at two moments of a run, seen through one record.
  lemma TwoViews(r: Run, j: nat, a: NodeId, k: nat, b: NodeId) returns (h: History, ids: set<NodeId>)
    requires Holds(r, j, a) && Holds(r, k, b)
    ensures ids != {} && HistoryOk(h, ids)
    ensures Seen(h, ids, r.states[j][a]) && r.states[j][a].id == a
    ensures Seen(h, ids, r.states[k][b]) && r.states[k][b].id == b
    ensures j <= k && r.states[k][b].role == Leader ==>
              r.states[k][b].log == h.reigns[r.states[k][b].term].log
  {
    hide HistoryOk, MembersOk, Seen, Extends, IsRun;
    var hs := RecordRun(r);
    var top := if j < k then k else j;
    h, ids := hs[top], r.states[0].Keys;
    assert Inv(r.states[top], hs[top]);
    SeenLater(r.states[j], hs[j], h, a);
    SeenLater(r.states[k], hs[k], h, b);
    if j <= k && r.states[k][b].role == Leader { LeaderNow(r.states[k], hs[k], b); }
  }

  // Election Safety: whoever leads in a term, at whatever moments, is the same member.
  lemma ElectionSafety(r: Run, j: nat, k: nat, a: NodeId, b: NodeId)
    requires Holds(r, j, a) && Holds(r, k, b)
    requires r.states[j][a].role == Leader && r.states[k][b].role == Leader
    requires r.states[j][a].term == r.states[k][b].term
    ensures a == b
  {
    var h, ids := TwoViews(r, j, a, k, b);
  }

  // Log Matching, also between moments.
  lemma LogMatchingInRuns(r: Run, j: nat, k: nat, a: NodeId, b: NodeId, x: nat)
    requires Holds(r, j, a) && Holds(r, k, b)
    requires x < |r.states[j][a].log| && x < |r.states[k][b].log|
    requires r.states[j][a].log[x].term == r.states[k][b].log[x].term
    ensures r.states[j][a].log[..x + 1] == r.states[k][b].log[..x + 1]
  {
    hide HistoryOk, IsRun;
    var h, ids := TwoViews(r, j, a, k, b);
    LogMatching(h, r.states[j][a].log, r.states[k][b].log, x);
  }

  // Leader Completeness: what anybody has committed is in the log of every
  // later leader of that member's term or a higher one.
  lemma LeaderCompletenessInRuns(r: Run, j: nat, k: nat, a: NodeId, b: NodeId)
    requires Holds(r, j, a) && Holds(r, k, b)
    requires j <= k && r.states[k][b].role == Leader && r.states[j][a].term <= r.states[k][b].term
    ensures r.states[j][a].commit <= |r.states[j][a].log|
    ensures r.states[j][a].log[..r.states[j][a].commit] <= r.states[k][b].log
  {
    hide HistoryOk, IsRun, Backed, AppendOk;
    var h, ids := TwoViews(r, j, a, k, b);
    var na, nb := r.states[j][a], r.states[k][b];
    CommittedInReign(h, ids, na.log[..na.commit], na.term, nb.term);
  }

  // State Machine Safety: members agree on everything both have committed.
  lemma StateMachineSafety(r: Run, j: nat, k: nat, a: NodeId, b: NodeId, x: nat)
    requires Holds(r, j, a) && Holds(r, k, b)
    requires x < r.states[j][a].commit && x < r.states[k][b].commit
    ensures x < |r.states[j][a].log| && x < |r.states[k][b].log|
    ensures r.states[j][a].log[..x + 1] == r.states[k][b].log[..x + 1]
  {
    hide HistoryOk, IsRun, Backed, AppendOk;
    var h, ids := TwoViews(r, j, a, k, b);
    var na, nb := r.states[j][a], r.states[k][b];
    CommittedAgree(h, ids, na.log[..na.commit], na.term, nb.log[..nb.commit], nb.term);
    assert na.log[..x + 1] == na.log[..na.commit][..x + 1];
    assert nb.log[..x + 1] == nb.log[..nb.commit][..x + 1];
  }

  // An acknowledged proposal is never replaced: every member that has committed
  // its index holds it there, at any moment of the run.
  lemma AcknowledgedIsPermanent(r: Run, j: nat, k: nat, a: NodeId, b: NodeId, e: Entry)
    requires Holds(r, j, a) && Holds(r, k, b) && e in r.states[j][a].acknowledged
    requires 1 <= e.index <= r.states[k][b].commit
    ensures e.index <= |r.states[k][b].log| && r.states[k][b].log[e.index - 1] == e
  {
    hide HistoryOk, IsRun, Backed, AppendOk;
    var h, ids := TwoViews(r, j, a, k, b);
    var na, nb := r.states[j][a], r.states[k][b];
    hide Seen;
    StateMachineSafety(r, j, k, a, b, e.index - 1);
    assert na.log[..e.index][e.index - 1] == e;
  }

  // Every request a leader ever sent stays within the log it carries.
  lemma RequestCommitIsCarried(r: Run, k: nat, a: NodeId, p: Packet)
    requires Holds(r, k, a) && p in r.states[k][a].sent && p.msg.AppendEntries?
    ensures p.msg.leaderCommit <= p.msg.prevIndex + |p.msg.entries|
  {
    hide HistoryOk, IsRun, Backed, Committed;
    var h, ids := TwoViews(r, k, a, k, a);
  }

  // The error branch "same log position has different data" is unreachable.
  lemma SamePositionSameData(r: Run, k: nat, p: Packet, x: nat)
    requires Holds(r, k, p.src) && p.dst in r.states[k] && p in r.states[k][p.src].sent
    requires p.msg.AppendEntries? && x < |p.msg.entries|
    requires p.msg.prevIndex + x < |r.states[k][p.dst].log|
    requires r.states[k][p.dst].log[p.msg.prevIndex + x].term == p.msg.entries[x].term
    ensures r.states[k][p.dst].log[p.msg.prevIndex + x] == p.msg.entries[x]
  {
    hide HistoryOk, IsRun, Seen;
    var h, ids := TwoViews(r, k, p.src, k, p.dst);
    SameDataSeen(h, ids, r.states[k][p.src], r.states[k][p.dst], p, x);
  }

  lemma SameDataSeen(h: History, ids: set<NodeId>, from: Node, n: Node, p: Packet, x: nat)
    requires HistoryOk(h, ids) && Seen(h, ids, from) && Seen(h, ids, n)
    requires p in from.sent && p.msg.AppendEntries? && x < |p.msg.entries|
    requires p.msg.prevIndex + x < |n.log| && n.log[p.msg.prevIndex + x].term == p.msg.entries[x].term
    ensures n.log[p.msg.prevIndex + x] == p.msg.entries[x]
  {
    var m := p.msg;
    assert AppendOk(h, ids, from.id, m) && Backed(h, n.log);
    ReignBacked(h, ids, m.term);
    hide HistoryOk, Seen, Committed, Backed;
    SameTermSameEntry(h, h.reigns[m.term].log, n.log, m.prevIndex, m.entries, x);
  }
}
