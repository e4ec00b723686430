/**
 Replication: what a leader appends and sends, what a follower makes of it, and
 how commit indices move, all keep the invariant.
 */
module RaftReplication {
  import opened Wrappers
  import opened RaftTypes
  import opened RaftSpec
  import opened RaftQuorum
  import opened RaftHistory
  import opened RaftInvariant
  import opened RaftElection

  // ---------------------------------------------------- the leader appends

  ghost function Grown(h: History, n: Node, data: string): History {
    var log := n.log + [Entry(|n.log| + 1, n.term, data)];
    h.(reigns := map t | t in h.reigns :: if t == n.term then h.reigns[t].(log := log) else h.reigns[t],
       acks := h.acks[(n.term, n.id) := |log|])
  }

  ghost predicate Leads(h: History, ids: set<NodeId>, n: Node) {
    HistoryOk(h, ids) && NodeOk(h, ids, n) && n.role == Leader
  }

  lemma OwnAckBounded(h: History, ids: set<NodeId>, n: Node)
    requires Leads(h, ids, n)
    ensures (n.term, n.id) in h.acks ==> h.acks[(n.term, n.id)] <= |n.log|
  {
    if (n.term, n.id) in h.acks { assert AckOk(h, ids, (n.term, n.id)); }
  }

  lemma GrownExtends(h: History, n: Node, data: string)
    requires LeadOk(h, n) && n.role == Leader
    requires (n.term, n.id) in h.acks ==> h.acks[(n.term, n.id)] <= |n.log|
    ensures Extends(h, Grown(h, n, data))
  {
    assert n.log <= n.log + [Entry(|n.log| + 1, n.term, data)];
  }

  lemma GrownUntouched(h: History, n: Node, data: string)
    requires LeadOk(h, n) && n.role == Leader
    ensures forall i :: i != n.id ==> Untouched(h, Grown(h, n, data), i)
  {
  }

  lemma GrownLog(h: History, n: Node, data: string)
    requires LogOk(h, n) && LeadOk(h, n) && n.role == Leader && Extends(h, Grown(h, n, data))
    ensures LogOk(Grown(h, n, data), AppendOwn(n, data))
  {
    var g, log := Grown(h, n, data), AppendOwn(n, data).log;
    BackedGrows(h, g, n.log);
    forall i | 0 <= i < |log| ensures BackedAt(g, log, i) {
      if i < |n.log| {
        assert BackedAt(g, n.log, i);
        assert log[..i + 1] == n.log[..i + 1];
      } else {
        assert log[..i + 1] == log;
      }
    }
  }

  lemma GrownReign(h: History, ids: set<NodeId>, n: Node, data: string)
    requires LogOk(h, n) && LeadOk(h, n) && n.role == Leader && Extends(h, Grown(h, n, data))
    requires ReignOk(h, ids, n.term)
    ensures ReignOk(Grown(h, n, data), ids, n.term)
  {
    var g := Grown(h, n, data);
    GrownLog(h, n, data);
    assert AppendOwn(n, data).log == g.reigns[n.term].log;
    forall v | v in g.reigns[n.term].voters ensures VoterOk(g, n.term, v) {
      assert VoterOk(h, n.term, v);
    }
  }

  lemma GrownAck(h: History, ids: set<NodeId>, n: Node, data: string, k: (nat, NodeId))
    requires Leads(h, ids, n) && k in Grown(h, n, data).acks
    ensures AckOk(Grown(h, n, data), ids, k)
  {
    var g := Grown(h, n, data);
    OwnAckBounded(h, ids, n);
    GrownExtends(h, n, data);
    if k != (n.term, n.id) {
      assert AckOk(h, ids, k);
      forall u: nat, m: nat | k.0 < u && m <= g.acks[k] && Counts(g, u, k.1)
        ensures Kept(g, k.0, m, g.ballots[(u, k.1)].log, u)
      {
        assert Counts(h, u, k.1);
        KeptGrows(h, g, k.0, m, h.ballots[(u, k.1)].log, u);
      }
    } else {
      forall u: nat | n.term < u ensures !Counts(g, u, n.id) {
        assert (u, n.id) !in h.ballots;
      }
    }
  }

  lemma GrownOk(h: History, ids: set<NodeId>, n: Node, data: string)
    requires Leads(h, ids, n)
    ensures HistoryOk(Grown(h, n, data), ids)
  {
    var g := Grown(h, n, data);
    OwnAckBounded(h, ids, n);
    GrownExtends(h, n, data);
    GrownReign(h, ids, n, data);
    forall t | t in g.reigns ensures ReignOk(g, ids, t) {
      if t != n.term { ReignGrows(h, g, ids, t); }
    }
    forall k | k in g.ballots ensures BallotOk(g, ids, k) {
      assert BallotOk(h, ids, k);
      BackedGrows(h, g, h.ballots[k].log);
    }
    forall k | k in g.acks ensures AckOk(g, ids, k) { GrownAck(h, ids, n, data, k); }
  }

  lemma GrownAcks(h: History, n: Node, data: string)
    requires AcksOk(h, n) && Extends(h, Grown(h, n, data)) && n.term in h.reigns
    ensures AcksOk(Grown(h, n, data), AppendOwn(n, data))
  {
    var g, n' := Grown(h, n, data), AppendOwn(n, data);
    forall t: nat, m: nat | Acked(g, t, n'.id, m)
      ensures t <= n'.term && t in g.reigns && m <= |g.reigns[t].log| && Kept(g, t, m, n'.log, n'.term + 1)
    {
      if t != n.term {
        assert Acked(h, t, n.id, m);
        KeptGrows(h, g, t, m, n.log, n.term + 1);
      }
    }
  }

  lemma GrownVotes(h: History, ids: set<NodeId>, n: Node, data: string)
    requires VoteOk(h, n) && SupportOk(h, n) && LeadOk(h, n) && n.role == Leader
    ensures VoteOk(Grown(h, n, data), AppendOwn(n, data))
    ensures SupportOk(Grown(h, n, data), AppendOwn(n, data))
    ensures LeadOk(Grown(h, n, data), AppendOwn(n, data))
  {
  }

  lemma GrownCommit(h: History, g: History, ids: set<NodeId>, n: Node, data: string)
    requires n.commit <= |n.log| && CommitOk(h, ids, n) && Extends(h, g)
    ensures CommitOk(g, ids, AppendOwn(n, data))
  {
    hide Committed, Extends;
    var n' := AppendOwn(n, data);
    assert n'.log[..n'.commit] == n.log[..n.commit];
    CommittedGrows(h, g, ids, n.log[..n.commit], n.term, n.term);
  }

  lemma AppendOwnOk(h: History, ids: set<NodeId>, n: Node, data: string)
    requires NodeOk(h, ids, n) && n.role == Leader && Extends(h, Grown(h, n, data))
    ensures NodeOk(Grown(h, n, data), ids, AppendOwn(n, data))
  {
    GrownRest(h, ids, n, data);
    hide LogOk, VoteOk, SupportOk, CandidateOk, LeadOk, AcksOk, CommitOk, MatchOk, ProposalsOk, PacketsOk, Extends, Grown;
    var g, n' := Grown(h, n, data), AppendOwn(n, data);
    GrownVotes(h, ids, n, data);
    GrownLog(h, n, data);
    GrownAcks(h, n, data);
    GrownCommit(h, g, ids, n, data);
    PacketsOkGrows(h, g, ids, n);
    PacketsLater(g, ids, n, n');
  }

  lemma GrownRest(h: History, ids: set<NodeId>, n: Node, data: string)
    requires NodeOk(h, ids, n) && n.role == Leader && Extends(h, Grown(h, n, data))
    ensures n.term in h.reigns
    ensures var g, n' := Grown(h, n, data), AppendOwn(n, data);
            ShapeOk(ids, n') && CandidateOk(g, ids, n') && MatchOk(g, n') && ProposalsOk(n')
  {
    assert n.term in h.reigns;
    hide LogOk, VoteOk, SupportOk, LeadOk, AcksOk, PacketsOk, CommitOk, Extends, Committed, MatchOk, ProposalsOk;
    GrownMatch(h, n, data);
    GrownProposals(n, data);
  }

  lemma GrownMatch(h: History, n: Node, data: string)
    requires MatchOk(h, n) && n.role == Leader && n.term in h.reigns && Extends(h, Grown(h, n, data))
    ensures MatchOk(Grown(h, n, data), AppendOwn(n, data))
  {
  }

  lemma GrownProposals(n: Node, data: string)
    requires ProposalsOk(n) && n.role == Leader
    ensures ProposalsOk(AppendOwn(n, data))
  {
  }

  // ----------------------------------------------------- the leader sends

  // Every request carries the whole suffix, and no commit index beyond its end.
  lemma AppendRequestOk(h: History, ids: set<NodeId>, n: Node, prev: nat)
    requires n.commit <= |n.log| && LeadOk(h, n) && CommitOk(h, ids, n) && n.role == Leader && prev <= |n.log|
    ensures AppendOk(h, ids, n.id, AppendRequest(n, prev))
  {
    assert n.log[prev..prev + |n.log[prev..]|] == n.log[prev..];
  }

  lemma TrackPeerOk(h: History, ids: set<NodeId>, n: Node, to: NodeId)
    requires NodeOk(h, ids, n)
    ensures NodeOk(h, ids, TrackPeer(n, to))
  {
    hide LogOk, VoteOk, SupportOk, CandidateOk, LeadOk, AcksOk, CommitOk, PacketsOk;
    BookkeepingOk(h, ids, n, TrackPeer(n, to));
  }

  lemma SendRequestOk(h: History, ids: set<NodeId>, n: Node, to: NodeId, prev: nat)
    requires NodeOk(h, ids, n) && n.role == Leader && to in ids && to != n.id && prev <= |n.log|
    ensures NodeOk(h, ids, Send(n, to, AppendRequest(n, prev)))
  {
    AppendRequestOk(h, ids, n, prev);
    SendOk(h, ids, n, to, AppendRequest(n, prev));
  }

  // ------------------------------------------------------ commit and apply

  lemma ApplyNextProposals(n: Node)
    requires ProposalsOk(n) && n.applied < n.commit <= |n.log|
    ensures ProposalsOk(ApplyNext(n))
  {
  }

  lemma ApplyNextOk(h: History, ids: set<NodeId>, n: Node)
    requires NodeOk(h, ids, n) && n.applied < n.commit
    ensures NodeOk(h, ids, ApplyNext(n))
  {
    hide LogOk, VoteOk, SupportOk, CandidateOk, LeadOk, AcksOk, CommitOk, PacketsOk;
    ApplyNextProposals(n);
    BookkeepingOk(h, ids, n, ApplyNext(n));
  }

  lemma EvaluateOk(h: History, ids: set<NodeId>, n: Node)
    requires NodeOk(h, ids, n)
    ensures NodeOk(h, ids, EvaluateBarriers(n))
  {
    hide LogOk, VoteOk, SupportOk, CandidateOk, LeadOk, AcksOk, CommitOk, PacketsOk;
    BookkeepingOk(h, ids, n, EvaluateBarriers(n));
  }

  lemma ApplyStopsOk(h: History, ids: set<NodeId>, n: Node)
    requires NodeOk(h, ids, n)
    ensures NodeOk(h, ids, DropPending(n, n.applied + 1).(barriers := []))
  {
    hide LogOk, VoteOk, SupportOk, CandidateOk, LeadOk, AcksOk, CommitOk, PacketsOk;
    BookkeepingOk(h, ids, n, DropPending(n, n.applied + 1).(barriers := []));
  }

  // A match index that a commit quorum holds, in the leader's own term, is chosen.
  lemma QuorumIsChosen(h: History, ids: set<NodeId>, n: Node)
    requires NodeOk(h, ids, n) && n.role == Leader
    requires 0 < QuorumMatch(n) <= |n.log| && n.log[QuorumMatch(n) - 1].term == n.term
    ensures Chosen(h, ids, n.term, QuorumMatch(n))
  {
    var c := QuorumMatch(n);
    QuorumMatchExact(n, c);
    MembersCount(n.peers);
    SubsetCount(Holders(n.peers, n.matched, c), AckSet(h, ids, n.term, c));
  }

  lemma LeaderCommitOk(h: History, ids: set<NodeId>, n: Node)
    requires NodeOk(h, ids, n) && n.role == Leader
    requires n.commit < QuorumMatch(n) <= |n.log| && n.log[QuorumMatch(n) - 1].term == n.term
    ensures NodeOk(h, ids, n.(commit := QuorumMatch(n)))
  {
    var c := QuorumMatch(n);
    QuorumIsChosen(h, ids, n);
    assert CommittedBy(h, ids, n.log[..c], n.term, c);
    PacketsLater(h, ids, n, n.(commit := c));
    AcksLater(h, n, n.(commit := c));
  }

  lemma ProgressOk(h: History, ids: set<NodeId>, n: Node, from: NodeId, m: nat, round: nat)
    requires NodeOk(h, ids, n) && n.role == Leader && Acked(h, n.term, from, m)
    ensures NodeOk(h, ids, Progress(n, from, m, round))
  {
    hide LogOk, VoteOk, SupportOk, CandidateOk, LeadOk, AcksOk, CommitOk, PacketsOk;
    BookkeepingOk(h, ids, n, Progress(n, from, m, round));
  }

  // --------------------------------------------------- the follower's batch

  // The log after working through entries k.. of a batch cut from the leader's
  // log: it keeps whatever it shared with the leader, and after the whole batch
  // it holds the leader's log up to the end of the batch.
  ghost predicate Adopted(h: History, lead: Log, log: Log, log': Log) {
    && Backed(h, log')
    && (forall c: nat :: c <= |lead| && lead[..c] <= log ==> lead[..c] <= log')
    && (log' == log || log' <= lead)
  }

  ghost predicate BatchOf(lead: Log, prev: nat, entries: Log) {
    prev + |entries| <= |lead| && entries == lead[prev..prev + |entries|]
  }

  // With equal terms the follower's entry is the leader's: the "same log
  // position has different data" branch is never taken.
  lemma SameTermSameEntry(h: History, lead: Log, log: Log, prev: nat, entries: Log, k: nat)
    requires Backed(h, lead) && Backed(h, log) && BatchOf(lead, prev, entries) && k < |entries|
    requires prev + k < |log| && log[prev + k].term == entries[k].term
    ensures log[prev + k] == entries[k] && lead[..prev + k + 1] <= log
  {
    assert entries[k] == lead[prev + k];
    LogMatching(h, log, lead, prev + k);
    assert log[prev + k] == log[..prev + k + 1][prev + k];
  }

  lemma CutKeepsShared(lead: Log, log: Log, i: nat)
    requires i < |lead| && i < |log| && log[i] != lead[i]
    requires lead[..i] <= log
    ensures log[..i] == lead[..i]
    ensures forall c: nat :: c <= |lead| && lead[..c] <= log ==> c <= i
  {
  }

  ghost predicate BatchResult(h: History, lead: Log, n: Node, end: nat, r: (Node, bool))
    requires end <= |lead|
  {
    && Adopted(h, lead, n.log, r.0.log)
    && (r.1 ==> lead[..end] <= r.0.log)
    && r.0 == n.(log := r.0.log, pending := r.0.pending)
    && (n.pending == map[] ==> r.0.pending == map[])
  }

  lemma BatchResultTransitive(h: History, lead: Log, n: Node, n1: Node, end: nat, r: (Node, bool))
    requires end <= |lead|
    requires BatchResult(h, lead, n, end, (n1, false)) && n1.log <= lead
    requires BatchResult(h, lead, n1, end, r)
    ensures BatchResult(h, lead, n, end, r)
  {
  }

  // Cutting the log where it first differs from the leader's.
  lemma CutResult(h: History, lead: Log, n: Node, i: nat, end: nat)
    requires end <= |lead| && Backed(h, n.log)
    requires i < |lead| && i < |n.log| && n.log[i] != lead[i] && lead[..i] <= n.log
    ensures var n1 := DropPending(n.(log := n.log[..i]), i + 1);
            n1.log == lead[..i] && BatchResult(h, lead, n, end, (n1, false))
  {
    CutKeepsShared(lead, n.log, i);
    BackedPrefix(h, n.log, i);
  }

  // Appending the leader's next entry to a prefix of its log.
  lemma AppendResult(h: History, lead: Log, n: Node, i: nat, end: nat)
    requires end <= |lead| && Backed(h, lead) && i < |lead| && n.log == lead[..i]
    ensures var n1 := n.(log := n.log + [lead[i]]);
            n1.log == lead[..i + 1] && BatchResult(h, lead, n, end, (n1, false))
  {
    var n1 := n.(log := n.log + [lead[i]]);
    assert n1.log == lead[..i + 1];
    BackedPrefix(h, lead, i + 1);
    forall c: nat | c <= |lead| && lead[..c] <= n.log ensures lead[..c] <= n1.log {
      assert n.log <= n1.log;
    }
  }

  lemma {:induction false} AppendBatchAdopts(h: History, lead: Log, n: Node, prev: nat, t: nat,
                                             entries: Log, k: nat, w: nat)
    requires Backed(h, lead) && Backed(h, n.log) && BatchOf(lead, prev, entries) && k <= |entries|
    requires lead[..prev + k] <= n.log
    ensures BatchResult(h, lead, n, prev + |entries|, AppendBatch(n, prev, t, entries, k, w))
    decreases |entries| - k
  {
    if k < |entries| {
      var e, i, end := entries[k], prev + k, prev + |entries|;
      assert e == lead[i];
      if e.index != i + 1 || e.term != t {
      } else if i < |n.log| && n.log[i].term == e.term {
        SameTermSameEntry(h, lead, n.log, prev, entries, k);
        AppendBatchAdopts(h, lead, n, prev, t, entries, k + 1, w);
      } else if i < |n.log| {
        if w > 0 {
          CutResult(h, lead, n, i, end);
          var n1 := DropPending(n.(log := n.log[..i]), i + 1);
          if w > 1 && e.term != 0 { AppendRest(h, lead, n, n1, prev, t, entries, k, w - 2); }
        }
      } else if w > 0 && e.term != 0 && |n.log| == i {
        assert n.log == lead[..i];
        AppendRest(h, lead, n, n, prev, t, entries, k, w - 1);
      }
    }
  }

  lemma {:induction false} AppendRest(h: History, lead: Log, n: Node, n1: Node, prev: nat, t: nat,
                                      entries: Log, k: nat, w: nat)
    requires Backed(h, lead) && BatchOf(lead, prev, entries) && k < |entries|
    requires n1.log == lead[..prev + k] && BatchResult(h, lead, n, prev + |entries|, (n1, false))
    ensures BatchResult(h, lead, n, prev + |entries|,
                        AppendBatch(n1.(log := n1.log + [entries[k]]), prev, t, entries, k + 1, w))
    decreases |entries| - k, 0
  {
    var n2, end := n1.(log := n1.log + [entries[k]]), prev + |entries|;
    assert entries[k] == lead[prev + k];
    AppendResult(h, lead, n1, prev + k, end);
    BatchResultTransitive(h, lead, n, n1, end, (n2, false));
    AppendBatchAdopts(h, lead, n2, prev, t, entries, k + 1, w);
    BatchResultTransitive(h, lead, n, n2, end, AppendBatch(n2, prev, t, entries, k + 1, w));
  }

  // ------------------------------------- the follower with its new log

  ghost predicate Replicated(h: History, n: Node, n': Node) {
    && n.role == Follower
    && n.term in h.reigns
    && Adopted(h, h.reigns[n.term].log, n.log, n'.log)
    && n' == n.(log := n'.log, pending := n'.pending)
    && (n.pending == map[] ==> n'.pending == map[])
  }

  // No entry at or below the commit index is ever cut.
  lemma CommittedStays(h: History, ids: set<NodeId>, n: Node, n': Node)
    requires HistoryOk(h, ids) && NodeOk(h, ids, n) && Replicated(h, n, n')
    ensures n.log[..n.commit] <= n'.log
  {
    var lead := h.reigns[n.term].log;
    CommittedInReign(h, ids, n.log[..n.commit], n.term, n.term);
    assert lead[..n.commit] == n.log[..n.commit];
  }

  lemma ReplicatedAcks(h: History, ids: set<NodeId>, n: Node, n': Node)
    requires HistoryOk(h, ids) && AcksOk(h, n) && Replicated(h, n, n')
    ensures AcksOk(h, n')
  {
    var lead, base := h.reigns[n.term].log, h.reigns[n.term].base;
    assert ReignOk(h, ids, n.term);
    forall u: nat, m: nat | Acked(h, u, n'.id, m)
      ensures u <= n'.term && u in h.reigns && m <= |h.reigns[u].log| && Kept(h, u, m, n'.log, n'.term + 1)
    {
      assert Acked(h, u, n.id, m);
      var p := h.reigns[u].log[..m];
      if !Superseded(h, u, m, n.term + 1) {
        assert p <= n.log;
        if u < n.term { assert p <= base; }
        assert lead[..m] == p;
      }
    }
  }

  lemma ReplicateOk(h: History, ids: set<NodeId>, n: Node, n': Node)
    requires HistoryOk(h, ids) && NodeOk(h, ids, n) && Replicated(h, n, n')
    ensures NodeOk(h, ids, n')
  {
    CommittedStays(h, ids, n, n');
    assert n'.log[..n.commit] == n.log[..n.commit];
    ReplicatedTerms(h, ids, n, n');
    assert LogOk(h, n');
    ReplicatedAcks(h, ids, n, n');
    PacketsLater(h, ids, n, n');
    ReplicatedProposals(n, n');
  }

  lemma ReplicatedProposals(n: Node, n': Node)
    requires ProposalsOk(n) && n.role == Follower && n.applied <= n.commit <= |n.log|
    requires n.log[..n.commit] <= n'.log && n' == n.(log := n'.log, pending := map[])
    ensures ProposalsOk(n')
  {
    forall e | e in n'.acknowledged ensures 1 <= e.index <= n'.applied <= |n'.log| && n'.log[e.index - 1] == e {
      assert n.log[e.index - 1] == n.log[..n.commit][e.index - 1];
    }
  }

  lemma ReplicatedTerms(h: History, ids: set<NodeId>, n: Node, n': Node)
    requires HistoryOk(h, ids) && LogOk(h, n) && Replicated(h, n, n')
    ensures forall k :: 0 <= k < |n'.log| ==> n'.log[k].term <= n'.term
  {
    assert ReignOk(h, ids, n.term);
  }

  // The follower's prefix check makes its log agree with the leader's.
  lemma PrefixAgrees(h: History, ids: set<NodeId>, n: Node, src: NodeId, m: Message)
    requires HistoryOk(h, ids) && Backed(h, n.log) && m.AppendEntries? && AppendOk(h, ids, src, m)
    requires m.prevIndex <= |n.log|
    requires m.prevIndex == 0 || n.log[m.prevIndex - 1].term == m.prevTerm
    ensures h.reigns[m.term].log[..m.prevIndex] <= n.log
  {
    assert ReignOk(h, ids, m.term);
    if m.prevIndex > 0 {
      LogMatching(h, n.log, h.reigns[m.term].log, m.prevIndex - 1);
    }
  }

  lemma LogIsBacked(h: History, ids: set<NodeId>, n: Node)
    requires NodeOk(h, ids, n)
    ensures Backed(h, n.log)
  {
    hide VoteOk, SupportOk, CandidateOk, LeadOk, AcksOk, CommitOk, MatchOk, ProposalsOk, PacketsOk, Backed;
  }

  lemma BatchOk(h: History, ids: set<NodeId>, n: Node, src: NodeId, m: Message, w: nat)
    requires HistoryOk(h, ids) && NodeOk(h, ids, n) && m.AppendEntries? && AppendOk(h, ids, src, m)
    requires n.role == Follower && n.term == m.term && m.prevIndex <= |n.log|
    requires m.prevIndex == 0 || n.log[m.prevIndex - 1].term == m.prevTerm
    ensures var (n', done) := AppendBatch(n, m.prevIndex, m.term, m.entries, 0, w);
            && Replicated(h, n, n')
            && (done ==> h.reigns[m.term].log[..m.prevIndex + |m.entries|] <= n'.log)
  {
    hide NodeOk, HistoryOk, AppendBatch, Backed, Committed;
    LogIsBacked(h, ids, n);
    ReignBacked(h, ids, m.term);
    PrefixAgrees(h, ids, n, src, m);
    AppendBatchAdopts(h, h.reigns[m.term].log, n, m.prevIndex, m.term, m.entries, 0, w);
  }

  lemma FollowerCommitOk(h: History, ids: set<NodeId>, n: Node, c: nat)
    requires NodeOk(h, ids, n) && n.term in h.reigns
    requires n.commit <= c <= |n.log| && c <= |h.reigns[n.term].log|
    requires h.reigns[n.term].log[..c] <= n.log && Committed(h, ids, h.reigns[n.term].log[..c], n.term)
    ensures NodeOk(h, ids, n.(commit := c))
  {
    var n' := n.(commit := c);
    assert n.log[..c] == h.reigns[n.term].log[..c];
    PacketsLater(h, ids, n, n');
    AcksLater(h, n, n');
  }

  // ----------------------------------------------- the follower acknowledges

  ghost function WithAck(h: History, t: nat, f: NodeId, m: nat): History {
    if (t, f) in h.acks && h.acks[(t, f)] >= m then h else h.(acks := h.acks[(t, f) := m])
  }

  lemma WithAckExtends(h: History, t: nat, f: NodeId, m: nat)
    ensures Extends(h, WithAck(h, t, f, m))
    ensures forall i :: i != f ==> Untouched(h, WithAck(h, t, f, m), i)
  {
  }

  ghost predicate MayAck(h: History, n: Node, m: nat) {
    n.term in h.reigns && m <= |h.reigns[n.term].log| && h.reigns[n.term].log[..m] <= n.log
  }

  lemma WithAckOk(h: History, ids: set<NodeId>, n: Node, m: nat)
    requires HistoryOk(h, ids) && NodeOk(h, ids, n) && MayAck(h, n, m)
    ensures HistoryOk(WithAck(h, n.term, n.id, m), ids)
  {
    var g := WithAck(h, n.term, n.id, m);
    WithAckExtends(h, n.term, n.id, m);
    forall t | t in g.reigns ensures ReignOk(g, ids, t) { ReignGrows(h, g, ids, t); }
    forall k | k in g.ballots ensures BallotOk(g, ids, k) {
      assert BallotOk(h, ids, k);
      BackedGrows(h, g, h.ballots[k].log);
    }
    forall k | k in g.acks ensures AckOk(g, ids, k) { WithAckAck(h, ids, n, m, k); }
  }

  lemma WithAckAck(h: History, ids: set<NodeId>, n: Node, m: nat, k: (nat, NodeId))
    requires HistoryOk(h, ids) && NodeOk(h, ids, n) && MayAck(h, n, m)
    requires k in WithAck(h, n.term, n.id, m).acks
    ensures AckOk(WithAck(h, n.term, n.id, m), ids, k)
  {
    if k == (n.term, n.id) {
      assert VoteOk(h, n) && n.id in ids;
      if k in h.acks { assert AckOk(h, ids, k); }
      hide NodeOk, HistoryOk;
      OwnAck(h, ids, n, m);
    } else {
      assert AckOk(h, ids, k);
      hide NodeOk, HistoryOk;
      OtherAck(h, ids, n.term, n.id, m, k);
    }
  }

  // The member has voted in no later term.
  lemma OwnAck(h: History, ids: set<NodeId>, n: Node, m: nat)
    requires VoteOk(h, n) && n.id in ids && MayAck(h, n, m)
    requires (n.term, n.id) in h.acks ==> AckOk(h, ids, (n.term, n.id))
    ensures AckOk(WithAck(h, n.term, n.id, m), ids, (n.term, n.id))
  {
    hide Kept;
    var g := WithAck(h, n.term, n.id, m);
    forall u: nat | n.term < u ensures !Counts(g, u, n.id) {
      assert (u, n.id) !in h.ballots;
    }
  }

  lemma OtherAck(h: History, ids: set<NodeId>, t: nat, f: NodeId, m: nat, k: (nat, NodeId))
    requires k in h.acks && AckOk(h, ids, k) && k != (t, f)
    ensures AckOk(WithAck(h, t, f, m), ids, k)
  {
    hide Kept;
    var g := WithAck(h, t, f, m);
    WithAckExtends(h, t, f, m);
    forall u: nat, j: nat | k.0 < u && j <= g.acks[k] && Counts(g, u, k.1)
      ensures Kept(g, k.0, j, g.ballots[(u, k.1)].log, u)
    {
      assert Counts(h, u, k.1);
      KeptGrows(h, g, k.0, j, h.ballots[(u, k.1)].log, u);
    }
  }

  lemma AckedNodeOk(h: History, ids: set<NodeId>, n: Node, m: nat)
    requires NodeOk(h, ids, n) && MayAck(h, n, m)
    ensures NodeOk(WithAck(h, n.term, n.id, m), ids, n)
  {
    hide AcksOk, PacketsOk, Committed, Extends;
    var g := WithAck(h, n.term, n.id, m);
    WithAckExtends(h, n.term, n.id, m);
    assert LogOk(g, n) by { BackedGrows(h, g, n.log); }
    assert CommitOk(g, ids, n) by { CommittedGrows(h, g, ids, n.log[..n.commit], n.term, n.term); }
    assert PacketsOk(g, ids, n) by { PacketsOkGrows(h, g, ids, n); }
    assert AcksOk(g, n) by { AckedAcks(h, n, m); }
  }

  lemma AckedAcks(h: History, n: Node, m: nat)
    requires AcksOk(h, n) && MayAck(h, n, m)
    ensures AcksOk(WithAck(h, n.term, n.id, m), n)
  {
    var g := WithAck(h, n.term, n.id, m);
    WithAckExtends(h, n.term, n.id, m);
    forall t: nat, j: nat | Acked(g, t, n.id, j)
      ensures t <= n.term && t in g.reigns && j <= |g.reigns[t].log| && Kept(g, t, j, n.log, n.term + 1)
    {
      if Acked(h, t, n.id, j) {
        KeptGrows(h, g, t, j, n.log, n.term + 1);
      } else {
        assert g.reigns[t].log[..j] <= g.reigns[t].log[..m];
      }
    }
  }

  // ----------------------------------------------------- further bookkeeping

  lemma LeaderHintOk(h: History, ids: set<NodeId>, n: Node, leader: Option<NodeId>)
    requires NodeOk(h, ids, n)
    ensures NodeOk(h, ids, n.(leader := leader))
  {
    hide LogOk, VoteOk, SupportOk, CandidateOk, LeadOk, AcksOk, CommitOk, PacketsOk;
    BookkeepingOk(h, ids, n, n.(leader := leader));
  }

  lemma RoundOk(h: History, ids: set<NodeId>, n: Node)
    requires NodeOk(h, ids, n)
    ensures NodeOk(h, ids, n.(round := n.round + 1))
  {
    hide LogOk, VoteOk, SupportOk, CandidateOk, LeadOk, AcksOk, CommitOk, PacketsOk;
    BookkeepingOk(h, ids, n, n.(round := n.round + 1));
  }

  lemma NextOk(h: History, ids: set<NodeId>, n: Node, next: map<NodeId, nat>)
    requires NodeOk(h, ids, n)
    ensures NodeOk(h, ids, n.(next := next))
  {
    hide LogOk, VoteOk, SupportOk, CandidateOk, LeadOk, AcksOk, CommitOk, PacketsOk;
    BookkeepingOk(h, ids, n, n.(next := next));
  }

  lemma BarriersOk(h: History, ids: set<NodeId>, n: Node, bs: seq<Barrier>, done: set<(nat, nat)>)
    requires NodeOk(h, ids, n)
    ensures NodeOk(h, ids, n.(barriers := bs, finished := done))
  {
    hide LogOk, VoteOk, SupportOk, CandidateOk, LeadOk, AcksOk, CommitOk, PacketsOk;
    BookkeepingOk(h, ids, n, n.(barriers := bs, finished := done));
  }

  lemma PendingOk(h: History, ids: set<NodeId>, n: Node, data: string)
    requires NodeOk(h, ids, n) && n.role == Leader && |n.log| > 0
    requires n.log[|n.log| - 1] == Entry(|n.log|, n.term, data)
    ensures NodeOk(h, ids, n.(pending := n.pending[|n.log| := Entry(|n.log|, n.term, data)]))
  {
    hide LogOk, VoteOk, SupportOk, CandidateOk, LeadOk, AcksOk, CommitOk, PacketsOk;
    BookkeepingOk(h, ids, n, n.(pending := n.pending[|n.log| := Entry(|n.log|, n.term, data)]));
  }

  lemma AbdicateOk(h: History, ids: set<NodeId>, n: Node)
    requires NodeOk(h, ids, n) && n.role == Candidate
    ensures NodeOk(h, ids, StepDown(Crown(n), None))
  {
    assert n.pending == map[];
    StepDownOk(h, ids, n, None);
    BookkeepingOk(h, ids, StepDown(n, None), StepDown(Crown(n), None));
  }

  lemma GrowOk(h: History, ids: set<NodeId>, n: Node, data: string)
    requires Leads(h, ids, n)
    ensures HistoryOk(Grown(h, n, data), ids) && Extends(h, Grown(h, n, data))
    ensures NodeOk(Grown(h, n, data), ids, AppendOwn(n, data))
    ensures forall i :: i != n.id ==> Untouched(h, Grown(h, n, data), i)
  {
    assert LeadOk(h, n);
    hide HistoryOk, NodeOk, LeadOk, Extends;
    OwnAckBounded(h, ids, n);
    GrownExtends(h, n, data);
    GrownUntouched(h, n, data);
    GrownOk(h, ids, n, data);
    AppendOwnOk(h, ids, n, data);
  }
}
