/**
 Elections: casting a vote, standing as a candidate and taking office keep the
 invariant, and no term is ever won twice.
 */
module RaftElection {
  import opened Wrappers
  import opened RaftTypes
  import opened RaftSpec
  import opened RaftQuorum
  import opened RaftHistory
  import opened RaftInvariant

  lemma ReignGrows(h: History, g: History, ids: set<NodeId>, t: nat)
    requires Extends(h, g) && t in h.reigns && ReignOk(h, ids, t) && g.reigns[t] == h.reigns[t]
    ensures ReignOk(g, ids, t)
  {
    BackedGrows(h, g, h.reigns[t].log);
    forall v | v in g.reigns[t].voters ensures VoterOk(g, t, v) {
      assert VoterOk(h, t, v);
    }
  }

  // ------------------------------------------------------------ new ballots

  ghost function WithBallot(h: History, t: nat, f: NodeId, b: Ballot): History {
    h.(ballots := h.ballots[(t, f) := b])
  }

  lemma WithBallotExtends(h: History, t: nat, f: NodeId, b: Ballot)
    requires (t, f) !in h.ballots
    ensures Extends(h, WithBallot(h, t, f, b))
  {
  }

  lemma WithBallotOk(h: History, ids: set<NodeId>, t: nat, f: NodeId, b: Ballot)
    requires HistoryOk(h, ids) && (t, f) !in h.ballots
    requires f in ids && b.candidate in ids && Backed(h, b.log)
    requires forall u: nat, m: nat :: Acked(h, u, f, m) && u < t && t !in h.reigns ==>
               u in h.reigns && m <= |h.reigns[u].log| && Kept(h, u, m, b.log, t)
    ensures HistoryOk(WithBallot(h, t, f, b), ids)
  {
    var g := WithBallot(h, t, f, b);
    WithBallotExtends(h, t, f, b);
    forall u | u in g.reigns ensures ReignOk(g, ids, u) {
      ReignGrows(h, g, ids, u);
    }
    forall k | k in g.ballots ensures BallotOk(g, ids, k) {
      if k != (t, f) { assert BallotOk(h, ids, k); }
      BackedGrows(h, g, g.ballots[k].log);
    }
    forall k | k in g.acks ensures AckOk(g, ids, k) {
      WithBallotAck(h, ids, t, f, b, k);
    }
  }

  // The voters of a reign have all voted.
  lemma NoLateVoter(h: History, ids: set<NodeId>, t: nat, f: NodeId)
    requires HistoryOk(h, ids) && (t, f) !in h.ballots
    ensures t in h.reigns ==> f !in h.reigns[t].voters
  {
    if t in h.reigns { assert ReignOk(h, ids, t); }
  }

  lemma WithBallotAck(h: History, ids: set<NodeId>, t: nat, f: NodeId, b: Ballot, k: (nat, NodeId))
    requires HistoryOk(h, ids) && (t, f) !in h.ballots
    requires forall u: nat, m: nat :: Acked(h, u, f, m) && u < t && t !in h.reigns ==>
               u in h.reigns && m <= |h.reigns[u].log| && Kept(h, u, m, b.log, t)
    requires k in h.acks
    ensures AckOk(WithBallot(h, t, f, b), ids, k)
  {
    var g := WithBallot(h, t, f, b);
    assert AckOk(h, ids, k);
    WithBallotExtends(h, t, f, b);
    forall u: nat, m: nat | k.0 < u && m <= g.acks[k] && Counts(g, u, k.1)
      ensures Kept(g, k.0, m, g.ballots[(u, k.1)].log, u)
    {
      if (u, k.1) == (t, f) {
        assert t !in h.reigns by { NoLateVoter(h, ids, t, f); }
        assert Acked(h, k.0, f, m);
        KeptGrows(h, g, k.0, m, b.log, t);
      } else {
        assert Counts(h, u, k.1);
        KeptGrows(h, g, k.0, m, h.ballots[(u, k.1)].log, u);
      }
    }
  }

  // -------------------------------------------------------------- candidacy

  ghost function Stood(h: History, n: Node): History {
    WithBallot(h, n.term + 1, n.id, Ballot(n.id, n.log))
  }

  lemma StoodUntouched(h: History, n: Node)
    ensures forall i :: i != n.id ==> Untouched(h, Stood(h, n), i)
  {
  }

  lemma StoodOk(h: History, ids: set<NodeId>, n: Node)
    requires HistoryOk(h, ids) && NodeOk(h, ids, n)
    ensures HistoryOk(Stood(h, n), ids) && Extends(h, Stood(h, n))
  {
    var b := Ballot(n.id, n.log);
    assert AcksOk(h, n) && VoteOk(h, n) && LogOk(h, n) && n.id in ids;
    hide NodeOk, HistoryOk, Extends, Kept;
    WithBallotExtends(h, n.term + 1, n.id, b);
    WithBallotOk(h, ids, n.term + 1, n.id, b);
  }

  lemma CampaignVotes(h: History, ids: set<NodeId>, n: Node)
    requires n.id in ids && LogOk(h, n) && VoteOk(h, n) && SupportOk(h, n) && LeadOk(h, n)
    ensures VoteOk(Stood(h, n), Campaign(n)) && SupportOk(Stood(h, n), Campaign(n))
    ensures CandidateOk(Stood(h, n), ids, Campaign(n)) && LeadOk(Stood(h, n), Campaign(n))
  {
  }

  lemma CampaignOk(h: History, ids: set<NodeId>, n: Node)
    requires NodeOk(h, ids, n) && n.role != Leader && Extends(h, Stood(h, n))
    ensures NodeOk(Stood(h, n), ids, Campaign(n))
  {
    hide VoteOk, SupportOk, CandidateOk, LeadOk, AcksOk, PacketsOk, Extends, Committed;
    var g, n' := Stood(h, n), Campaign(n);
    CampaignVotes(h, ids, n);
    assert LogOk(g, n') by { BackedGrows(h, g, n.log); }
    assert AcksOk(g, n') by { AcksOkGrows(h, g, n); AcksLater(g, n, n'); }
    assert CommitOk(g, ids, n') by { CommittedGrows(h, g, ids, n.log[..n.commit], n.term, n'.term); }
    assert PacketsOk(g, ids, n') by { PacketsOkGrows(h, g, ids, n); PacketsLater(g, ids, n, n'); }
  }

  // ----------------------------------------------------------------- voting

  ghost predicate MayVote(n: Node, m: Message)
    requires m.RequestVote?
  {
    && m.term == n.term
    && (n.votedFor == None || n.votedFor == Some(m.candidate))
    && UpToDate(n.log, m.lastIndex, m.lastTerm)
  }

  ghost function Granted(h: History, n: Node, m: Message): History
    requires m.RequestVote?
  {
    if n.votedFor == None then WithBallot(h, n.term, n.id, Ballot(m.candidate, n.log)) else h
  }

  lemma GrantHistoryOk(h: History, ids: set<NodeId>, n: Node, m: Message)
    requires HistoryOk(h, ids) && NodeOk(h, ids, n)
    requires m.RequestVote? && MayVote(n, m) && m.candidate in ids
    ensures HistoryOk(Granted(h, n, m), ids) && Extends(h, Granted(h, n, m))
  {
    if n.votedFor == None {
      forall u: nat, k: nat | Acked(h, u, n.id, k) && u < n.term && n.term !in h.reigns
        ensures u in h.reigns && k <= |h.reigns[u].log| && Kept(h, u, k, n.log, n.term)
      {
        assert Kept(h, u, k, n.log, n.term + 1);
      }
      WithBallotExtends(h, n.term, n.id, Ballot(m.candidate, n.log));
      WithBallotOk(h, ids, n.term, n.id, Ballot(m.candidate, n.log));
    }
  }

  lemma GrantRecorded(h: History, ids: set<NodeId>, n: Node, m: Message)
    requires NodeOk(h, ids, n) && m.RequestVote? && MayVote(n, m)
    ensures (n.term, n.id) in Granted(h, n, m).ballots
    ensures Granted(h, n, m).ballots[(n.term, n.id)].candidate == m.candidate
  {
  }

  lemma GrantVotes(h: History, n: Node, m: Message)
    requires m.RequestVote? && MayVote(n, m) && m.candidate != n.id
    requires VoteOk(h, n) && SupportOk(h, n)
    ensures VoteOk(Granted(h, n, m), n.(votedFor := Some(m.candidate)))
    ensures SupportOk(Granted(h, n, m), n.(votedFor := Some(m.candidate)))
  {
  }

  lemma GrantOk(h: History, ids: set<NodeId>, n: Node, m: Message)
    requires NodeOk(h, ids, n)
    requires m.RequestVote? && MayVote(n, m) && m.candidate != n.id && Extends(h, Granted(h, n, m))
    ensures NodeOk(Granted(h, n, m), ids, n.(votedFor := Some(m.candidate)))
  {
    hide VoteOk, SupportOk, AcksOk, PacketsOk, Committed;
    var g, n' := Granted(h, n, m), n.(votedFor := Some(m.candidate));
    GrantVotes(h, n, m);
    assert LogOk(g, n') by { BackedGrows(h, g, n.log); }
    assert AcksOk(g, n') by { AcksOkGrows(h, g, n); AcksLater(g, n, n'); }
    assert CommitOk(g, ids, n') by { CommittedGrows(h, g, ids, n.log[..n.commit], n.term, n'.term); }
    assert PacketsOk(g, ids, n') by { PacketsOkGrows(h, g, ids, n); PacketsLater(g, ids, n, n'); }
  }

  // The candidate that asked sees a vote that its log deserves.
  lemma SupportedOk(h: History, ids: set<NodeId>, n: Node, c: Node, p: Packet)
    requires NodeOk(h, ids, c)
    requires p in c.sent && p.msg.RequestVote? && MayVote(n, p.msg) && c.id != n.id
    requires Extends(h, Granted(h, n, p.msg))
    ensures NodeOk(Granted(h, n, p.msg), ids, c)
  {
    var g := Granted(h, n, p.msg);
    assert PacketOk(h, ids, c, p);
    BackedGrows(h, g, c.log);
    AcksOkGrows(h, g, c);
    CommittedGrows(h, g, ids, c.log[..c.commit], c.term, c.term);
    PacketsOkGrows(h, g, ids, c);
  }

  lemma VoteCountedOk(h: History, ids: set<NodeId>, n: Node, from: NodeId)
    requires NodeOk(h, ids, n) && from in ids && n.role == Candidate
    requires (n.term, from) in h.ballots && h.ballots[(n.term, from)].candidate == n.id
    ensures NodeOk(h, ids, n.(votes := n.votes + {from}))
  {
    var n' := n.(votes := n.votes + {from});
    AcksLater(h, n, n');
    PacketsLater(h, ids, n, n');
  }

  // ----------------------------------------------------------------- office

  // Election Safety: a candidate with a quorum of votes stands in a term nobody has won.
  lemma TermIsOpen(h: History, ids: set<NodeId>, n: Node)
    requires HistoryOk(h, ids) && NodeOk(h, ids, n)
    requires n.role == Candidate && |n.votes| >= |ids| / 2 + 1
    ensures n.term !in h.reigns
  {
    if n.term in h.reigns {
      assert ReignOk(h, ids, n.term);
      var f := SetsMeet(ids, n.votes, h.reigns[n.term].voters);
    }
  }

  ghost function Crowned(h: History, n: Node): History {
    var log := n.log + [Entry(|n.log| + 1, n.term, "")];
    h.(reigns := h.reigns[n.term := Reign(n.id, n.log, log, n.votes)],
       acks := h.acks[(n.term, n.id) := |log|])
  }

  ghost predicate Electable(h: History, ids: set<NodeId>, n: Node) {
    && HistoryOk(h, ids) && NodeOk(h, ids, n)
    && n.role == Candidate && |n.votes| >= |ids| / 2 + 1
    && n.term !in h.reigns
  }

  lemma NotYetAcked(h: History, ids: set<NodeId>, n: Node)
    requires HistoryOk(h, ids) && n.term !in h.reigns
    ensures forall f :: (n.term, f) !in h.acks
  {
  }

  lemma CrownedExtends(h: History, ids: set<NodeId>, n: Node)
    requires Electable(h, ids, n)
    ensures Extends(h, Crowned(h, n))
  {
    hide HistoryOk, NodeOk, Extends, Crowned;
    NotYetAcked(h, ids, n);
    NewReignExtends(h, n);
  }

  lemma NewReignExtends(h: History, n: Node)
    requires n.term !in h.reigns && forall f :: (n.term, f) !in h.acks
    ensures Extends(h, Crowned(h, n))
  {
  }

  lemma CrownedSelf(h: History, ids: set<NodeId>, n: Node)
    requires NodeOk(h, ids, n) && n.role == Candidate && |n.votes| >= |ids| / 2 + 1
    requires Extends(h, Crowned(h, n))
    ensures ReignOk(Crowned(h, n), ids, n.term)
  {
    hide LogOk, VoteOk, SupportOk, CandidateOk, LeadOk, AcksOk, CommitOk, MatchOk, ProposalsOk, PacketsOk, Extends;
    CrownedReign(h, ids, n);
  }

  lemma CrownedReign(h: History, ids: set<NodeId>, n: Node)
    requires LogOk(h, n) && SupportOk(h, n) && CandidateOk(h, ids, n) && n.id in ids
    requires n.role == Candidate && |n.votes| >= |ids| / 2 + 1 && Extends(h, Crowned(h, n))
    ensures ReignOk(Crowned(h, n), ids, n.term)
  {
    OfficeLog(h, n);
    hide Extends, LogOk, Backed;
    assert AppendOwn(Crown(n), "").log == Crowned(h, n).reigns[n.term].log;
  }

  lemma CrownedAck(h: History, ids: set<NodeId>, n: Node, k: (nat, NodeId))
    requires Electable(h, ids, n) && k in Crowned(h, n).acks
    ensures AckOk(Crowned(h, n), ids, k)
  {
    var g := Crowned(h, n);
    CrownedExtends(h, ids, n);
    if k != (n.term, n.id) {
      assert AckOk(h, ids, k);
      forall u: nat, m: nat | k.0 < u && m <= g.acks[k] && Counts(g, u, k.1)
        ensures Kept(g, k.0, m, g.ballots[(u, k.1)].log, u)
      {
        assert Counts(h, u, k.1);
        KeptGrows(h, g, k.0, m, h.ballots[(u, k.1)].log, u);
      }
    } else {
      forall u: nat | n.term < u ensures !Counts(g, u, n.id) {
        assert (u, n.id) !in h.ballots;
      }
    }
  }

  lemma CrownedUntouched(h: History, ids: set<NodeId>, n: Node)
    requires Electable(h, ids, n)
    ensures forall i :: i != n.id ==> Untouched(h, Crowned(h, n), i)
  {
  }

  lemma CrownedBallot(h: History, ids: set<NodeId>, n: Node, k: (nat, NodeId))
    requires Electable(h, ids, n) && k in h.ballots
    ensures BallotOk(Crowned(h, n), ids, k)
  {
    CrownedExtends(h, ids, n);
    assert BallotOk(h, ids, k);
    BackedGrows(h, Crowned(h, n), h.ballots[k].log);
  }

  lemma CrownedOk(h: History, ids: set<NodeId>, n: Node)
    requires Electable(h, ids, n)
    ensures HistoryOk(Crowned(h, n), ids)
  {
    var g := Crowned(h, n);
    CrownedExtends(h, ids, n);
    CrownedSelf(h, ids, n);
    forall t | t in g.reigns ensures ReignOk(g, ids, t) {
      if t != n.term { ReignGrows(h, g, ids, t); }
    }
    forall k | k in g.ballots ensures BallotOk(g, ids, k) { CrownedBallot(h, ids, n, k); }
    forall k | k in g.acks ensures AckOk(g, ids, k) { CrownedAck(h, ids, n, k); }
  }

  lemma OfficeAcks(h: History, n: Node)
    requires AcksOk(h, n) && Extends(h, Crowned(h, n))
    ensures AcksOk(Crowned(h, n), AppendOwn(Crown(n), ""))
  {
    hide Extends;
    var g, n' := Crowned(h, n), AppendOwn(Crown(n), "");
    forall t: nat, m: nat | Acked(g, t, n'.id, m)
      ensures t <= n'.term && t in g.reigns && m <= |g.reigns[t].log| && Kept(g, t, m, n'.log, n'.term + 1)
    {
      if t != n.term {
        assert Acked(h, t, n.id, m);
        KeptGrows(h, g, t, m, n.log, n.term + 1);
      }
    }
  }

  lemma OfficeVotes(h: History, ids: set<NodeId>, n: Node)
    requires VoteOk(h, n) && SupportOk(h, n) && LeadOk(h, n) && n.role == Candidate
    ensures VoteOk(Crowned(h, n), AppendOwn(Crown(n), ""))
    ensures SupportOk(Crowned(h, n), AppendOwn(Crown(n), ""))
    ensures CandidateOk(Crowned(h, n), ids, AppendOwn(Crown(n), ""))
    ensures LeadOk(Crowned(h, n), AppendOwn(Crown(n), ""))
  {
  }

  lemma OfficeLog(h: History, n: Node)
    requires LogOk(h, n) && Extends(h, Crowned(h, n))
    ensures LogOk(Crowned(h, n), AppendOwn(Crown(n), ""))
  {
    var g, log := Crowned(h, n), AppendOwn(Crown(n), "").log;
    BackedGrows(h, g, n.log);
    forall i | 0 <= i < |log| ensures BackedAt(g, log, i) {
      if i < |n.log| {
        assert BackedAt(g, n.log, i);
        assert log[..i + 1] == n.log[..i + 1];
      } else {
        assert log[..i + 1] == log;
      }
    }
  }

  lemma TakeOfficeOk(h: History, ids: set<NodeId>, n: Node)
    requires NodeOk(h, ids, n) && n.role == Candidate && Extends(h, Crowned(h, n))
    ensures NodeOk(Crowned(h, n), ids, AppendOwn(Crown(n), ""))
  {
    hide LogOk, VoteOk, SupportOk, CandidateOk, LeadOk, AcksOk, PacketsOk, Extends, Committed;
    var g, n' := Crowned(h, n), AppendOwn(Crown(n), "");
    OfficeVotes(h, ids, n);
    OfficeLog(h, n);
    OfficeAcks(h, n);
    assert CommitOk(g, ids, n') by {
      assert n'.log[..n'.commit] == n.log[..n.commit];
      CommittedGrows(h, g, ids, n.log[..n.commit], n.term, n.term);
    }
    assert PacketsOk(g, ids, n') by { PacketsOkGrows(h, g, ids, n); PacketsLater(g, ids, n, n'); }
    assert MatchOk(g, n');
    assert ProposalsOk(n');
  }
}
