/**
 The record of past elections, votes and acknowledgements that the safety proof
 reasons about, and Leader Completeness as a property of that record alone.
 The record is not part of a member's state: proofs build it as a run unfolds.
 */
module RaftHistory {
  import opened RaftTypes
  import opened RaftSpec
  import opened RaftQuorum

  // One term's leadership: who led, the log it was elected with, that log plus
  // everything it appended while leading, and the quorum that elected it.
  datatype Reign = Reign(leader: NodeId, base: Log, log: Log, voters: set<NodeId>)

  // The first vote a member gave in a term and its log at that moment.
  datatype Ballot = Ballot(candidate: NodeId, log: Log)

  // acks[(t, f)]: the largest match index f acknowledged to the leader of t.
  datatype History = History(
    reigns: map<nat, Reign>,
    ballots: map<(nat, NodeId), Ballot>,
    acks: map<(nat, NodeId), nat>)

  ghost predicate BackedAt(h: History, log: Log, i: nat)
    requires i < |log|
  {
    && log[i].index == i + 1
    && log[i].term in h.reigns
    && log[..i + 1] <= h.reigns[log[i].term].log
  }

  // Up to any entry of term t the log is what the leader of t had.
  ghost predicate Backed(h: History, log: Log) {
    forall i :: 0 <= i < |log| ==> BackedAt(h, log, i)
  }

  ghost predicate ReignLog(t: nat, r: Reign) {
    && r.base <= r.log && |r.base| < |r.log|
    && (forall i :: 0 <= i < |r.base| ==> r.log[i].term < t)
    && (forall i :: |r.base| <= i < |r.log| ==> r.log[i].term == t)
  }

  ghost predicate VoterOk(h: History, t: nat, f: NodeId)
    requires t in h.reigns
  {
    var r := h.reigns[t];
    && (t, f) in h.ballots
    && h.ballots[(t, f)].candidate == r.leader
    && UpToDate(h.ballots[(t, f)].log, |r.base|, LastTerm(r.base))
  }

  ghost predicate ReignOk(h: History, ids: set<NodeId>, t: nat)
    requires t in h.reigns
  {
    var r := h.reigns[t];
    && t >= 1
    && r.leader in ids
    && r.voters <= ids && |r.voters| >= |ids| / 2 + 1
    && ReignLog(t, r)
    && Backed(h, r.log)
    && (forall f :: f in r.voters ==> VoterOk(h, t, f))
  }

  ghost predicate BallotOk(h: History, ids: set<NodeId>, k: (nat, NodeId))
    requires k in h.ballots
  {
    k.1 in ids && h.ballots[k].candidate in ids && Backed(h, h.ballots[k].log)
  }

  // Some leader between t and hi was elected without the first m entries of t's log.
  ghost predicate Superseded(h: History, t: nat, m: nat, hi: nat)
    requires t in h.reigns && m <= |h.reigns[t].log|
  {
    exists u: nat :: t < u < hi && u in h.reigns && !(h.reigns[t].log[..m] <= h.reigns[u].base)
  }

  ghost predicate Kept(h: History, t: nat, m: nat, log: Log, hi: nat)
    requires t in h.reigns && m <= |h.reigns[t].log|
  {
    h.reigns[t].log[..m] <= log || Superseded(h, t, m, hi)
  }

  // A vote that counts towards an election: cast before the reign, or by one of its voters.
  ghost predicate Counts(h: History, u: nat, f: NodeId) {
    (u, f) in h.ballots && (u !in h.reigns || f in h.reigns[u].voters)
  }

  ghost predicate AckOk(h: History, ids: set<NodeId>, k: (nat, NodeId))
    requires k in h.acks
  {
    && k.0 in h.reigns
    && k.1 in ids
    && h.acks[k] <= |h.reigns[k.0].log|
    && (forall u, m: nat :: k.0 < u && m <= h.acks[k] && Counts(h, u, k.1) ==>
          Kept(h, k.0, m, h.ballots[(u, k.1)].log, u))
  }

  ghost predicate HistoryOk(h: History, ids: set<NodeId>) {
    && (forall t :: t in h.reigns ==> ReignOk(h, ids, t))
    && (forall k :: k in h.ballots ==> BallotOk(h, ids, k))
    && (forall k :: k in h.acks ==> AckOk(h, ids, k))
  }

  // ------------------------------------------------------------ committed

  ghost function AckSet(h: History, ids: set<NodeId>, t: nat, m: nat): set<NodeId> {
    set f | f in ids && (t, f) in h.acks && h.acks[(t, f)] >= m
  }

  // A commit quorum acknowledged index m, an entry of term t, to the leader of t.
  ghost predicate Chosen(h: History, ids: set<NodeId>, t: nat, m: nat) {
    && t in h.reigns
    && 1 <= m <= |h.reigns[t].log|
    && h.reigns[t].log[m - 1].term == t
    && |AckSet(h, ids, t, m)| >= (|ids| - 1) / 2 + 1
  }

  ghost predicate CommittedBy(h: History, ids: set<NodeId>, p: Log, t: nat, m: nat) {
    Chosen(h, ids, t, m) && |p| <= m && p <= h.reigns[t].log
  }

  ghost predicate Committed(h: History, ids: set<NodeId>, p: Log, bound: nat) {
    |p| == 0 || exists t: nat, m: nat :: t <= bound && CommittedBy(h, ids, p, t, m)
  }

  // ------------------------------------------------------------- log facts

  lemma PrefixOfPrefix(a: Log, b: Log, c: Log)
    requires a <= c && b <= c && |a| <= |b|
    ensures a <= b
  {
    assert a == c[..|a|];
    assert b == c[..|b|];
  }

  lemma BackedPrefix(h: History, log: Log, k: nat)
    requires Backed(h, log) && k <= |log|
    ensures Backed(h, log[..k])
  {
    forall i | 0 <= i < k ensures BackedAt(h, log[..k], i) {
      assert BackedAt(h, log, i);
      assert log[..k][..i + 1] == log[..i + 1];
    }
  }

  // Log Matching: equal terms at an index mean equal logs up to it.
  lemma LogMatching(h: History, a: Log, b: Log, i: nat)
    requires Backed(h, a) && Backed(h, b)
    requires i < |a| && i < |b| && a[i].term == b[i].term
    ensures a[..i + 1] == b[..i + 1]
  {
    assert BackedAt(h, a, i) && BackedAt(h, b, i);
    PrefixOfPrefix(a[..i + 1], b[..i + 1], h.reigns[a[i].term].log);
  }

  lemma TermsAscend(h: History, ids: set<NodeId>, log: Log, i: nat, j: nat)
    requires HistoryOk(h, ids) && Backed(h, log)
    requires i <= j < |log|
    ensures log[i].term <= log[j].term
  {
    assert BackedAt(h, log, j);
    var t := log[j].term;
    assert ReignOk(h, ids, t);
    assert log[i] == log[..j + 1][i] == h.reigns[t].log[i];
  }

  // An entry of the leader's own term lies beyond the log it was elected with.
  lemma OwnTermBeyondBase(h: History, ids: set<NodeId>, log: Log, i: nat)
    requires HistoryOk(h, ids) && Backed(h, log) && i < |log|
    ensures log[i].term in h.reigns && |h.reigns[log[i].term].base| <= i
  {
    assert BackedAt(h, log, i);
    var t := log[i].term;
    assert ReignOk(h, ids, t);
    assert log[i] == log[..i + 1][i] == h.reigns[t].log[i];
  }

  // ------------------------------------------------- leader completeness

  lemma {:induction false} LeaderCompleteness(h: History, ids: set<NodeId>, t: nat, m: nat, u: nat)
    requires HistoryOk(h, ids) && ids != {}
    requires Chosen(h, ids, t, m)
    requires t < u && u in h.reigns
    ensures h.reigns[t].log[..m] <= h.reigns[u].base
    decreases u
  {
    var p := h.reigns[t].log[..m];
    assert ReignOk(h, ids, u) && ReignOk(h, ids, t);
    var f := CommitMeetsVotes(ids, AckSet(h, ids, t, m), h.reigns[u].voters);
    assert VoterOk(h, u, f);
    assert AckOk(h, ids, (t, f));
    assert Counts(h, u, f);
    var ballot := h.ballots[(u, f)].log;
    assert Kept(h, t, m, ballot, u);
    if !(p <= ballot) {
      var v :| t < v < u && v in h.reigns && !(p <= h.reigns[v].base);
      LeaderCompleteness(h, ids, t, m, v);
      assert false;
    }
    assert BallotOk(h, ids, (u, f));
    VotedLogCarries(h, ids, t, m, u, ballot);
  }

  // The elected log is at least as up to date as a voter's log that holds p.
  lemma {:induction false} VotedLogCarries(h: History, ids: set<NodeId>, t: nat, m: nat, u: nat, ballot: Log)
    requires HistoryOk(h, ids) && ids != {}
    requires Chosen(h, ids, t, m)
    requires t < u && u in h.reigns
    requires Backed(h, ballot) && h.reigns[t].log[..m] <= ballot
    requires UpToDate(ballot, |h.reigns[u].base|, LastTerm(h.reigns[u].base))
    ensures h.reigns[t].log[..m] <= h.reigns[u].base
    decreases u, 0
  {
    var p, base := h.reigns[t].log[..m], h.reigns[u].base;
    assert ReignOk(h, ids, u) && ReignOk(h, ids, t);
    assert ballot[m - 1] == p[m - 1];
    TermsAscend(h, ids, ballot, m - 1, |ballot| - 1);
    assert LastTerm(ballot) >= t;
    assert base == h.reigns[u].log[..|base|];
    BackedPrefix(h, h.reigns[u].log, |base|);
    var tb := LastTerm(base);
    assert BackedAt(h, base, |base| - 1);
    assert base[..|base|] == base;
    if tb == LastTerm(ballot) {
      assert BackedAt(h, ballot, |ballot| - 1);
      assert ballot[..|ballot|] == ballot;
      PrefixOfPrefix(ballot, base, h.reigns[tb].log);
    } else {
      LeaderCompleteness(h, ids, t, m, tb);
      OwnTermBeyondBase(h, ids, base, |base| - 1);
      assert ReignOk(h, ids, tb);
      PrefixOfPrefix(p, base, h.reigns[tb].log);
    }
  }

  // A committed prefix is in the log of every leader of that or a later term.
  lemma CommittedInReign(h: History, ids: set<NodeId>, p: Log, bound: nat, u: nat)
    requires HistoryOk(h, ids) && ids != {}
    requires Committed(h, ids, p, bound) && bound <= u && u in h.reigns
    ensures p <= h.reigns[u].log
  {
    if |p| > 0 {
      var t: nat, m: nat :| t <= bound && CommittedBy(h, ids, p, t, m);
      if t < u {
        LeaderCompleteness(h, ids, t, m, u);
        assert ReignOk(h, ids, u);
        PrefixOfPrefix(p, h.reigns[t].log[..m], h.reigns[t].log);
      }
    }
  }

  // Two committed prefixes never disagree.
  lemma CommittedAgree(h: History, ids: set<NodeId>, p: Log, bp: nat, q: Log, bq: nat)
    requires HistoryOk(h, ids) && ids != {}
    requires Committed(h, ids, p, bp) && Committed(h, ids, q, bq)
    ensures p <= q || q <= p
  {
    if |p| > 0 && |q| > 0 {
      var t: nat, m: nat :| t <= bp && CommittedBy(h, ids, p, t, m);
      var u: nat, k: nat :| u <= bq && CommittedBy(h, ids, q, u, k);
      var top := if t < u then u else t;
      assert Committed(h, ids, p, t) && Committed(h, ids, q, u);
      CommittedInReign(h, ids, p, t, top);
      CommittedInReign(h, ids, q, u, top);
      if |p| <= |q| {
        PrefixOfPrefix(p, q, h.reigns[top].log);
      } else {
        PrefixOfPrefix(q, p, h.reigns[top].log);
      }
    }
  }

  // -------------------------------------------------------------- growth

  // Nothing recorded is ever changed: reigns only append, votes stay, acks rise.
  ghost predicate Extends(h: History, g: History) {
    && (forall t :: t in h.reigns ==>
          && t in g.reigns
          && g.reigns[t].leader == h.reigns[t].leader
          && g.reigns[t].base == h.reigns[t].base
          && g.reigns[t].voters == h.reigns[t].voters
          && h.reigns[t].log <= g.reigns[t].log)
    && (forall k :: k in h.ballots ==> k in g.ballots && g.ballots[k] == h.ballots[k])
    && (forall k :: k in h.acks ==> k in g.acks && h.acks[k] <= g.acks[k])
  }

  lemma ExtendsReflexive(h: History)
    ensures Extends(h, h)
  {
  }

  lemma ExtendsTransitive(a: History, b: History, c: History)
    requires Extends(a, b) && Extends(b, c)
    ensures Extends(a, c)
  {
    forall t | t in a.reigns ensures a.reigns[t].log <= c.reigns[t].log {
      assert a.reigns[t].log <= b.reigns[t].log;
      assert b.reigns[t].log <= c.reigns[t].log;
    }
  }

  lemma BackedGrows(h: History, g: History, log: Log)
    requires Extends(h, g) && Backed(h, log)
    ensures Backed(g, log)
  {
    forall i | 0 <= i < |log| ensures BackedAt(g, log, i) {
      assert BackedAt(h, log, i);
    }
  }

  lemma KeptGrows(h: History, g: History, t: nat, m: nat, log: Log, hi: nat)
    requires Extends(h, g)
    requires t in h.reigns && m <= |h.reigns[t].log| && Kept(h, t, m, log, hi)
    ensures Kept(g, t, m, log, hi)
  {
    assert g.reigns[t].log[..m] == h.reigns[t].log[..m];
    if Superseded(h, t, m, hi) {
      var u :| t < u < hi && u in h.reigns && !(h.reigns[t].log[..m] <= h.reigns[u].base);
      assert u in g.reigns && !(g.reigns[t].log[..m] <= g.reigns[u].base);
    }
  }

  lemma ChosenGrows(h: History, g: History, ids: set<NodeId>, t: nat, m: nat)
    requires Extends(h, g) && Chosen(h, ids, t, m)
    ensures Chosen(g, ids, t, m)
  {
    SubsetCount(AckSet(h, ids, t, m), AckSet(g, ids, t, m));
  }

  lemma CommittedGrows(h: History, g: History, ids: set<NodeId>, p: Log, b: nat, c: nat)
    requires Extends(h, g) && Committed(h, ids, p, b) && b <= c
    ensures Committed(g, ids, p, c)
  {
    if |p| > 0 {
      var t: nat, m: nat :| t <= b && CommittedBy(h, ids, p, t, m);
      ChosenGrows(h, g, ids, t, m);
      assert CommittedBy(g, ids, p, t, m);
    }
  }

  lemma ReignBacked(h: History, ids: set<NodeId>, t: nat)
    requires HistoryOk(h, ids) && t in h.reigns
    ensures Backed(h, h.reigns[t].log)
  {
    assert ReignOk(h, ids, t);
  }
}
