/**
 The invariant of one member with respect to the election record, and what the
 small changes handlers are made of do to it.
 */
module RaftInvariant {
  import opened Wrappers
  import opened RaftTypes
  import opened RaftSpec
  import opened RaftQuorum
  import opened RaftHistory

  ghost predicate ShapeOk(ids: set<NodeId>, n: Node) {
    && n.id in ids
    && Unique(n.peers) && Members(n.peers) == ids
    && n.applied <= n.commit <= |n.log|
  }

  ghost predicate LogOk(h: History, n: Node) {
    Backed(h, n.log) && forall k :: 0 <= k < |n.log| ==> n.log[k].term <= n.term
  }

  // A member votes once per term and the persisted vote is the recorded one.
  ghost predicate VoteOk(h: History, n: Node) {
    && (forall t: nat :: (t, n.id) in h.ballots ==>
          t <= n.term && (t == n.term ==> n.votedFor == Some(h.ballots[(t, n.id)].candidate)))
    && (n.votedFor.Some? ==>
          (n.term, n.id) in h.ballots && h.ballots[(n.term, n.id)].candidate == n.votedFor.value)
  }

  // Votes for this member: none from the future, and while it stands as a
  // candidate its log is as up to date as that of everybody who voted for it.
  ghost predicate SupportOk(h: History, n: Node) {
    forall k: (nat, NodeId) :: k in h.ballots && h.ballots[k].candidate == n.id ==>
      && k.0 <= n.term
      && (k.0 == n.term && n.role == Candidate ==>
            UpToDate(h.ballots[k].log, |n.log|, LastTerm(n.log)))
  }

  ghost predicate CandidateOk(h: History, ids: set<NodeId>, n: Node) {
    n.role == Candidate ==>
      && n.term >= 1
      && n.votes <= ids
      && (forall f :: f in n.votes ==> (n.term, f) in h.ballots && h.ballots[(n.term, f)].candidate == n.id)
      && (forall k :: 0 <= k < |n.log| ==> n.log[k].term < n.term)
  }

  ghost predicate LeadOk(h: History, n: Node) {
    && (forall t :: t in h.reigns && h.reigns[t].leader == n.id ==>
          t <= n.term && (t == n.term ==> n.role != Candidate))
    && (n.role == Leader ==>
          && n.term in h.reigns
          && h.reigns[n.term].leader == n.id
          && n.log == h.reigns[n.term].log)
  }

  ghost predicate Acked(h: History, t: nat, f: NodeId, m: nat) {
    (t, f) in h.acks && m <= h.acks[(t, f)]
  }

  // What this member acknowledged is still in its log, unless a later leader
  // was elected without it.
  ghost predicate AcksOk(h: History, n: Node) {
    forall t: nat, m: nat :: Acked(h, t, n.id, m) ==>
      && t <= n.term
      && t in h.reigns && m <= |h.reigns[t].log|
      && Kept(h, t, m, n.log, n.term + 1)
  }

  ghost predicate CommitOk(h: History, ids: set<NodeId>, n: Node)
    requires n.commit <= |n.log|
  {
    Committed(h, ids, n.log[..n.commit], n.term)
  }

  ghost predicate MatchOk(h: History, n: Node) {
    n.role == Leader ==>
      forall p :: p in n.matched && n.matched[p] > 0 ==>
        (n.term, p) in h.acks && h.acks[(n.term, p)] >= n.matched[p]
  }

  ghost predicate ProposalsOk(n: Node) {
    && (n.role != Leader ==> n.pending == map[])
    && (forall i :: i in n.pending ==> 1 <= i <= |n.log| && n.log[i - 1] == n.pending[i] && n.pending[i].index == i)
    && (forall e :: e in n.acknowledged ==> 1 <= e.index <= n.applied <= |n.log| && n.log[e.index - 1] == e)
  }

  ghost predicate AppendOk(h: History, ids: set<NodeId>, src: NodeId, m: Message)
    requires m.AppendEntries?
  {
    && m.term in h.reigns
    && h.reigns[m.term].leader == src == m.leader
    && m.prevIndex + |m.entries| <= |h.reigns[m.term].log|
    && m.entries == h.reigns[m.term].log[m.prevIndex..m.prevIndex + |m.entries|]
    && m.prevTerm == (if m.prevIndex == 0 then 0 else h.reigns[m.term].log[m.prevIndex - 1].term)
    && m.leaderCommit <= m.prevIndex + |m.entries|
    && Committed(h, ids, h.reigns[m.term].log[..m.leaderCommit], m.term)
  }

  ghost predicate PacketOk(h: History, ids: set<NodeId>, n: Node, p: Packet) {
    && p.src == n.id && p.dst in ids && p.dst != n.id
    && match p.msg
       case RequestVote(t, c, li, lt) =>
         && c == n.id && t <= n.term
         && (t == n.term && n.role == Candidate ==> li == |n.log| && lt == LastTerm(n.log))
       case VoteReply(t, granted) =>
         granted ==> (t, n.id) in h.ballots && h.ballots[(t, n.id)].candidate == p.dst
       case AppendEntries(_, _, _, _, _, _, _) => AppendOk(h, ids, n.id, p.msg)
       case AppendReply(t, success, m, _, _) =>
         success ==> t in h.reigns && (t, n.id) in h.acks && m <= h.acks[(t, n.id)]
  }

  ghost predicate PacketsOk(h: History, ids: set<NodeId>, n: Node) {
    forall p :: p in n.sent ==> PacketOk(h, ids, n, p)
  }

  ghost predicate NodeOk(h: History, ids: set<NodeId>, n: Node) {
    && ShapeOk(ids, n)
    && LogOk(h, n)
    && VoteOk(h, n)
    && SupportOk(h, n)
    && CandidateOk(h, ids, n)
    && LeadOk(h, n)
    && AcksOk(h, n)
    && CommitOk(h, ids, n)
    && MatchOk(h, n)
    && ProposalsOk(n)
    && PacketsOk(h, ids, n)
  }

  // ------------------------------------------------ members that do not move

  // g records nothing new about member i.
  ghost predicate Untouched(h: History, g: History, i: NodeId) {
    && (forall k: (nat, NodeId) :: k in g.ballots && (k.1 == i || g.ballots[k].candidate == i) ==> k in h.ballots)
    && (forall t :: t in g.reigns && g.reigns[t].leader == i ==>
          t in h.reigns && g.reigns[t].log == h.reigns[t].log)
    && (forall t: nat :: (t, i) in g.acks ==> (t, i) in h.acks && g.acks[(t, i)] == h.acks[(t, i)])
  }

  lemma AppendOkGrows(h: History, g: History, ids: set<NodeId>, src: NodeId, m: Message)
    requires m.AppendEntries? && Extends(h, g) && AppendOk(h, ids, src, m)
    ensures AppendOk(g, ids, src, m)
  {
    var a, b := h.reigns[m.term].log, g.reigns[m.term].log;
    assert a == b[..|a|];
    assert b[m.prevIndex..m.prevIndex + |m.entries|] == a[m.prevIndex..m.prevIndex + |m.entries|];
    assert b[..m.leaderCommit] == a[..m.leaderCommit];
    CommittedGrows(h, g, ids, a[..m.leaderCommit], m.term, m.term);
  }

  lemma PacketsOkGrows(h: History, g: History, ids: set<NodeId>, n: Node)
    requires Extends(h, g) && PacketsOk(h, ids, n)
    ensures PacketsOk(g, ids, n)
  {
    forall p | p in n.sent ensures PacketOk(g, ids, n, p) {
      assert PacketOk(h, ids, n, p);
      if p.msg.AppendEntries? { AppendOkGrows(h, g, ids, n.id, p.msg); }
    }
  }

  lemma AcksOkGrows(h: History, g: History, n: Node)
    requires Extends(h, g) && AcksOk(h, n)
    requires forall t: nat :: (t, n.id) in g.acks ==> (t, n.id) in h.acks && g.acks[(t, n.id)] == h.acks[(t, n.id)]
    ensures AcksOk(g, n)
  {
    forall t: nat, m: nat | Acked(g, t, n.id, m)
      ensures t <= n.term && t in g.reigns && m <= |g.reigns[t].log| && Kept(g, t, m, n.log, n.term + 1)
    {
      assert Acked(h, t, n.id, m);
      KeptGrows(h, g, t, m, n.log, n.term + 1);
    }
  }

  lemma StillOk(h: History, g: History, ids: set<NodeId>, n: Node)
    requires NodeOk(h, ids, n) && Extends(h, g) && Untouched(h, g, n.id)
    ensures NodeOk(g, ids, n)
  {
    hide AcksOk, PacketsOk, Committed, Backed;
    BackedGrows(h, g, n.log);
    AcksOkGrows(h, g, n);
    CommittedGrows(h, g, ids, n.log[..n.commit], n.term, n.term);
    PacketsOkGrows(h, g, ids, n);
  }

  lemma AcksLater(h: History, n: Node, n': Node)
    requires AcksOk(h, n) && n'.id == n.id && n'.term >= n.term && n.log <= n'.log
    ensures AcksOk(h, n')
  {
    forall u: nat, m: nat | Acked(h, u, n'.id, m)
      ensures u <= n'.term && u in h.reigns && m <= |h.reigns[u].log| && Kept(h, u, m, n'.log, n'.term + 1)
    {
      assert Acked(h, u, n.id, m);
    }
  }

  lemma PacketsLater(h: History, ids: set<NodeId>, n: Node, n': Node)
    requires PacketsOk(h, ids, n) && n'.id == n.id && n'.sent == n.sent && n'.term >= n.term
    requires n'.role == Candidate && n'.term == n.term ==> n.role == Candidate && n'.log == n.log
    ensures PacketsOk(h, ids, n')
  {
    forall p | p in n'.sent ensures PacketOk(h, ids, n', p) {
      assert PacketOk(h, ids, n, p);
    }
  }

  // -------------------------------------------------- changes of bookkeeping

  // The two states differ in nothing the invariant speaks about except packets.
  ghost predicate SameCore(n: Node, n': Node) {
    && n'.id == n.id && n'.peers == n.peers && n'.term == n.term && n'.votedFor == n.votedFor
    && n'.log == n.log && n'.role == n.role && n'.commit == n.commit && n'.votes == n.votes
    && n'.sent == n.sent
  }

  lemma BookkeepingOk(h: History, ids: set<NodeId>, n: Node, n': Node)
    requires NodeOk(h, ids, n) && SameCore(n, n')
    requires n'.applied <= n'.commit && MatchOk(h, n') && ProposalsOk(n')
    ensures NodeOk(h, ids, n')
  {
    hide PacketsOk, Committed, Backed, Kept;
    PacketsLater(h, ids, n, n');
  }

  lemma SendOk(h: History, ids: set<NodeId>, n: Node, to: NodeId, m: Message)
    requires NodeOk(h, ids, n) && PacketOk(h, ids, n, Packet(n.id, to, m))
    ensures NodeOk(h, ids, Send(n, to, m))
  {
    var n' := Send(n, to, m);
    forall p | p in n'.sent ensures PacketOk(h, ids, n', p) {
      assert PacketOk(h, ids, n, p);
    }
  }

  // ------------------------------------------------------------ role changes

  lemma BumpOk(h: History, ids: set<NodeId>, n: Node, t: nat, leader: Option<NodeId>)
    requires NodeOk(h, ids, n) && t > n.term
    ensures NodeOk(h, ids, StepDown(n.(term := t, votedFor := None), leader))
  {
    hide AcksOk, PacketsOk, Committed, Backed;
    var n' := StepDown(n.(term := t, votedFor := None), leader);
    AcksLater(h, n, n');
    CommittedGrows(h, h, ids, n.log[..n.commit], n.term, t);
    PacketsLater(h, ids, n, n');
  }

  lemma StepDownOk(h: History, ids: set<NodeId>, n: Node, leader: Option<NodeId>)
    requires NodeOk(h, ids, n)
    ensures NodeOk(h, ids, StepDown(n, leader))
  {
    hide AcksOk, PacketsOk, Committed, Backed;
    var n' := StepDown(n, leader);
    AcksLater(h, n, n');
    PacketsLater(h, ids, n, n');
  }

  lemma RestartOk(h: History, ids: set<NodeId>, n: Node)
    requires NodeOk(h, ids, n)
    ensures NodeOk(h, ids, Restart(n))
  {
    var n' := Restart(n);
    AcksLater(h, n, n');
    PacketsLater(h, ids, n, n');
  }
}
