/**
 Quorum arithmetic: what element (n - 1) / 2 of the descending match list says
 about the members, and why such a set meets every set of n / 2 + 1 voters.
 */
module RaftQuorum {
  import opened Wrappers
  import opened RaftTypes
  import opened RaftSpec

  function CountGe(s: seq<nat>, x: nat): nat {
    if |s| == 0 then 0 else (if s[0] >= x then 1 else 0) + CountGe(s[1..], x)
  }

  ghost predicate Descending(s: seq<nat>) {
    forall i, j :: 0 <= i < j < |s| ==> s[i] >= s[j]
  }

  ghost predicate Unique(peers: seq<NodeId>) {
    forall i, j :: 0 <= i < j < |peers| ==> peers[i] != peers[j]
  }

  ghost function Members(peers: seq<NodeId>): set<NodeId> {
    set p | p in peers
  }

  // Members whose recorded match index is at least x.
  ghost function Holders(peers: seq<NodeId>, matched: map<NodeId, nat>, x: nat): set<NodeId> {
    set p | p in peers && Get(matched, p) >= x
  }

  lemma {:induction false} InsertDescSorts(x: nat, s: seq<nat>)
    requires Descending(s)
    ensures Descending(InsertDesc(x, s))
    ensures |InsertDesc(x, s)| == |s| + 1
    ensures forall y :: y in InsertDesc(x, s) <==> y == x || y in s
  {
    if |s| == 0 || x >= s[0] {
    } else {
      InsertDescSorts(x, s[1..]);
      assert forall y :: y in s <==> y == s[0] || y in s[1..];
      var rest := InsertDesc(x, s[1..]);
      forall j | 0 <= j < |rest| ensures s[0] >= rest[j] {
        assert rest[j] in rest;
      }
    }
  }

  lemma {:induction false} InsertDescCount(x: nat, s: seq<nat>, y: nat)
    ensures CountGe(InsertDesc(x, s), y) == (if x >= y then 1 else 0) + CountGe(s, y)
  {
    if |s| == 0 || x >= s[0] {
      assert ([x] + s)[1..] == s;
    } else {
      InsertDescCount(x, s[1..], y);
      assert ([s[0]] + InsertDesc(x, s[1..]))[1..] == InsertDesc(x, s[1..]);
    }
  }

  lemma {:induction false} SortDescSorts(s: seq<nat>)
    ensures Descending(SortDesc(s)) && |SortDesc(s)| == |s|
    ensures forall y :: CountGe(SortDesc(s), y) == CountGe(s, y)
  {
    if |s| > 0 {
      SortDescSorts(s[1..]);
      InsertDescSorts(s[0], SortDesc(s[1..]));
      forall y ensures CountGe(SortDesc(s), y) == CountGe(s, y) {
        InsertDescCount(s[0], SortDesc(s[1..]), y);
      }
    }
  }

  lemma {:induction false} DescendingCount(s: seq<nat>, k: nat, x: nat)
    requires Descending(s) && k < |s|
    ensures s[k] >= x <==> CountGe(s, x) >= k + 1
  {
    if k == 0 {
      if s[0] < x { NoneGe(s, x); }
    } else {
      DescendingCount(s[1..], k - 1, x);
      if s[0] < x { NoneGe(s, x); }
    }
  }

  lemma {:induction false} NoneGe(s: seq<nat>, x: nat)
    requires forall i :: 0 <= i < |s| ==> s[i] < x
    ensures CountGe(s, x) == 0
  {
    if |s| > 0 { NoneGe(s[1..], x); }
  }

  // The k-th largest element reaches x exactly when more than k elements do.
  lemma KthLargestCount(s: seq<nat>, k: nat, x: nat)
    requires k < |s|
    ensures KthLargest(s, k) >= x <==> CountGe(s, x) >= k + 1
  {
    SortDescSorts(s);
    DescendingCount(SortDesc(s), k, x);
  }

  lemma {:induction false} CountIsHolders(peers: seq<NodeId>, matched: map<NodeId, nat>, x: nat)
    requires Unique(peers)
    ensures CountGe(Matches(peers, matched), x) == |Holders(peers, matched, x)|
  {
    var ms := Matches(peers, matched);
    if |peers| == 0 {
      assert Holders(peers, matched, x) == {};
    } else {
      CountIsHolders(peers[1..], matched, x);
      assert ms[1..] == Matches(peers[1..], matched);
      var rest := Holders(peers[1..], matched, x);
      if Get(matched, peers[0]) >= x {
        assert Holders(peers, matched, x) == rest + {peers[0]};
        assert peers[0] !in rest;
      } else {
        assert Holders(peers, matched, x) == rest;
      }
    }
  }

  // quorum_match_index is the largest x that more than (n - 1) / 2 members hold.
  lemma QuorumMatchExact(n: Node, x: nat)
    requires Unique(n.peers) && |n.peers| > 0
    ensures QuorumMatch(n) >= x <==> |Holders(n.peers, n.matched, x)| >= (|n.peers| - 1) / 2 + 1
  {
    KthLargestCount(Matches(n.peers, n.matched), (|n.peers| - 1) / 2, x);
    CountIsHolders(n.peers, n.matched, x);
  }

  lemma {:induction false} MembersCount(peers: seq<NodeId>)
    requires Unique(peers)
    ensures |Members(peers)| == |peers|
  {
    if |peers| == 0 {
      assert Members(peers) == {};
    } else {
      MembersCount(peers[1..]);
      assert Members(peers) == Members(peers[1..]) + {peers[0]};
    }
  }

  lemma SubsetCount<T>(a: set<T>, b: set<T>)
    requires a <= b
    ensures |a| <= |b|
  {
    assert b == a + (b - a);
  }

  // Two subsets whose sizes exceed the whole share a member.
  lemma SetsMeet(ids: set<NodeId>, a: set<NodeId>, b: set<NodeId>) returns (f: NodeId)
    requires a <= ids && b <= ids && |a| + |b| > |ids|
    ensures f in a && f in b
  {
    if a * b == {} {
      assert |a + b| == |a| + |b|;
      SubsetCount(a + b, ids);
      assert false;
    }
    f :| f in a * b;
  }

  // A commit set and a voter set share a member, for even and odd group sizes.
  lemma CommitMeetsVotes(ids: set<NodeId>, holders: set<NodeId>, voters: set<NodeId>)
    returns (f: NodeId)
    requires ids != {} && holders <= ids && voters <= ids
    requires |holders| >= (|ids| - 1) / 2 + 1
    requires |voters| >= |ids| / 2 + 1
    ensures f in holders && f in voters
  {
    f := SetsMeet(ids, holders, voters);
  }

  // The other peers among ps that acknowledged a round.
  ghost function AckersAmong(n: Node, r: nat, ps: seq<NodeId>): set<NodeId> {
    set p | p in ps && p != n.id && p in n.acked && n.acked[p] >= r
  }

  ghost function Ackers(n: Node, r: nat): set<NodeId> {
    AckersAmong(n, r, n.peers)
  }

  lemma AckersCons(n: Node, r: nat, p: NodeId, ps: seq<NodeId>)
    requires p !in ps
    ensures |AckersAmong(n, r, [p] + ps)| ==
            (if p != n.id && p in n.acked && n.acked[p] >= r then 1 else 0) + |AckersAmong(n, r, ps)|
  {
    if p != n.id && p in n.acked && n.acked[p] >= r {
      assert AckersAmong(n, r, [p] + ps) == AckersAmong(n, r, ps) + {p};
    } else {
      assert AckersAmong(n, r, [p] + ps) == AckersAmong(n, r, ps);
    }
  }

  lemma {:induction false} AckersFromCount(n: Node, r: nat, k: nat)
    requires Unique(n.peers) && k <= |n.peers|
    ensures AckersFrom(n, r, k) == |AckersAmong(n, r, n.peers[k..])|
    decreases |n.peers| - k
  {
    if k == |n.peers| {
      assert AckersAmong(n, r, n.peers[k..]) == {};
    } else {
      AckersFromCount(n, r, k + 1);
      assert n.peers[k..] == [n.peers[k]] + n.peers[k + 1..];
      AckersCons(n, r, n.peers[k], n.peers[k + 1..]);
    }
  }

  // quorum_acknowledged: the member and the peers that echoed the round reach a quorum.
  lemma QuorumAcknowledgedExact(n: Node, r: nat)
    requires Unique(n.peers)
    ensures QuorumAcknowledged(n, r) <==> 1 + |Ackers(n, r)| >= |n.peers| / 2 + 1
  {
    AckersFromCount(n, r, 0);
    assert n.peers[0..] == n.peers;
  }
}
