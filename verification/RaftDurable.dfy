/**
 What a member once committed stays in its log for good, although a restart
 forgets the commit index: a leader that could overwrite it holds it itself.
 */
module RaftDurable {
  import opened RaftTypes
  import opened RaftSpec
  import opened RaftFrames
  import opened RaftProgress
  import opened RaftHistory
  import opened RaftInvariant
  import opened RaftCluster
  import opened RaftSafety
  import opened RaftReads

  // Where the batch reaches into `kept`, it carries the same entries.
  ghost predicate Agrees(kept: Log, prev: nat, entries: Log) {
    forall x :: 0 <= x < |entries| && prev + x < |kept| ==> kept[prev + x] == entries[x]
  }

  lemma {:induction false} BatchKeeps(kept: Log, n: Node, prev: nat, t: nat, entries: Log, k: nat, w: nat)
    requires k <= |entries| && kept <= n.log && Agrees(kept, prev, entries)
    ensures kept <= AppendBatch(n, prev, t, entries, k, w).0.log
    decreases |entries| - k
  {
    if k < |entries| {
      var e, i := entries[k], prev + k + 1;
      var n1 := if i <= |n.log| then DropPending(n.(log := n.log[..i - 1]), i) else n;
      if i <= |n.log| && n.log[i - 1].term == e.term {
        BatchKeeps(kept, n, prev, t, entries, k + 1, w);
      } else {
        assert kept <= n1.log;
        if |n1.log| + 1 == i && w > 0 {
          var w1 := if i <= |n.log| then w - 1 else w;
          if w1 > 0 { BatchKeeps(kept, n1.(log := n1.log + [e]), prev, t, entries, k + 1, w1 - 1); }
        }
      }
    }
  }

  lemma AcceptLog(n: Node, from: NodeId, m: Message, w: nat, stop: nat)
    requires m.AppendEntries?
    ensures Accept(n, from, m, w, stop).log == AppendBatch(n, m.prevIndex, m.term, m.entries, 0, w).0.log
  {
    hide AppendBatch, ApplyCommitted;
    var n1 := AppendBatch(n, m.prevIndex, m.term, m.entries, 0, w).0;
    var n2 := if m.leaderCommit > n1.commit then n1.(commit := Min(m.leaderCommit, |n1.log|)) else n1;
    ApplyCommittedFrame(n2, stop);
  }

  lemma FollowLog(n: Node, m: Message, w: nat)
    requires m.AppendEntries?
    ensures Follow(n, m, w).0.log == n.log
  {
  }

  // A request of the member's term or a later one carries everything that was
  // committed before that term.
  lemma RequestAgrees(c: Cluster, h: History, p: Packet, kept: Log, bound: nat)
    requires Inv(c, h) && p.src in c && p in c[p.src].sent && p.msg.AppendEntries?
    requires Committed(h, c.Keys, kept, bound) && bound <= p.msg.term
    ensures Agrees(kept, p.msg.prevIndex, p.msg.entries)
  {
    hide NodeOk, HistoryOk, Committed;
    MemberOk(c, h, p.src);
    assert AppendOk(h, c.Keys, p.src, p.msg) by {
      PacketsOf(h, c.Keys, c[p.src], p);
    }
    CommittedInReign(h, c.Keys, kept, bound, p.msg.term);
  }

  lemma PacketsOf(h: History, ids: set<NodeId>, n: Node, p: Packet)
    requires NodeOk(h, ids, n) && p in n.sent && p.msg.AppendEntries?
    ensures AppendOk(h, ids, n.id, p.msg)
  {
    assert PacketOk(h, ids, n, p);
  }

  lemma RequestKeeps(n: Node, from: NodeId, m: Message, f: Faults, kept: Log)
    requires m.AppendEntries? && kept <= n.log
    requires m.term >= n.term ==> Agrees(kept, m.prevIndex, m.entries)
    ensures kept <= HandleAppendEntries(n, from, m, f).log
  {
    hide AppendBatch, Accept, Follow, PrefixMatches, Agrees;
    FollowLog(n, m, f.writes);
    if m.term >= n.term {
      var (n1, ok, w) := Follow(n, m, f.writes);
      AcceptLog(n1, from, m, w, f.stop);
      BatchKeeps(kept, n1, m.prevIndex, m.term, m.entries, 0, w);
    }
  }

  lemma DeliverKeeps(c: Cluster, h: History, p: Packet, f: Faults, kept: Log, bound: nat)
    requires Inv(c, h) && p.src in c && p.dst in c && p in c[p.src].sent
    requires Committed(h, c.Keys, kept, bound) && bound <= c[p.dst].term && kept <= c[p.dst].log
    ensures kept <= HandleMessage(c[p.dst], p.src, p.msg, f).log
  {
    hide Inv, HandleRequestVote, HandleVoteReply, HandleAppendReply, HandleAppendEntries, Committed, Agrees;
    match p.msg
    case RequestVote(_, _, _, _) => RequestVoteOnward(c[p.dst], p.src, p.msg, f);
    case VoteReply(_, _) => VoteReplyOnward(c[p.dst], p.src, p.msg, f);
    case AppendEntries(_, _, _, _, _, _, _) =>
      if p.msg.term >= c[p.dst].term { RequestAgrees(c, h, p, kept, bound); }
      RequestKeeps(c[p.dst], p.src, p.msg, f, kept);
    case AppendReply(_, _, _, _, _) => AppendReplyOnward(c[p.dst], p.src, p.msg, f);
  }

  lemma StepKeeps(c: Cluster, e: Event, h: History, kept: Log, bound: nat)
    requires Inv(c, h) && Enabled(c, e)
    requires Committed(h, c.Keys, kept, bound) && bound <= c[Actor(e)].term && kept <= c[Actor(e)].log
    ensures kept <= React(c[Actor(e)], e).log
  {
    hide Inv, HandleMessage, Tick, Propose, ReadBarrier, Committed;
    match e
    case Deliver(p, f) => DeliverKeeps(c, h, p, f, kept, bound);
    case Timer(i, due, f, stop) => TickOnward(c[i], due, f, stop);
    case Write(i, data, f) => ProposeOnward(c[i], data, f);
    case Read(i) => ReadBarrierOnward(c[i]);
    case Reboot(i) =>
  }

  /**
   Every prefix a member has committed at some moment is in its log at every
   later moment, its own restarts included.
   */
  lemma {:induction false} CommittedStays(r: Run, j: nat, k: nat, a: NodeId)
    requires IsRun(r) && j <= k < |r.states| && a in r.states[j]
    ensures a in r.states[k] && r.states[j][a].term <= r.states[k][a].term
    ensures r.states[j][a].commit <= |r.states[j][a].log|
    ensures r.states[j][a].log[..r.states[j][a].commit] <= r.states[k][a].log
    decreases k
  {
    hide Inv, Extends, React, Init, Committed, Advances, StepOf;
    var hs := RecordRun(r);
    assert Inv(r.states[j], hs[j]);
    CommitWithinLog(r.states[j], hs[j], a);
    if j < k {
      CommittedStays(r, j, k - 1, a);
      var kept := r.states[j][a].log[..r.states[j][a].commit];
      CommittedSoFar(r, hs, j, k - 1, a);
      StepFacts(r, hs, k - 1);
      var e := r.events[k - 1];
      if a == Actor(e) {
        StepKeeps(r.states[k - 1], e, hs[k - 1], kept, r.states[j][a].term);
        TermRises(e, r.states[k - 1][a], r.states[k][a]);
      }
    }
  }

  lemma TermRises(e: Event, n: Node, n': Node)
    requires Advances(e, n, n')
    ensures n.term <= n'.term
  {
  }

  lemma CommittedSoFar(r: Run, hs: seq<History>, j: nat, k: nat, a: NodeId)
    requires Recorded(r, hs) && j <= k < |hs| && a in r.states[j]
    ensures var n := r.states[j][a];
            && n.commit <= |n.log| && r.states[k].Keys == r.states[j].Keys
            && Committed(hs[k], r.states[k].Keys, n.log[..n.commit], n.term)
  {
    hide HistoryOk, NodeOk, Extends, Committed;
    var n := r.states[j][a];
    assert Inv(r.states[j], hs[j]) && Extends(hs[j], hs[k]);
    MemberOk(r.states[j], hs[j], a);
    CommittedOf(hs[j], r.states[j].Keys, n);
    CommittedGrows(hs[j], hs[k], r.states[j].Keys, n.log[..n.commit], n.term, n.term);
  }

  lemma CommittedOf(h: History, ids: set<NodeId>, n: Node)
    requires NodeOk(h, ids, n)
    ensures n.commit <= |n.log| && Committed(h, ids, n.log[..n.commit], n.term)
  {
  }
}
