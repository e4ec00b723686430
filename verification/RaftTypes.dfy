/**
 The values a Raft group exchanges and the state of one member.

 Every member is described with log compaction disabled (a snapshot threshold
 of 0, the shipped default), so `last_included_index_` is 0 throughout and the
 log is the whole sequence of entries 1, 2, 3, ...
 */
module RaftTypes {

  import opened Wrappers

  type NodeId = nat

  datatype Role = Follower | Candidate | Leader

  datatype Entry = Entry(index: nat, term: nat, data: string)

  type Log = seq<Entry>

  datatype Message =
    | RequestVote(term: nat, candidate: NodeId, lastIndex: nat, lastTerm: nat)
    | VoteReply(term: nat, granted: bool)
    | AppendEntries(term: nat, leader: NodeId, prevIndex: nat, prevTerm: nat,
                    entries: Log, leaderCommit: nat, round: nat)
    | AppendReply(term: nat, success: bool, matchIndex: nat, round: nat, hint: nat)

  datatype Packet = Packet(src: NodeId, dst: NodeId, msg: Message)

  // A read barrier waiting for its heartbeat round; `term` and `round` name it
  // uniquely within the group, because every barrier starts a round of its own.
  datatype Barrier = Barrier(term: nat, round: nat, target: nat)

  // One member: configuration, hard state and log (durable), everything else
  // volatile. `sent` lists every packet the member ever handed to the
  // transport; `finished` and `acknowledged` record the read barriers and the
  // proposals this process completed without an error.
  datatype Node = Node(
    id: NodeId,
    peers: seq<NodeId>,
    term: nat,
    votedFor: Option<NodeId>,
    log: Log,
    role: Role,
    leader: Option<NodeId>,
    commit: nat,
    applied: nat,
    next: map<NodeId, nat>,
    matched: map<NodeId, nat>,
    votes: set<NodeId>,
    pending: map<nat, Entry>,
    acknowledged: set<Entry>,
    round: nat,
    acked: map<NodeId, nat>,
    barriers: seq<Barrier>,
    finished: set<(nat, nat)>,
    sent: seq<Packet>)

  // What the environment does to one call: the first `writes` writes to the log
  // store succeed and later ones fail; the state machine applies no index above
  // `stop`.
  datatype Faults = Faults(writes: nat, stop: nat)

  datatype ProposeResult =
    | ProposeNotLeader
    | ProposeStoreFailed
    | Proposed(index: nat, term: nat, committed: bool)

  datatype ReadResult =
    | ReadNotLeader
    | ReadIndex(index: nat, term: nat, round: nat)
}
