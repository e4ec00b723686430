# A verified model of the SQL database and its Raft groups

This project models, in Dafny, the parts of the database whose correctness is
hard to see from the code: the consensus node, the replicated key-value state
machine with its snapshots and log stores, the query pipeline from WHERE tree
to result rows, the order-preserving key codec, and the routing and wire
formats between members. `dafny verify dfyconfig.toml` verifies all of it.

## How it is built

Each component has three layers.

1. *Specification functions* on immutable values. They take the branches, edge
   cases and constants of the source.
2. *Classes and loops in the source's own form*, for code that updates things
   in place: `RaftNode`, the log stores, the state machine, the snapshot
   follower, the executors with their heap, the router, the cursor and the
   frame decoder. Their methods are proved to reach exactly the state the
   specification functions give.
3. *Theorems* about the specification functions, for all inputs, all runs and
   all reachable states.

### Raft

`RaftTypes` and `RaftSpec` hold a member's state and its handlers; `RaftNode`
is the class. `RaftCluster` is the step system: members react to delivered
packets, timers, proposals, read requests and restarts. A packet that was ever
sent may be delivered any number of times, in any order, or never, so loss,
duplication and reordering are all runs. Every step takes a number of storage
writes that succeed and an index at which the state machine stops applying, so
a handler may break off at any write. A restart keeps term, vote and log.

The proof keeps a record of every reign, ballot and acknowledgement beside the
cluster (`RaftHistory`), shows that each handler keeps the members' states
consistent with it (`RaftInvariant`, `RaftElection`, `RaftReplication`,
`RaftCluster`) and derives the properties over whole runs (`RaftSafety`,
`RaftReads`, `RaftDurable`, `RaftClient`). Safety would also hold of a group that
never does anything, so `RaftAnswers` states what every handler answers, decided
by the request and the member's state alone, and `RaftWitness` builds a run in
which a leader is elected, a proposal acknowledged and a read answered. Three places where the code differs from the published protocol
are modelled as written: a batch with an entry of an earlier term is refused
without an answer, the commit index is element `(n - 1) / 2` of the descending
match list while an election needs `n / 2 + 1` votes, and a follower takes the
minimum of the leader's commit index and its own last index.

### Queries

`Conditions` gives a WHERE tree its TRUE / FALSE / UNKNOWN value on a row.
`Rewriter` holds the rewriting passes, `KeyRanges` and `Optimizer` the
translation into primary-key ranges, `Execution` the plan and its operators,
and `Executors` the pull-based operators in place. The reference is one line:
the rows of the table whose WHERE is TRUE, sorted, cut to the page asked for
(`QueryAnswers` says what that means row by row, `TruthLaws` what TRUE means and
`RewriterForms` and `RewriterConverts` what the rewriting passes achieve).
The cost estimate is an arbitrary boolean, so the results hold for any
statistics. A full scan would be just as exact, so `PlanTight` adds that the plan
reads no more than the key conditions demand.

### State machine, stores, formats

`StateMachine`, `Snapshot`, `SnapshotTransfer` and `SnapshotProgress` cover
applying entries once, chunked snapshot transfer and the leader's optimistic
progress; `ApplyAnswers` and `SnapshotAnswers` state each answer by its reason.
`LogStore` defines one abstract log that both `MemoryLogStore` and
`LevelDBLogStore` (in `KeyLogStore`) refine. `Router`, `Wire`, `MessageCodec`,
`MessageReader`, `Framing` and `ProposalPayload` are the routing table and the
formats; `WireBytes` holds the writers to the layouts byte by byte.

## Where the code does not do what one would expect

- Absorption searches a sibling at any depth, so `a AND ((a AND c) OR b)`
  becomes `a`, and two ORs that become equal during simplification absorb each
  other until nothing is left (`RewriterLimits`). `RewriterExact` states
  exactly when a node keeps its meaning: the absorbed operands must follow from
  those that stay. The theorems about plans require this of the trees they
  rewrite (`Clean`).
- Nodes count as equal when their printed texts agree. The theorems take the
  printer as a parameter and require that equal texts of one kind mean the same
  (`Faithful`).
- WHERE literals are not converted to the column's type. A text literal on an
  integer key gets a range among the text keys, although the filter would read
  it as a number; an integer on a date key gets a range among the date keys,
  although the filter finds the two incomparable. `MistypedLiterals` states for
  every key type and kind of literal exactly when this matters; the theorems
  about plans require literals on the key column to have its type.
- The comment on point merging speaks of integers and dates; the code merges
  points only when both values are integers.
- `sql_types/README.en.md` says a NULL bound counts as unbounded; in the code it
  is a bound like any other and sorts below every value.
- The hard state is saved in 9 bytes when there is no vote, while loading asks
  for 17, so it reads back if and only if there is a vote
  (`KeyLogStore.HardStateRoundTrip`).
- Decoding a proposal payload ignores fields its operation does not use, so
  accepted bytes are the encoding of their result if and only if those fields
  are empty (`ProposalPayload.EncodeAfterDecode`).
- A log database that is refused when it is opened leaves the store open, so
  that trying again fails whatever the database holds by then
  (`KeyLogStore.LevelDBLogStore.Open`).

## Model

| member | source | states |
|---|---|---|
| `RaftSafety.RecordRun` | raft/raft_node.cpp:40-540 | every run of the cluster (loss, duplication, reordering, failed writes, restarts) has a record of reigns, ballots and acknowledgements that only grows and that explains every member's state at every moment |
| `RaftSafety.ElectionSafety` | raft/raft_node.cpp:213-377 | whoever leads in a term, at whatever two moments of a run, is the same member |
| `RaftSafety.LogMatchingInRuns` | raft/raft_node.cpp:379-487 | two logs, at any two moments of a run, with equal terms at an index agree on everything up to it |
| `RaftSafety.LeaderCompletenessInRuns` | raft/raft_node.cpp:316-354 | what any member has committed is a prefix of the log of every later leader of that term or a higher one |
| `RaftSafety.StateMachineSafety` | raft/raft_node.cpp:839-892 | any two members, at any two moments, hold the same entries at every index both have committed |
| `RaftSafety.AcknowledgedIsPermanent` | raft/raft_node.cpp:894-903 | an entry whose proposal was answered with success stands at its index in every member that has committed that far, at any moment |
| `RaftClient.WriteAnswer` | raft/raft_node.cpp:127-154 | along every run a proposal is taken exactly by a leader whose log store works; the answer names the next index and the leader's term, the entry with that data stands there right after, and it is said to be committed exactly when the leader's commit index has reached it |
| `RaftClient.CommittedWriteIsPermanent` | raft/raft_node.cpp:127-154 | a proposal answered as committed is the entry at that index in every member that ever commits so far, at any moment of the run |
| `RaftWitness.WorkingRun` | raft/raft_node.cpp:105-540 | there is a run of three members in which one is elected, a proposal is answered as not yet committed and later acknowledged, and a read is answered at its index |
| `RaftSafety.SamePositionSameData` | raft/raft_node.cpp:433-472 | an entry that arrives with the term of the one already stored at its index is that very entry, so the error branch for different data at one position is unreachable |
| `RaftSafety.RequestCommitIsCarried` | raft/raft_node.cpp:676-724 | no append request ever sent announces a commit index beyond the entries it reaches |
| `RaftReads.FollowerCommitIsVerified` | raft/raft_node.cpp:474-477 | handling an append request never moves a follower's commit index past the prefix that request just compared, although the minimum is taken with the follower's own last index |
| `RaftReads.CommittedIsNeverCut` | raft/raft_node.cpp:433-472 | no step of any run removes an entry at or below a member's commit index, whatever writes fail, and only a restart lowers a commit index |
| `RaftDurable.CommittedStays` | raft/raft_node.cpp:433-472 | what a member has committed at any moment is in its log at every later moment, although its restarts forget the commit index |
| `RaftReads.LinearizableRead` | raft/raft_node.cpp:156-181 | when a read barrier opened at some step is answered, the leader has applied everything any member had committed at that step, although the barrier never asks whether the leader's own first entry is committed |
| `RaftReads.CommitBeforeRead` | raft/raft_node.cpp:941-978 | a quorum whose terms had not passed the leader's when the read came in bounds every commit index of that moment by the leader's log |
| `RaftReadLocal.RoundCommits` | raft/raft_node.cpp:502-515 | once a quorum has echoed a round, the commit index covers the whole log the leader had when that round began |
| `RaftCluster.StepKeepsInv` | raft/raft_node.cpp:105-540 | each step of any kind keeps the cluster invariant, over a record that extends the one before |
| `RaftCluster.InitInv` | raft/raft_node.cpp:40-103 | freshly started members with one shared peer list satisfy the invariant with an empty record |
| `RaftHistory.LogMatching` | raft/raft_node.cpp:414-472 | logs whose entries all trace back to the reigns that created them match up to any index with equal terms |
| `RaftHistory.LeaderCompleteness` | raft/raft_node.cpp:316-354 | an index chosen in one reign, by a quorum's acknowledgements of an entry of that reign's term, is in the log every later leader was elected with |
| `RaftHistory.VotedLogCarries` | raft/raft_node.cpp:17-23 | if a voter's log holds the chosen prefix and the candidate's log is at least as up to date, the candidate's log holds it too |
| `RaftHistory.CommittedInReign` | raft/raft_node.cpp:839-863 | a committed prefix is in the log of every leader of that or a later term |
| `RaftHistory.CommittedAgree` | raft/raft_node.cpp:839-863 | of two committed prefixes one is a prefix of the other |
| `RaftQuorum.KthLargestCount` | raft/raft_node.cpp:1014-1026 | the k-th element of the descending list reaches x exactly when more than k elements do |
| `RaftQuorum.QuorumMatchExact` | raft/raft_node.cpp:1014-1026 | the quorum match index reaches x exactly when at least (n - 1) / 2 + 1 distinct members are known to hold x |
| `RaftQuorum.CommitMeetsVotes` | raft/raft_node.cpp:1014-1030 | a set of (n - 1) / 2 + 1 members and a set of n / 2 + 1 voters share a member for even and odd n, although for even n the first is no majority |
| `RaftQuorum.QuorumAcknowledgedExact` | raft/raft_node.cpp:966-978 | the counting loop answers true exactly when the member and the peers that echoed the round reach n / 2 + 1 |
| `RaftAnswers.VoteAnswer` | raft/raft_node.cpp:316-354 | with its writes working, a request of the current or a later term gets one reply, granted if and only if the candidate's last term and index are lexicographically not below the log's and, in the current term, no other candidate has the vote; term, role and vote follow |
| `RaftAnswers.VoteRefused` | raft/raft_node.cpp:316-354 | an earlier term is refused with the own term and no change; where a write fails nothing is answered |
| `RaftAnswers.ElectionAsks` | raft/raft_node.cpp:213-251 | standing for election raises the term, votes for itself and asks every other member, once each and nobody else, with the last index and term of its log |
| `RaftAnswers.SoleMember` | raft/raft_node.cpp:213-251 | a member without others elects itself, taking one write for the vote and one for its entry |
| `RaftAnswers.ElectionFails` | raft/raft_node.cpp:213-236 | when term and vote cannot be stored, only the known leader is forgotten |
| `RaftAnswers.VoteCounted` | raft/raft_node.cpp:356-377 | replies are ignored unless they grant a vote of this candidacy; the vote that makes more than half of the members puts the candidate into office with its own entry, any earlier one is only remembered |
| `RaftAnswers.OnlyCandidates` | raft/raft_node.cpp:253-256 | nobody but a candidate takes office |
| `RaftAnswers.LeaderStarts` | raft/raft_node.cpp:253-283 | a new leader of three or more holds exactly one entry more, knows nothing of the others, and has sent each of them that entry behind its old log in round 1 |
| `RaftAnswers.HigherTermFollows` | raft/raft_node.cpp:286-314 | a reply of a higher term makes a follower of that term without vote or leader, or changes nothing when the term cannot be stored |
| `RaftAnswers.AppendSent` | raft/raft_node.cpp:676-724 | a request starts at the peer's next index and carries the rest of the log, the term in front of it, the commit index and the round |
| `RaftAnswers.HeartbeatsSent` | raft/raft_node.cpp:827-837 | a heartbeat is one such request to every other member and nobody else, all under one new round |
| `RaftAnswers.BatchMerged` | raft/raft_node.cpp:433-472 | a batch whose entries are all there leaves the log as it is, and otherwise the log becomes its prefix and the batch |
| `RaftAnswers.AppendAnswer` | raft/raft_node.cpp:379-487 | a request that fits is merged, acknowledged up to its last index with its round, and raises the commit index to the smaller of the leader's and the own last index |
| `RaftAnswers.AppendRefused` | raft/raft_node.cpp:379-431 | a request that does not fit is refused with the length of the log and changes neither log nor commit; an earlier term is refused with the own term |
| `RaftAnswers.BadBatch` | raft/raft_node.cpp:433-472 | a batch with an entry of another term, out of place, or different from the stored entry of that term goes unanswered and changes neither log nor commit |
| `RaftAnswers.AcknowledgementCounted` | raft/raft_node.cpp:489-513 | an acknowledgement raises match, next and echoed round of its sender alone, and the commit rule is applied to just these tables |
| `RaftAnswers.AcknowledgementServes` | raft/raft_node.cpp:502-515 | an acknowledgement that completes a round answers the reads waiting for it |
| `RaftAnswers.AcknowledgementFollowUp` | raft/raft_node.cpp:515-530 | a peer that is still behind is sent what it lacks, one that has everything nothing |
| `RaftAnswers.RefusalBacksUp` | raft/raft_node.cpp:526-540 | a refusal lowers the peer's next index by one, not below 1, and asks again from there |
| `RaftAnswers.StaleReplies` | raft/raft_node.cpp:489-500 | replies of an earlier term, or to a member that no longer leads, change nothing |
| `RaftAnswers.CommitRule` | raft/raft_node.cpp:839-863 | the commit index moves exactly to the largest index that (n - 1) / 2 + 1 members hold, if it is new, in the log and of the current term; otherwise nothing at all happens |
| `RaftAnswers.CommitAnnounced` | raft/raft_node.cpp:853-863 | a new commit index that could be applied is announced to every other member in a new round; one whose apply was refused, or in a group of one, is not |
| `RaftAnswers.AppliedExact` | raft/raft_node.cpp:865-892 | applying goes up to the commit index or the first refusal, answers exactly the proposals it applies, and after a refusal drops exactly those behind it and all waiting reads |
| `RaftAnswers.BarriersAnswered` | raft/raft_node.cpp:941-952 | answered are exactly the reads whose round n / 2 + 1 members have echoed and whose index is applied; the others stay |
| `RaftAnswers.ReadAnswer` | raft/raft_node.cpp:156-181 | a read on a leader gets its commit index and a new round sent to every other member, and is answered at once or queued for that round; elsewhere it is refused |
| `RaftAnswers.ProposalAnswer` | raft/raft_node.cpp:127-154 | a proposal becomes the next entry; the answer says committed exactly when it is, and until it is applied it waits with its own entry |
| `RaftAnswers.ProposalSent` | raft/raft_node.cpp:127-154 | a proposal that does not commit at once goes out to every other member behind what that member is still owed |
| `RaftAnswers.TickIdle` | raft/raft_node.cpp:105-125 | before the deadline a tick only applies |
| `RaftAnswers.TickBeats` | raft/raft_node.cpp:105-125 | at the deadline a leader beats |
| `RaftAnswers.TickElects` | raft/raft_node.cpp:105-125 | at the deadline anyone else stands for election |
| `RaftNode.RaftNode.Start` | raft/raft_node.cpp:40-103 | starting succeeds exactly for a non-zero id within a non-empty list of distinct peers, a heartbeat interval below the election timeout and a readable log store; then term, vote and log stay and everything else is forgotten, otherwise nothing changes |
| `RaftNode.RaftNode.Tick` | raft/raft_node.cpp:105-125 | the timer step in place is the cluster's timer step: heartbeats for a leader, an election for anyone else whose deadline passed |
| `RaftNode.RaftNode.Propose` | raft/raft_node.cpp:127-154 | the method in place, answer included, is the cluster step whose answer and effect RaftAnswers.ProposalAnswer and RaftClient.WriteAnswer state |
| `RaftNode.RaftNode.ReadBarrier` | raft/raft_node.cpp:156-181 | opening a barrier starts a fresh round and queues it under that round and term, as in the cluster step |
| `RaftNode.RaftNode.HandleMessage` | raft/raft_node.cpp:183-211 | dispatch in place has the effect of the cluster's delivery step for each kind of message |
| `RaftNode.RaftNode.StartElection` | raft/raft_node.cpp:213-251 | candidacy stores the new term and own vote before any request leaves; when the store fails nothing but the leader hint changes |
| `RaftNode.RaftNode.RequestVotes` | raft/raft_node.cpp:237-250 | the loop over peers sends one request to each other member and none to itself |
| `RaftNode.RaftNode.BecomeLeader` | raft/raft_node.cpp:253-283 | a new leader resets progress, appends its own first entry, sends it and advances its commit index; when the append fails it steps down |
| `RaftNode.RaftNode.InitializeLeaderProgress` | raft/raft_node.cpp:1032-1041 | the loop sets every peer's next and match index and forgets earlier acknowledgements |
| `RaftNode.RaftNode.BecomeFollower` | raft/raft_node.cpp:286-314 | a higher term is stored with the vote cleared before the role changes; when storing fails nothing changes and the caller is told |
| `RaftNode.RaftNode.StepDown` | raft/raft_node.cpp:286-314 | leaving office fails all pending proposals and barriers and forgets votes |
| `RaftNode.RaftNode.HandleRequestVote` | raft/raft_node.cpp:316-354 | the method in place is the cluster step whose reply RaftAnswers.VoteAnswer and RaftAnswers.VoteRefused state; the vote is stored before the reply that grants it leaves |
| `RaftNode.RaftNode.HandleVoteReply` | raft/raft_node.cpp:356-377 | votes are collected as a set, so repeated replies count once |
| `RaftNode.RaftNode.HandleAppendEntries` | raft/raft_node.cpp:379-487 | the whole follower path in place, with every early return, is the function the safety proofs use |
| `RaftNode.RaftNode.AppendBatch` | raft/raft_node.cpp:433-472 | the loop over a batch skips what is stored, cuts a conflicting suffix, appends the rest and stops where a write fails or an entry is not of the sender's term |
| `RaftNode.RaftNode.Accept` | raft/raft_node.cpp:433-487 | after the batch, commit, apply and reply happen in the order the safety proofs rely on |
| `RaftNode.RaftNode.HandleAppendReply` | raft/raft_node.cpp:489-540 | progress and round are raised, commit advances before barriers are looked at, a refusal backs the next index up |
| `RaftNode.RaftNode.SendAppend` | raft/raft_node.cpp:676-724 | a request carries the whole suffix of the log behind its previous index |
| `RaftNode.RaftNode.SendHeartbeats` | raft/raft_node.cpp:827-837 | the loop sends to every other peer under one round |
| `RaftNode.SuffixFrom` | raft/raft_node.cpp:714-720 | reading entries one by one yields the suffix, in order and complete |
| `RaftNode.RaftNode.AdvanceCommit` | raft/raft_node.cpp:839-863 | commit moves to the quorum match index only when that entry is of the current term |
| `RaftNode.RaftNode.ApplyCommitted` | raft/raft_node.cpp:865-892 | the loop applies entry after entry up to the commit index, answers their proposals, and stops at the first entry that fails |
| `RaftNode.RaftNode.FailPendingProposals` | raft/raft_node.cpp:924-939 | exactly the proposals at or behind the given index are dropped |
| `RaftNode.RaftNode.EvaluateBarriers` | raft/raft_node.cpp:941-952 | afterwards the answered barriers are exactly those whose round a quorum echoed and whose index is applied |
| `RaftNode.RaftNode.ServeBarriers` | raft/raft_node.cpp:941-952 | erasing from the list while walking it skips no barrier and keeps the order of the rest |
| `RaftNode.RaftNode.QuorumAcknowledged` | raft/raft_node.cpp:966-978 | the counting loop computes the quorum test the read theorems use |
| `RaftNode.RaftNode.QuorumMatchIndex` | raft/raft_node.cpp:1014-1026 | sorting the match list and indexing it yields the largest index that (n - 1) / 2 + 1 members hold |
| `KeyCodec.KeyOrder` | sql_types/key.h:69-83 | byte order of the keys of a column is the logical order of its values, NULL first, and equal keys mean equal values |
| `KeyCodec.KeyRoundTrip` | sql_types/key.h:69-108 | decoding inverts encoding for every value of a column, and every encoded key is valid |
| `KeyCodec.ValidKeyRoundTrip` | sql_types/key.h:110-140 | every key the validity test accepts for a column is the encoding of what it decodes to, and a valid key with a byte appended is not valid |
| `KeyCodec.FamilyBounds` | sql_types/key.h:150-164 | a key lies between a family's lower and upper bound exactly when its value is of that family |
| `KeyCodec.BigEndianOrder` | sql_types/key.h:273-285 | comparing eight-byte images compares the numbers |
| `KeyCodec.OrderedIsMonotone` | sql_types/key.h:288-294 | flipping the sign bit maps signed order to unsigned order and back without loss |
| `KeyCodec.EscapeOrder` | sql_types/key.h:297-308 | escaped and terminated strings compare as the strings do, also when one is a prefix of the other or holds zero bytes |
| `KeyCodec.EscapeRoundTrip` | sql_types/key.h:297-328 | unescaping gives back every string |
| `KeyCodec.UnescapeRoundTrip` | sql_types/key.h:310-328 | whatever unescapes is the escape of its result, and with a byte behind the terminator it no longer does |
| `KeyCodec.EncodeBe64` | sql_types/key.h:273-277 | the shifting loop appends the number's eight bytes, most significant first |
| `KeyCodec.DecodeBe64` | sql_types/key.h:279-285 | the accumulating loop reads back the number those bytes spell |
| `KeyCodec.EncodeString` | sql_types/key.h:297-308 | the loop appends the escaped string and its terminator |
| `KeyCodec.DecodeString` | sql_types/key.h:310-328 | the loop accepts exactly one escaped string with nothing behind it, and yields it |
| `KeyCodec.ToKey` | sql_types/key.h:69-83 | the encoder assembled from the loops is the encoding the order theorem is about |
| `KeyCodec.Decode` | sql_types/key.h:88-108 | the decoder likewise, with NULL for anything malformed |
| `Bytes.SuccessorExact` | sql_types/key.h:143-147 | no key lies between a key and that key with a zero byte appended |
| `Bytes.PointInterval` | sql_types/key.h:143-147 | the half-open interval from a key to its successor holds that key only |
| `RewriterMeaning.PushNotMeaning` | planner/rewriter.cpp:101-145 | pushing NOT to the leaves keeps TRUE, FALSE and UNKNOWN on every row, for every tree |
| `RewriterMeaning.FlattenMeaning` | planner/rewriter.cpp:151-175 | regrouping nests of one connective keeps the value |
| `RewriterMeaning.FoldConstantsMeaning` | planner/rewriter.cpp:183-220 | removing repeats from IN lists and turning one-element lists into comparisons keeps the value, NULL in the list included |
| `RewriterMeaning.DeduplicateMeaning` | planner/rewriter.cpp:228-262 | dropping operands whose text repeats keeps the value |
| `RewriterMeaning.AbsorptionMeaning` | planner/rewriter.cpp:273-306 | dropping absorbed operands keeps the value, and leaves something, when each of them follows from the operands that stay |
| `RewriterMeaning.DirectAbsorptionIsJust` | planner/rewriter.cpp:273-333 | absorption is right whenever each absorbed operand has, among its own immediate operands, a sibling of a kind that is never absorbed |
| `RewriterMeaning.MergeMeaning` | planner/rewriter.cpp:309-379 | merging equalities on one column into IN lists keeps the value of the OR and never empties it |
| `RewriterMeaning.SimplifyMeaning` | planner/rewriter.cpp:381-408 | simplifying a clean tree yields a tree with the same value on every row |
| `RewriterMeaning.RewriteMeaning` | planner/rewriter.cpp:415-425 | the five passes together keep the three-valued meaning of every tree they leave clean |
| `RewriterForms.PushNotForm` | planner/rewriter.cpp:101-145 | afterwards NOT stands only on comparisons whose operator is unknown |
| `RewriterForms.FlattenForm` | planner/rewriter.cpp:151-175 | afterwards no connective has one of its own kind on the right, and the leaves are the same in the same order |
| `RewriterForms.FoldForm` | planner/rewriter.cpp:183-220 | afterwards no IN list repeats a literal or consists of a single one other than NULL |
| `RewriterForms.DeduplicateForm` | planner/rewriter.cpp:228-262 | afterwards no two operands of a nest print alike, and every operand has its representative |
| `RewriterForms.SimplifyForm` | planner/rewriter.cpp:381-408 | simplifying leaves no NOT on a NOT and none on an IN list |
| `RewriterForms.UnabsorbedExact` | planner/rewriter.cpp:273-306 | absorption keeps exactly the operands no sibling absorbs |
| `RewriterForms.MergeForm` | planner/rewriter.cpp:309-379 | afterwards no two equalities on one column are left beside each other under an OR |
| `RewriterExact.AbsorptionExact` | planner/rewriter.cpp:273-306 | with independent leaves, dropping the absorbed operands keeps the value on all rows if and only if each of them follows from those that stay |
| `RewriterExact.SimplifyExact` | planner/rewriter.cpp:273-408 | a node with clean operands and independent leaves simplifies to a tree of the same meaning if and only if it is clean |
| `RewriterLimits.DeepAbsorption` | planner/rewriter.cpp:84-94 | the whole rewrite turns `a AND ((a AND c) OR b)` into `a`, with a row on which the two differ; the operands are clean and the leaves independent, so the exact condition applies and fails |
| `RewriterLimits.MutualAbsorption` | planner/rewriter.cpp:285-299 | two ORs that simplify to the same node absorb each other in the whole rewrite, so a condition that rejects a row disappears; here too only the node itself is not clean |
| `RewriterLimits.HiddenChange` | planner/rewriter.cpp:273-333 | a whole tree that is not clean and still keeps its meaning, because an outer operand hides what an inner absorption changed |
| `RewriterLeaves.RewriteLeaves` | planner/rewriter.cpp:415-425 | whatever held of all columns and literals before the rewrite holds of them after it |
| `RewriterLoops.CollectSameOp` | planner/rewriter.cpp:51-63 | the recursive walk with an output list gathers the operands of a nest left to right |
| `RewriterLoops.RebuildTree` | planner/rewriter.cpp:66-81 | the loop builds the left-deep tree of the operands, or none for an empty list |
| `RewriterLoops.FlattenTree` | planner/rewriter.cpp:151-175 | the looping pass is the pass proved to keep meaning |
| `RewriterLoops.FoldList` | planner/rewriter.cpp:183-220 | the loop over IN values keeps first occurrences in order |
| `RewriterLoops.IsDuplicate` | planner/rewriter.cpp:228-262 | the inner loop finds an earlier operand with the same text if there is one |
| `RewriterLoops.DeduplicateTree` | planner/rewriter.cpp:228-262 | the looping pass is the pass proved to keep meaning |
| `RewriterLoops.MarkAbsorbed` | planner/rewriter.cpp:284-299 | the double loop marks exactly the operands some sibling absorbs, and dereferences a missing operand exactly when there is one |
| `RewriterLoops.KeepUnabsorbed` | planner/rewriter.cpp:300-304 | the unmarked operands stay, in order |
| `RewriterLoops.FormGroup` | planner/rewriter.cpp:353-364 | the inner loop gathers the not yet consumed equalities on the head's column with their values |
| `RewriterLoops.MergeHeads` | planner/rewriter.cpp:343-377 | the outer loop over heads yields the IN lists first and the untouched operands behind them |
| `RewriterLoops.SimplifyTree` | planner/rewriter.cpp:381-408 | mutual recursion over nodes and operand lists computes the simplification the meaning theorems are about |
| `TruthLaws.OrderLaws` | sql_types/sql_truth.h:186-275 | comparing is antisymmetric, answers nothing with NULL, and goes by place on a common scale: booleans as 0 and 1, dates and date-times in seconds, text by bytes |
| `TruthLaws.TextReadsAs` | sql_types/sql_truth.h:240-275 | a text that reads as a value of the other side's kind compares as that value does |
| `TruthLaws.ComparisonLaws` | sql_types/sql_truth.h:277-316 | the six comparisons follow from one order and its negations, all unknown without it; null tests and LIKE likewise |
| `TruthLaws.TruthIsOrdered` | sql_types/sql_truth.h:62-95 | with FALSE below UNKNOWN below TRUE, AND is the smaller, OR the larger, and NOT turns the order around |
| `TruthLaws.InExact` | sql_types/sql_truth.h:361-378 | IN is TRUE if and only if some member equals, FALSE if and only if every member differs |
| `TruthLaws.LeafTruth` | sql_types/sql_truth.h:353-378 | a column the row lacks makes a leaf unknown, and NOT IN is NOT of IN |
| `KeyRanges.ContainsIsScanned` | sql_types/key_range.h:444-467 | asking a range about a value answers exactly whether scanning the flattened byte interval would meet the value's key |
| `KeyRanges.IntersectExact` | sql_types/key_range.h:543-586 | the intersection holds exactly the values both ranges hold |
| `KeyRanges.JoinedExact` | sql_types/key_range.h:589-638 | joining two ranges that overlap or touch holds exactly the values either holds |
| `KeyRanges.OverlapOrTouch` | sql_types/key_range.h:470-505 | the two tests together are true exactly when the byte intervals have no gap between them |
| `KeyRanges.PointExact` | sql_types/key_range.h:343-359 | a range reported as a point holds its point value and no other |
| `OptimizerRanges.NormalizeExact` | planner/optimizer.cpp:68-90 | normalised ranges are ascending with gaps between them and cover exactly what the list covered |
| `OptimizerRanges.IntersectRangesExact` | planner/optimizer.cpp:93-105 | the pairwise intersection of two lists covers exactly what both cover, again ascending with gaps |
| `OptimizerRanges.UniteRangesExact` | planner/optimizer.cpp:108-113 | the union covers exactly what either covers, again ascending with gaps |
| `OptimizerPlan.CoalesceExact` | planner/optimizer.cpp:119-153 | merging runs of neighbouring integer points adds and loses no key and keeps the order |
| `OptimizerPlan.CompareByKey` | sql_types/sql_truth.h:206-275 | on values of one column the SQL comparison is the order of the stored keys |
| `OptimizerPlan.FactoryRanges` | sql_types/key_range.h:117-224 | the range made for each comparison holds exactly the values on that side of the literal, NULL in none of them |
| `PlanExact.RangeOfExact` | planner/optimizer.cpp:171-242 | the ranges of a condition on the key cover a key exactly when the condition is TRUE on its row |
| `PlanExact.CandidatesExact` | planner/optimizer.cpp:600-606 | so do the normalised and merged ranges, which are ascending with gaps |
| `PlanExact.SplitExact` | planner/optimizer.cpp:275-316 | the key part and the remaining part together keep exactly the rows the whole WHERE keeps, for every tree |
| `PlanExact.SplitLeaves` | planner/optimizer.cpp:275-316 | the key part mentions no column but the key |
| `PlanExact.ExclusionsSound` | planner/optimizer.cpp:320-349 | a key that the scan skips never belongs to a row the filter would have kept |
| `PlanExact.RewriteTreeExact` | planner/optimizer.cpp:569-579 | rewriting a part keeps the rows it keeps, and turns no condition into none |
| `PlanExact.ConvertExact` | planner/optimizer.cpp:585-668 | whichever way the cost decides, ranges, skipped keys and filter together select exactly the rows both parts keep |
| `PlanExact.OptimizeExact` | planner/optimizer.cpp:525-668 | for every table row, WHERE tree and cost decision: the row is covered, not skipped and passes the filter if and only if WHERE is TRUE on it; the ranges are ascending with gaps |
| `PlanTight.ConvertedExactly` | planner/optimizer.cpp:171-242 | a condition becomes ranges if and only if it is built with AND and OR from order comparisons, null tests and IN lists |
| `PlanTight.SplitTight` | planner/optimizer.cpp:275-316 | the key part is the conjunction, in order, of exactly those conjuncts that are convertible and about the key alone, and nothing remains if and only if all are |
| `PlanTight.ExclusionsTight` | planner/optimizer.cpp:320-349 | a key is skipped if and only if some conjunct of the filter is key <> that value or key NOT IN a list with it |
| `PlanTight.PointsExact` | sql_types/key_range.h:343-359 | a range taken for a point holds its value alone, and points, the NULL range and [n, n + 1) are taken for points |
| `PlanTight.CoalesceTight` | planner/optimizer.cpp:119-153 | after merging no two neighbouring integer points are left |
| `PlanTight.OverlapExact` | sql_types/key_range.h:470-505 | ranges overlap if and only if some key is scanned by both, and are adjacent if and only if one ends where the other starts |
| `PlanTight.UniteExact` | sql_types/key_range.h:589-638 | uniting two ranges yields one exactly when one is empty or they overlap or touch, otherwise both, and holds exactly what either holds |
| `PlanTight.ResultForms` | sql_types/key_range.h:543-638 | intersections and unions have no inclusive NULL lower bound; an untyped side takes the other's type, and an untyped range the column's when it is scanned |
| `PlanTight.RangeOrderExact` | planner/optimizer.cpp:47-62 | ranges are sorted by where they start, those that start together by where they end, unbounded ends last |
| `PlanTight.NullMakesNothing` | sql_types/key_range.h:117-224 | a range made from NULL holds no value |
| `PlanTight.ConvertTight` | planner/optimizer.cpp:585-668 | the whole key space is scanned exactly when there is no key condition, it is not convertible, or it is several points and the cost says so; otherwise the ranges cover a key if and only if the key condition is TRUE on it, and the filter is the remaining part |
| `PlanTight.OptimizeTight` | planner/optimizer.cpp:525-668 | over the whole pipeline the ranges cover exactly the keys that satisfy the key conjuncts of the rewritten WHERE; everything is scanned only when there is no such conjunct, or when they come to several points and the cost says so |
| `RewriterConverts.RewriteConverts` | planner/rewriter.cpp:415-425 | rewriting a condition that can become ranges yields one that can |
| `PlanExact.TextLiteralMisses` | planner/optimizer.cpp:171-206 | a text literal that reads as the number n is TRUE on the row with key n, while the range made for it does not cover that key |
| `MistypedLiterals.NumberKeyExact` | sql_types/sql_truth.h:206-275 | for integer, boolean, date and time keys and every literal of another type: the scan meets exactly the keys the filter accepts if and only if the literal stands for no number that some key compares with as asked |
| `MistypedLiterals.TextKeyExact` | sql_types/sql_truth.h:240-275 | for text keys and integer or boolean literals: likewise if and only if no text reads as a number that compares with the literal as asked |
| `MistypedLiterals.OtherFamilyIsMissed` | sql_types/key_range.h:783-820 | the flattened range of a literal meets no key of another family and no NULL |
| `MistypedLiterals.RangeIsPlanned` | planner/optimizer.cpp:171-203 | the range these are about is the one the optimizer plans for the comparison |
| `OptimizerLoops.SortRanges` | planner/optimizer.cpp:47-78 | inserting one by one sorts by lower end, with the rule for missing bounds |
| `OptimizerLoops.Normalize` | planner/optimizer.cpp:68-90 | the merging loop over the sorted ranges is the normalisation proved exact |
| `OptimizerLoops.IntersectAll` | planner/optimizer.cpp:93-105 | the double loop is the list intersection proved exact |
| `OptimizerLoops.CoalesceAdjacent` | planner/optimizer.cpp:119-153 | the loop that skips ahead over runs is the merging proved exact |
| `OptimizerLoops.ExtendRun` | planner/optimizer.cpp:138-148 | the inner loop stops at the last point of the run |
| `OptimizerLoops.PointRanges` | planner/optimizer.cpp:205-220 | NULL members of an IN list give no range; a list of NULLs gives the empty range |
| `OptimizerLoops.Exclusions` | planner/optimizer.cpp:320-349 | the walk collects keys only through AND, so every one of them is excluded by the whole filter |
| `RowOrder.RowLessExact` | executor/executor.cpp:69-112 | one row comes before another if and only if some key puts it first, in that key's direction, and all the keys in front of it are equal |
| `RowOrder.OrderByExact` | executor/executor.cpp:69-87 | with the primary key appended: the ORDER BY columns decide, and among rows equal in all of them the smaller primary key comes first |
| `RowOrder.SortCompareLaws` | executor/executor.cpp:44-60 | for any two values: antisymmetric, NULL first, and by stored key where SQL has no order |
| `RowOrder.RowLessTransitive` | executor/executor.cpp:93-107 | the comparator over several keys with directions is transitive on rows of the table |
| `RowOrder.RowLessTotal` | executor/executor.cpp:69-112 | rows with different primary keys are never tied once the key is among the sort keys |
| `RowOrder.SortRowsOk` | executor/executor.cpp:535-597 | sorting yields an ordered arrangement of the same rows |
| `RowOrder.OrderIsUnique` | executor/executor.cpp:69-112 | two ordered arrangements of the same rows are equal, so the result does not depend on the sorting algorithm |
| `SelectExact.ScanExact` | executor/executor.cpp:365-467 | scanning ascending ranges one after another meets each covered, not skipped row once, in key order |
| `SelectExact.ChainExact` | planner/planner.cpp:110-155 | scan and filter deliver exactly the rows whose WHERE is TRUE, in key order or its reverse |
| `SelectExact.SortElimination` | planner/planner.cpp:163-176 | when ORDER BY starts with the primary key, scanning in its direction yields the sequence the full sort would |
| `SelectExact.TopNThenLimit` | planner/planner.cpp:37-45 | keeping only the saturated OFFSET + LIMIT first rows before LIMIT does not change the page |
| `SelectExact.LimitIsPage` | executor/executor.cpp:634-668 | without the cut the limit operator yields the page as well |
| `SelectExact.SelectIsExact` | planner/planner.cpp:181-230 | for every table, SELECT, cost decision and row budget the plan returns the page of the sorted rows whose WHERE is TRUE, or the memory error exactly when an unbounded sort exceeds the budget |
| `QueryAnswers.AnswerRows` | planner/planner.cpp:181-230 | the answer of a statement without limit holds every table row whose WHERE is TRUE and no other, each once; with one it is the page of that answer |
| `QueryAnswers.AnswerOrder` | executor/executor.cpp:69-112 | of any two rows of the answer the first is put before the second by ORDER BY, or by the primary key where ORDER BY leaves it open |
| `QueryAnswers.PageExact` | executor/executor.cpp:634-668 | row i of the page is row OFFSET + i of the input, and the page is as long as LIMIT and the input allow |
| `QueryAnswers.TopNExact` | planner/planner.cpp:37-45 | the sort keeps OFFSET + LIMIT rows, or the largest 64-bit number of them when the sum does not fit |
| `QueryAnswers.TablesExist` | relation/table.cpp:82-136 | any rows of the schema with different keys, put in key order, are a table the theorems speak of |
| `QueryAnswers.UnknownColumn` | executor/executor.cpp:71-81 | an ORDER BY column the table lacks is an error for every plan, unless the primary key comes first |
| `TopN.TopStep` | executor/executor.cpp:558-593 | how the first k rows of the sorted input change with one more input row: added, swapped for the last, or unchanged |
| `TopN.FrontIsLast` | executor/executor.cpp:583-592 | in a full buffer the heap's front is the last of the rows to keep |
| `TopN.TakeInsert` | executor/executor.cpp:558-593 | cutting to k rows commutes with inserting a row |
| `RowHeap.FrontIsWorst` | executor/executor.cpp:588-592 | no row of a heap sorts after its front |
| `RowHeap.PushHeap` | executor/executor.cpp:583-592 | sifting up restores the heap and keeps the rows |
| `RowHeap.PopHeap` | executor/executor.cpp:588-592 | moving the front to the back leaves a heap before it and keeps the rows |
| `RowHeap.SiftDown` | executor/executor.cpp:588-592 | sifting down restores the heap and keeps the rows |
| `Executors.ScanExecutor.OpenRange` | executor/executor.cpp:365-379 | moving to the next non-empty range loses no row that is still to come |
| `Executors.ScanExecutor.FindRange` | relation/table.cpp:111-136 | the rows of one range in the plan's direction, as the storage iterator hands them out |
| `Executors.ScanExecutor.Find` | relation/table.cpp:82-102 | a point lookup finds the row with that key if there is one |
| `Executors.ScanExecutor.Open` | executor/executor.cpp:381-423 | after opening, the rows to come are the scan of the planned ranges; opening again is refused without effect, and only a failing point lookup can make opening fail, with its error kept |
| `Executors.ScanExecutor.OpenPoint` | executor/executor.cpp:397-417 | one point that is not skipped is a single lookup, whose row, or none, is the scan of that point |
| `Executors.ScanExecutor.Next` | executor/executor.cpp:425-467 | each pull yields the next of those rows, skipped keys and range changes not showing, until a storage read fails; that failure is reported then and on every later pull |
| `Executors.FilterExecutor.Next` | executor/executor.cpp:493-521 | each pull yields the next child row whose condition is TRUE, or the child's failure where it occurs |
| `Executors.LimitExecutor.Next` | executor/executor.cpp:634-668 | each pull yields the next row of the page, and the child is never asked for more than OFFSET + LIMIT rows |
| `Executors.SortExecutor.Offer` | executor/executor.cpp:580-592 | the bounded heap always holds the first k rows of the sorted input read so far |
| `Executors.SortExecutor.Replace` | executor/executor.cpp:588-592 | popping the front and pushing the row swaps exactly these two |
| `Executors.SortExecutor.Open` | executor/executor.cpp:535-597 | the buffer ends as the sorted input or its first k rows; unknown columns, an exceeded budget and a failing child end in their own errors |
| `Executors.SortExecutor.Next` | executor/executor.cpp:599-613 | the buffer is handed out row by row |
| `LogStore.ReadAfterAppend` | raft/memory_log_store.h:13-45 | after an append its index answers with the whole entry and every other index as before |
| `LogStore.ReadAfterTruncate` | raft/memory_log_store.h:28-59 | after a cut the answers below it are unchanged and everything from there on is out of range |
| `LogStore.ReadAfterInstall` | raft/memory_log_store.h:28-98 | after installing a snapshot the boundary answers with its term, everything below is compacted, and nothing above changes |
| `LogStore.TakenExactly` | raft/memory_log_store.h:13-59 | in terms of the answers: an append is taken exactly at the first index that is out of range, a cut exactly behind a readable entry or at the start |
| `LogStore.ReadExact` | raft/memory_log_store.h:28-45 | readable are exactly the boundary and the entries behind it, each under its own index |
| `LogStore.MemoryLogStore.Append` | raft/memory_log_store.h:13-26 | the vector store answers an append as the abstract log does, and is that log afterwards |
| `LogStore.MemoryLogStore.At` | raft/memory_log_store.h:28-45 | reads are the abstract log's, for which the read laws above hold |
| `LogStore.MemoryLogStore.TruncateSuffix` | raft/memory_log_store.h:47-59 | likewise for cutting a suffix, with the same refusals |
| `LogStore.MemoryLogStore.DropFront` | raft/memory_log_store.h:87-91 | the erasing loop removes exactly the entries the new boundary covers |
| `LogStore.MemoryLogStore.InstallSnapshot` | raft/memory_log_store.h:80-98 | likewise for moving the boundary forward; one that goes back is stored as it is with all entries kept, which leaves a gap |
| `KeyLogStore.LogKeyOrder` | raft/leveldb_log_store.cpp:46-64 | database order of entry keys is index order |
| `KeyLogStore.HardStateRoundTrip` | raft/leveldb_log_store.cpp:308-369 | a saved term and vote is read back if and only if there is a vote, and is unreadable otherwise |
| `KeyLogStore.ScanLog` | raft/leveldb_log_store.cpp:131-168 | the recovery walk accepts only a gapless log above the boundary, finds its end, and collects exactly the keys below the boundary |
| `KeyLogStore.SuffixKeys` | raft/leveldb_log_store.cpp:273-306 | the iterator meets exactly the entry keys from an index on |
| `KeyLogStore.PrefixKeys` | raft/leveldb_log_store.cpp:388-436 | the iterator meets exactly the entry keys up to an index |
| `KeyLogStore.LevelDBLogStore.Append` | raft/leveldb_log_store.cpp:193-222 | the ordered-key store answers an append as the abstract log does, and its database holds that log afterwards |
| `KeyLogStore.LevelDBLogStore.At` | raft/leveldb_log_store.cpp:224-271 | reads are the abstract log's, for which the read laws above hold, term and data decoded from the stored value |
| `KeyLogStore.LevelDBLogStore.TruncateSuffix` | raft/leveldb_log_store.cpp:273-306 | one batch removes exactly the suffix of the abstract log |
| `KeyLogStore.LevelDBLogStore.InstallSnapshot` | raft/leveldb_log_store.cpp:388-436 | one batch writes the boundary and removes exactly the covered prefix; a boundary that goes back is written with all entries kept |
| `KeyLogStore.LevelDBLogStore.LoadMeta` | raft/leveldb_log_store.cpp:103-129 | the stored boundary is read, or the cached one kept when there is none |
| `KeyLogStore.LevelDBLogStore.Open` | raft/leveldb_log_store.cpp:84-181 | opening a database that holds a log, possibly with stale entries below its boundary, recovers that very log; success always means a gapless one; a refused database is left as it was while the store counts as open, so a retry is refused |
| `KeyLogStore.LevelDBLogStore.Close` | raft/leveldb_log_store.cpp:183-191 | the cached last index is reset and the store can be opened again |
| `OrderedMap.Seek` | raft/leveldb_log_store.cpp:141-144 | an iterator placed at a key goes through all keys from there on in ascending order |
| `KvStore.ApplyByKey` | raft/kv_state_machine.cpp:76-108 | what a batch leaves at a key is decided by the last operation that touches it |
| `KvStore.ApplyIsIdempotent` | raft/kv_state_machine.cpp:76-108 | applying a batch twice is applying it once, range deletes included |
| `StateMachine.KVStateMachine.ApplyOne` | raft/kv_state_machine.cpp:76-108 | applying an entry in place, with a failing batch write or a failing save of the result, is the step whose answers ApplyAnswers.AnswersExact states and whose effect the exactly-once theorems state |
| `StateMachine.KVStateMachine.FindResult` | raft/request_result_store.h:29-44 | a request is new, known with its result, or refused as older than the client's last one |
| `StateMachine.KVStateMachine.SaveResult` | raft/request_result_store.h:46-51 | from then on the request is answered with the saved result, the client's earlier requests are refused and later ones are new, and no other client's answers change |
| `StateMachine.AttemptTracks` | raft/raft_node.cpp:865-892 | one attempt of the apply loop, however it fails, keeps the machine within one retry of the ideal one |
| `StateMachine.RetriesAreHarmless` | raft/raft_node.cpp:865-892 | for every log and every pattern of failures and retries the machine is the ideal one after the entries done, or that plus the batch about to be retried |
| `StateMachine.EachRequestOnce` | raft/kv_state_machine.cpp:76-108 | the store is the fold of the batches with repeats of a client's request counted once, and the records hold each client's latest request |
| `StateMachine.ExactlyOnce` | raft/raft_node.cpp:865-892 | after any pattern of failed writes, failed saves and retries the store is the fold with repeats counted once, at most with the next entry's batch already in it |
| `StateMachine.RecordedRequestsRise` | raft/request_result_store.h:29-51 | a client's recorded request id never falls, and rises strictly whenever its record changes |
| `ApplyAnswers.AnswersExact` | raft/kv_state_machine.cpp:76-108 | every answer from the log alone: an entry without data is a no-op; what is not a payload, or whose client has a later request before it, is refused; a first carrier is applied unless its write or save fails; a repeat is answered as its first carrier was |
| `ApplyAnswers.AcceptedExact` | raft/request_result_store.h:29-44 | once everything before it is accepted, an entry is accepted if and only if it is empty, or carries a request no earlier entry of its client has overtaken |
| `ApplyAnswers.FaultFreeReaches` | raft/raft_node.cpp:865-892 | after any faults, attempts without faults reach the first entry that is not accepted, and there the machine is the one that never met a fault |
| `StateMachine.KVStateMachine.TakeSnapshot` | raft/kv_state_machine.cpp:110-155 | the blob built in a buffer, with the count filled in at the end, is a snapshot of exactly the range |
| `StateMachine.KVStateMachine.RangeKeys` | raft/kv_state_machine.cpp:124-140 | the iteration meets exactly the keys of the range, ascending |
| `StateMachine.KVStateMachine.WritePairs` | raft/kv_state_machine.cpp:130-140 | the loop writes every pair once and counts them |
| `StateMachine.KVStateMachine.ParseBlob` | raft/kv_state_machine.cpp:165-249 | a blob is accepted exactly when header, count and pairs fit it to the last byte |
| `StateMachine.KVStateMachine.RestoreSnapshot` | raft/kv_state_machine.cpp:165-256 | a malformed blob or range leaves the store as it was; otherwise the range is cleared and refilled in one batch |
| `Snapshot.DecodeAfterEncode` | raft/kv_state_machine.cpp:110-249 | every list of pairs survives encoding and decoding |
| `Snapshot.RestoreCopies` | raft/kv_state_machine.cpp:209-256 | clearing a range and putting the source's pairs makes the range equal to the source's and changes nothing outside |
| `Snapshot.RestoredCopies` | raft/kv_state_machine.cpp:165-256 | restoring the blob of one store into another copies the range and nothing else |
| `SnapshotTransfer.SendSnapshot` | raft/raft_node.cpp:726-788 | the chunks cover the blob without gap or overlap, the last one is marked, and an empty blob still gives one |
| `SnapshotTransfer.SentIsGenuine` | raft/raft_node.cpp:726-788 | every chunk sent is the piece of its tagged blob that its offset claims |
| `SnapshotTransfer.SnapshotFollower.HandleChunk` | raft/raft_node.cpp:542-646 | the handler in place, with stale terms, restarts, gaps, overlong buffers and failing installs, is the step the transfer theorems are about |
| `SnapshotTransfer.SnapshotFollower.InstallNow` | raft/raft_node.cpp:610-646 | the store is restored first and the indices move only once the log store took the boundary; a blob that does not parse changes neither |
| `SnapshotTransfer.HandleIsSafe` | raft/raft_node.cpp:542-646 | a genuine chunk keeps the pending buffer a prefix of its blob, and an installation makes the range equal to the sender's at that index, leaves other keys alone and ends with boundary = applied <= commit <= last index |
| `SnapshotTransfer.RunStaysSound` | raft/raft_node.cpp:542-646 | this holds along any sequence of lost, repeated, reordered and interleaved chunks, applied entries and restarts that take up at the boundary |
| `SnapshotTransfer.EveryInstallIsExact` | raft/raft_node.cpp:542-646 | so every installation in any such sequence is exact |
| `SnapshotTransfer.InOrderInstalls` | raft/raft_node.cpp:577-646 | chunks that arrive in order and complete do end in an installation |
| `SnapshotAnswers.CutExactly` | raft/raft_node.cpp:726-788 | every chunk but the last holds exactly 1 MiB and starts where the one before it ended, only the last is marked, together they are the blob, and an empty blob takes one chunk |
| `SnapshotAnswers.ReplyExact` | raft/raft_node.cpp:542-646 | each answer if and only if its reason: refused for an old term, a tag without index or term, one already applied past, or a piece that is not the next; failed for a write, an overlong buffer or a malformed blob; waiting; installed |
| `SnapshotAnswers.StateExact` | raft/raft_node.cpp:542-646 | what each answer leaves behind: the sender's term, the bytes so far while waiting, nothing pending after an error, and unchanged indices unless it installs |
| `SnapshotAnswers.InstalledExact` | raft/raft_node.cpp:610-646 | an installation restores the whole assembled blob, moves the boundary to the tag, and raises applied, commit and last index to it where they are below |
| `SnapshotAnswers.RestoredExactlyWhen` | raft/kv_state_machine.cpp:165-249 | a blob is restored if and only if it is a snapshot and the range is not empty |
| `SnapshotAnswers.TransferCompletes` | raft/raft_node.cpp:542-646 | a follower in any role, of any term up to the sender's and with any half-received snapshot, takes a transfer delivered in order: it installs the whole blob if and only if the blob is a snapshot |
| `SnapshotProgress.StepStaysBacked` | raft/raft_node.cpp:783-787 | raising a peer's match index after sending a snapshot never passes the commit index, so matches above it are real acknowledgements |
| `SnapshotProgress.NewCommitIsConfirmed` | raft/raft_node.cpp:839-853 | a step that raises the commit index has a quorum that really acknowledged it |
| `SnapshotProgress.OptimismIsHarmless` | raft/raft_node.cpp:783-853 | along every run of a leader that sends snapshots, each newly committed index was acknowledged by (n - 1) / 2 + 1 members |
| `SnapshotProgress.SendingMoves` | raft/raft_node.cpp:783-787 | after sending, the peer's match index is the larger of the old one and the applied index, its next index is the one behind the applied, and nothing else has moved |
| `SnapshotProgress.AcknowledgingMoves` | raft/raft_node.cpp:502-507 | an acknowledgement raises match and next of its sender alone |
| `SnapshotProgress.CommitMoves` | raft/raft_node.cpp:839-853 | the commit index goes exactly to the largest index a quorum is taken to hold, if it is new, in the log and of this term |
| `Router.GroupForExact` | raft/group_router.cpp:102-115 | on a valid table a key goes to a data group exactly when that group's range owns it |
| `Router.DefaultGroup` | raft/group_router.cpp:102-142 | system keys go to group 0 on any table, on a valid one exactly the keys no route owns do, and an empty range goes where its start does |
| `Router.ValidTables` | raft/group_router.cpp:55-100 | neighbouring routes are valid in either numbering, while a gap or repeat in the numbers, an overlap or the wrong order is refused |
| `Router.RangeGroupExact` | raft/group_router.cpp:117-142 | a non-empty range is given to a group exactly when every key in it routes there, although the end of the system prefix is never looked at as a boundary |
| `Router.BatchGroupExact` | raft/group_router.cpp:144-163 | a batch is given to a group exactly when it is not empty and every operation lies in that group entirely |
| `Router.GroupRouter.AddRange` | raft/group_router.cpp:48-53 | insertion keeps the table sorted by start and adds exactly that range |
| `Router.GroupRouter.Validate` | raft/group_router.cpp:55-100 | the check accepts exactly the tables that are valid: well-formed, disjoint, distinct groups numbered without holes |
| `Router.GroupRouter.CheckRoutes` | raft/group_router.cpp:57-89 | the loop with its set of seen groups decides the conditions on single ranges and neighbours |
| `Router.GroupRouter.CheckHoles` | raft/group_router.cpp:90-98 | the second loop decides whether the group numbers run from 1 without holes |
| `Router.GroupRouter.Lookup` | raft/group_router.cpp:102-115 | the search loop finds the owner the routing theorems speak of |
| `Router.GroupRouter.RangeOwner` | raft/group_router.cpp:117-142 | the loop over boundaries refuses exactly the ranges a boundary cuts |
| `Router.GroupRouter.BatchOwner` | raft/group_router.cpp:144-163 | the loop stops at the first operation of another group |
| `Wire.Cursor.U64` | raft/message_codec.cpp:48-61 | reading through an advancing offset reads the eight-byte number and leaves the offset behind it, or where it was |
| `Wire.Cursor.U32` | raft/message_codec.cpp:63-76 | likewise for four bytes |
| `Wire.Cursor.U8` | raft/message_codec.cpp:41-46 | likewise for one byte |
| `Wire.Cursor.ByteString` | raft/message_codec.cpp:78-90 | a length and as many bytes, or failure when they are not all there |
| `Wire.PutBytesRead` | raft/message_codec.cpp:26-90 | a written byte string is read back whatever follows it |
| `Wire.ReadBytesPut` | raft/message_codec.cpp:26-90 | a byte string that is read is the image of what was read |
| `MessageCodec.DecodeAfterEncode` | raft/message_codec.cpp:111-317 | decoding gives back group and message for all six kinds of message |
| `MessageCodec.EncodeAfterDecode` | raft/message_codec.cpp:174-317 | every accepted payload is the encoding of what it decodes to, so there is one image per message |
| `MessageReader.DecodeMessage` | raft/message_codec.cpp:174-317 | the reader that advances an offset accepts and yields exactly what the format defines |
| `MessageReader.Entries` | raft/message_codec.cpp:252-265 | the loop over entries reads as many as announced or fails |
| `MessageReader.PutEntries` | raft/message_codec.cpp:111-172 | the loop appends every entry's image in order |
| `WireBytes.MessageHeaders` | raft/message_codec.cpp:111-172 | the first ten bytes of each kind of message: version 3, the group, and kinds 1 to 6 |
| `WireBytes.MessageFields` | raft/message_codec.cpp:119-170 | the fields of votes and answers in the order of the wire |
| `WireBytes.RequestFields` | raft/message_codec.cpp:129-166 | the fields of append and snapshot requests in the order of the wire, entries and data with their lengths |
| `WireBytes.KeysAndFrames` | raft/leveldb_log_store.cpp:46-64 | an entry's database key is "log/" and its index, its value the term and the data; a frame is a 32-bit length and the payload |
| `WireBytes.SnapshotBytes` | raft/kv_state_machine.cpp:110-155 | a snapshot is "SQSN", version 1, the number of pairs and each pair with its lengths |
| `WireBytes.PayloadBytes` | raft/proposal_payload.cpp:98-131 | a payload is "SQRA", version 1, client, request, the number of operations and four fields for each |
| `WireBytes.KeyBytes` | sql_types/key.h:69-83 | a stored key byte by byte: family, null flag, sign-flipped number, escaped text or one byte for a boolean |
| `Framing.FrameRoundTrip` | raft/message_codec.cpp:323-384 | a complete frame pops its payload and leaves what follows |
| `Framing.PopGenuine` | raft/message_codec.cpp:353-384 | what has arrived of a stream of frames never pops anything but the next payload, and is incomplete only while bytes are missing |
| `Framing.FrameDecoder.Append` | raft/message_codec.h:66-82 | bytes join the pending ones, behind those already consumed |
| `Framing.FrameDecoder.Next` | raft/message_codec.cpp:353-384 | popping in place, with lazy compaction of the buffer, is the pop the theorems are about |
| `Framing.Receive` | raft/message_codec.cpp:353-384 | for every list of payloads within the limit and every way of cutting their frames into chunks, the decoder yields exactly those payloads in order |
| `ProposalPayload.DecodeAfterEncode` | raft/proposal_payload.cpp:98-236 | every well-formed payload survives encoding and decoding |
| `ProposalPayload.EncodeAfterDecode` | raft/proposal_payload.cpp:98-236 | accepted bytes are the encoding of their result if and only if every operation in them leaves the fields its kind does not use empty |
| `ProposalPayload.EncodePayload` | raft/proposal_payload.cpp:98-131 | the buffer the encoder fills is the image the decoder inverts |
| `ProposalPayload.PutOps` | raft/proposal_payload.cpp:107-128 | the loop appends every operation's image in order |
| `ProposalPayload.UnusedFieldsAreDropped` | raft/proposal_payload.cpp:133-236 | a whole payload whose removal also carries a value is accepted and decodes to the plain removal, whose encoding is different |
| `ProposalPayload.DecodePayload` | raft/proposal_payload.cpp:133-236 | the reader class in place accepts and yields exactly what the format defines |
| `ProposalPayload.Ops` | raft/proposal_payload.cpp:174-229 | the loop grows the batch operation by operation, as many as announced |
| `ProposalPayload.OneOp` | raft/proposal_payload.cpp:175-228 | one operation with its kind, key, value and range end |

## Left out

- Cluster-wide safety with log compaction on: `RaftCluster` has compaction off, which is the default; snapshot transfer and progress are proved separately for one follower and one leader.
- Liveness, elections that make progress and followers that catch up: a batch that holds an entry of an earlier term is refused without an answer, so beyond the answers of single steps and one working run (`RaftWitness`) only safety is claimed.
- Clocks, randomised deadlines, sockets, event loops, threads and completion objects: whether a timer is due is a parameter, and the network is the set of packets ever sent.
- Reads from the log store that fail inside a Raft handler, `last_error`, and the counters that time applying: only failed writes and a state machine that stops are modelled.
- Wrap-around of terms, indices and rounds in the Raft model: they are unbounded naturals; the formats and log stores use 64-bit words.
- RaftNode.RaftNode.Start: does not model the snapshot boundary read at start, because compaction is off in the cluster model; `SnapshotTransfer` has the restart at a boundary.
- RaftNode.RaftNode.HandleMessage: does not dispatch the two snapshot messages, for the same reason; `SnapshotTransfer` and `SnapshotProgress` are about them.
- RewriterMeaning.RewriteMeaning: preserves meaning only for trees that simplification leaves clean; over whole trees the converse is false (`RewriterLimits.HiddenChange`), so the exact statement is made node by node in `RewriterExact`.
- RewriterExact.SimplifyExact: needs leaves that can be chosen independently of the operands that stay; without that the question is logical implication between arbitrary comparisons.
- PlanExact.OptimizeExact: needs clean rewrites and key literals of the key column's type, for the two reasons given above.
- PlanTight.OptimizeTight: needs the same.
- SelectExact.SelectIsExact: covers a table with one primary key and at most 2^64 - 1 rows; projection, tables without a primary key, and UPDATE and DELETE plans are not part of it.
- MistypedLiterals.TextKeyExact: its condition is on the parser of numbers, which is a parameter here.
- Integer widths and kinds of string type: a value carries none, so one constructor stands for each family.
- Parsing numbers and dates out of text, and LIKE matching: they are parameters (`Reader`), and every theorem holds for any of them.
- Floating-point cost values: replaced by an arbitrary choice between the range plan and the full scan.
- Executors.SortExecutor.SortBuffer: `std::sort` is one insertion sort here; `RowOrder.OrderIsUnique` shows that no algorithm could give another order, since the primary key breaks ties.
- RowHeap.PushHeap: the library's heap routines are modelled by the usual sift-up and sift-down on a sequence.
- Executors.ScanExecutor.FindRange: an iterator that cannot be opened is not an outcome of its own; it shows as the first failing read of `Executors.ScanExecutor.Next`.
- Executors.ScanExecutor.Find: a failing lookup is an outcome of `Executors.ScanExecutor.OpenPoint`; rows that do not decode are not modelled.
- Operators that are closed, a scan without a table, and the wording of error reports.
- What the log stores answer after a boundary went back: the callers never do that, and the stores then differ from any log.
- KeyLogStore.LevelDBLogStore.Open: requires that the database holds only this store's keys and no entry with index 0; failures of the database itself are not modelled.
- Request results in snapshots, and replay after a restart: a result store survives on its own in the source, and an older request id is refused on replay.
- Database and storage engine internals: an ordered map with atomic batches stands for them.
- Snapshot ranges that run backwards, `parse_shards`, `FrameDecoder::clear`, decoding of a frame given as a whole, and the transactions of the replicated engine.
- The SQL grammar, the catalogue, data definition, configuration, logging, the server protocol and the user interface.
