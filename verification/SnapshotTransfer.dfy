/**
 Sending a snapshot in chunks and installing it. Chunks may be lost, duplicated,
 reordered or interleaved with those of other transfers; as long as equal tags
 mean equal blobs, whatever a follower installs is the whole tagged snapshot.
 */
module SnapshotTransfer {
  import opened Wrappers
  import opened Bytes
  import opened KeyCodec
  import opened KvStore
  import opened Snapshot
  import SM = StateMachine

  const CHUNK_BYTES: nat := 0x10_0000
  const MAX_PENDING_BYTES: nat := 0x4000_0000

  // The last entry a snapshot covers.
  datatype Tag = Tag(index: Word, term: Word)

  datatype Chunk = Chunk(term: Word, tag: Tag, offset: nat, done: bool, data: Bytes)

  // ------------------------------------------------------------------- sending

  function Min(a: nat, b: nat): nat {
    if a < b then a else b
  }

  function ChunksFrom(blob: Bytes, term: Word, tag: Tag, offset: nat): seq<Chunk>
    requires offset <= |blob|
    decreases |blob| - offset
  {
    if offset == |blob| then []
    else
      var take := Min(CHUNK_BYTES, |blob| - offset);
      [Chunk(term, tag, offset, offset + take == |blob|, blob[offset..offset + take])] +
      ChunksFrom(blob, term, tag, offset + take)
  }

  // An empty blob still needs one frame.
  function Chunks(blob: Bytes, term: Word, tag: Tag): seq<Chunk> {
    if blob == [] then [Chunk(term, tag, 0, true, [])] else ChunksFrom(blob, term, tag, 0)
  }

  method SendSnapshot(blob: Bytes, term: Word, tag: Tag) returns (sent: seq<Chunk>)
    ensures sent == Chunks(blob, term, tag)
  {
    sent := [];
    var offset := 0;
    while offset < |blob|
      invariant 0 <= offset <= |blob|
      invariant sent + ChunksFrom(blob, term, tag, offset) == ChunksFrom(blob, term, tag, 0)
    {
      var take := Min(CHUNK_BYTES, |blob| - offset);
      sent := sent + [Chunk(term, tag, offset, offset + take == |blob|, blob[offset..offset + take])];
      offset := offset + take;
    }
    if blob == [] {
      sent := sent + [Chunk(term, tag, 0, true, [])];
    }
  }

  // A chunk cut from the blob its tag stands for.
  ghost predicate Genuine(blobs: Tag -> Bytes, c: Chunk) {
    var blob := blobs(c.tag);
    && c.offset + |c.data| <= |blob| && c.data == blob[c.offset..c.offset + |c.data|]
    && (c.done <==> c.offset + |c.data| == |blob|)
  }

  lemma {:induction false} ChunksFromGenuine(blobs: Tag -> Bytes, term: Word, tag: Tag, offset: nat, i: nat)
    requires offset <= |blobs(tag)| && i < |ChunksFrom(blobs(tag), term, tag, offset)|
    ensures Genuine(blobs, ChunksFrom(blobs(tag), term, tag, offset)[i])
    decreases |blobs(tag)| - offset
  {
    if i > 0 {
      ChunksFromGenuine(blobs, term, tag, offset + Min(CHUNK_BYTES, |blobs(tag)| - offset), i - 1);
    }
  }

  /** Everything a leader sends is genuine. */
  lemma SentIsGenuine(blobs: Tag -> Bytes, term: Word, tag: Tag, i: nat)
    requires i < |Chunks(blobs(tag), term, tag)|
    ensures Genuine(blobs, Chunks(blobs(tag), term, tag)[i])
  {
    if blobs(tag) != [] {
      ChunksFromGenuine(blobs, term, tag, 0, i);
    }
  }

  // ----------------------------------------------------------------- receiving

  datatype Pending = Pending(tag: Tag, buffer: Bytes)

  datatype Follower = Follower(
    term: Word, isFollower: bool, applied: nat, commit: nat, lastLog: nat, boundary: Tag,
    pending: Option<Pending>, kv: Store)

  datatype Range = Range(start: Bytes, end: Option<Bytes>)

  // The two log store writes of the handler that may fail.
  datatype Faults = Faults(hardState: bool, install: bool)

  datatype Reply = Rejected | Waiting | Installed | Errored

  function Max(a: nat, b: nat): nat {
    if a < b then b else a
  }

  // After the term check: assemble, and install on the last chunk.
  function Assemble(f: Follower, range: Range, c: Chunk, fresh_: bool, installFails: bool): (Follower, Reply) {
    var p := if fresh_ || f.pending.None? then Pending(c.tag, []) else f.pending.value;
    if p.tag != c.tag || c.offset != |p.buffer| then (f.(pending := None), Rejected)
    else
      var buffer := p.buffer + c.data;
      if |buffer| > MAX_PENDING_BYTES then (f.(pending := None), Errored)
      else if !c.done then (f.(pending := Some(Pending(c.tag, buffer))), Waiting)
      else Install(f, range, c.tag, buffer, installFails)
  }

  // The data first, then the log boundary: a crash in between replays entries.
  function Install(f: Follower, range: Range, tag: Tag, buffer: Bytes, installFails: bool): (Follower, Reply) {
    match Restored(f.kv, range.start, range.end, buffer)
    case None => (f.(pending := None), Errored)
    case Some(kv) =>
      var g := f.(kv := kv, pending := None);
      if installFails then (g, Errored)
      else
        (g.(boundary := tag, lastLog := Max(f.lastLog, tag.index),
            applied := Max(f.applied, tag.index), commit := Max(f.commit, tag.index)), Installed)
  }

  // The handler after the term check.
  function Receive(f: Follower, range: Range, c: Chunk, termChanged: bool, installFails: bool): (Follower, Reply) {
    if c.tag.index == 0 || c.tag.term == 0 then (f, Rejected)
    else if c.tag.index < f.applied then (f, Rejected)
    else Assemble(f, range, c, c.offset == 0 || termChanged, installFails)
  }

  function Handle(f: Follower, range: Range, c: Chunk, faults: Faults): (Follower, Reply) {
    if c.term < f.term then (f, Rejected)
    else if c.term > f.term && faults.hardState then (f, Errored)
    else
      var g := if c.term > f.term || !f.isFollower then f.(term := c.term, isFollower := true, pending := None) else f;
      Receive(g, range, c, c.term > f.term, faults.install)
  }

  class SnapshotFollower {
    var term: Word
    var isFollower: bool
    var applied: nat
    var commit: nat
    var lastLog: nat
    var boundary: Tag
    var pending: Option<Pending>
    const machine: SM.KVStateMachine
    const range: Range

    constructor (f: Follower, range: Range, machine: SM.KVStateMachine)
      requires machine.kv == f.kv
      ensures this.range == range && this.machine == machine && View() == f
    {
      term, isFollower, applied, commit, lastLog := f.term, f.isFollower, f.applied, f.commit, f.lastLog;
      boundary, pending := f.boundary, f.pending;
      this.machine := machine;
      this.range := range;
    }

    ghost function View(): Follower
      reads this, machine
    {
      Follower(term, isFollower, applied, commit, lastLog, boundary, pending, machine.kv)
    }

    method InstallNow(tag: Tag, buffer: Bytes, installFails: bool) returns (r: Reply)
      modifies this, machine`kv
      ensures (View(), r) == Install(old(View()), range, tag, buffer, installFails)
    {
      hide DecodeSnapshot;
      var ok := machine.RestoreSnapshot(Some(range.start), range.end, buffer);
      pending := None;
      if !ok || installFails {
        return Errored;
      }
      boundary := tag;
      lastLog := Max(lastLog, tag.index);
      if applied < tag.index {
        applied := tag.index;
      }
      if commit < tag.index {
        commit := tag.index;
      }
      return Installed;
    }

    /** handle_install_snapshot, step for step. */
    method HandleChunk(c: Chunk, faults: Faults) returns (r: Reply)
      modifies this, machine`kv
      ensures (View(), r) == Handle(old(View()), range, c, faults)
    {
      hide Install;
      if c.term < term {
        return Rejected;
      }
      var termChanged := c.term > term;
      if termChanged || !isFollower {
        if termChanged && faults.hardState {
          return Errored;
        }
        term, isFollower, pending := c.term, true, None;
      }
      if c.tag.index == 0 || c.tag.term == 0 || c.tag.index < applied {
        return Rejected;
      }
      if c.offset == 0 || termChanged || pending.None? {
        pending := Some(Pending(c.tag, []));
      }
      if pending.value.tag != c.tag || c.offset != |pending.value.buffer| {
        pending := None;
        return Rejected;
      }
      var buffer := pending.value.buffer + c.data;
      pending := Some(Pending(c.tag, buffer));
      if |buffer| > MAX_PENDING_BYTES {
        pending := None;
        return Errored;
      }
      if !c.done {
        return Waiting;
      }
      ghost var before := View();
      r := InstallNow(c.tag, buffer, faults.install);
      PendingIrrelevant(before, range, c.tag, buffer, faults.install);
    }
  }

  // Installing drops the pending buffer, whatever it was.
  lemma PendingIrrelevant(f: Follower, range: Range, tag: Tag, buffer: Bytes, installFails: bool)
    ensures forall p :: Install(f.(pending := p), range, tag, buffer, installFails) ==
                        Install(f, range, tag, buffer, installFails)
  {
  }

  // ------------------------------------------------------------------- safety

  // Whatever has been assembled is a prefix of the tagged blob, and the
  // indices are in order.
  ghost predicate Sound(blobs: Tag -> Bytes, f: Follower) {
    && (f.pending.Some? ==>
          var p := f.pending.value; |p.buffer| <= |blobs(p.tag)| && p.buffer == blobs(p.tag)[..|p.buffer|])
    && f.boundary.index <= f.applied <= f.commit <= f.lastLog
  }

  lemma AssembleSound(blobs: Tag -> Bytes, f: Follower, range: Range, c: Chunk, fresh_: bool, installFails: bool)
    requires Sound(blobs, f) && Genuine(blobs, c) && c.tag.index >= f.applied
    ensures var r := Assemble(f, range, c, fresh_, installFails);
            && Sound(blobs, r.0)
            && (r.1.Installed? ==> r == Install(f, range, c.tag, blobs(c.tag), installFails))
  {
    hide Restored;
    var p := if fresh_ || f.pending.None? then Pending(c.tag, []) else f.pending.value;
    if p.tag == c.tag && c.offset == |p.buffer| {
      var blob := blobs(c.tag);
      var buffer := p.buffer + c.data;
      assert buffer == blob[..|buffer|];
      if c.done {
        assert buffer == blob;
      }
    }
  }

  // What installing tag `l` from a store `src` must achieve.
  ghost predicate InstallsExactly(before: Follower, after: Follower, range: Range, l: Tag, src: Store) {
    && SameInside(after.kv, src, range.start, range.end)
    && SameOutside(after.kv, before.kv, range.start, range.end)
    && after.boundary == l && after.applied == l.index && after.pending == None
    && after.commit == (if before.commit < l.index then l.index else before.commit)
    && after.lastLog == (if before.lastLog < l.index then l.index else before.lastLog)
    && after.commit <= after.lastLog
  }

  /**
   One message: the follower stays sound, and if it installs, its range is the
   sender's at that tag and everything else is as it was.
   */
  lemma HandleIsSafe(blobs: Tag -> Bytes, f: Follower, range: Range, c: Chunk, faults: Faults, src: Store)
    requires Sound(blobs, f) && Genuine(blobs, c) && GoodRange(range.start, range.end)
    requires IsSnapshotOf(blobs(c.tag), src, range.start, range.end)
    ensures var r := Handle(f, range, c, faults);
            Sound(blobs, r.0) && (r.1.Installed? ==> InstallsExactly(f, r.0, range, c.tag, src))
  {
    hide Assemble, Restored, IsSnapshotOf, SameInside, SameOutside;
    RestoredCopies(f.kv, src, range.start, range.end, blobs(c.tag));
    if c.term >= f.term && !(c.term > f.term && faults.hardState) {
      var g := if c.term > f.term || !f.isFollower then f.(term := c.term, isFollower := true, pending := None) else f;
      if !(c.tag.index == 0 || c.tag.term == 0) && c.tag.index >= g.applied {
        AssembleSound(blobs, g, range, c, c.offset == 0 || c.term > f.term, faults.install);
      }
    }
  }

  // ---------------------------------------------------------------- whole runs

  // Besides chunks a follower applies entries, drops a half-received snapshot,
  // or restarts: a new process over the same stores takes up at the boundary.
  datatype Event =
    | Arrive(chunk: Chunk, faults: Faults)
    | Advance(kv: Store, applied: nat, commit: nat, lastLog: nat)
    | Drop
    | Reboot

  // Term, key-value store, log and its boundary survive.
  function Restart(f: Follower): Follower {
    f.(isFollower := true, applied := f.boundary.index, commit := f.boundary.index, pending := None)
  }

  function Step(f: Follower, range: Range, e: Event): Follower {
    match e
    case Arrive(c, faults) => Handle(f, range, c, faults).0
    case Advance(kv, applied, commit, lastLog) => f.(kv := kv, applied := applied, commit := commit, lastLog := lastLog)
    case Drop => f.(pending := None)
    case Reboot => Restart(f)
  }

  // Chunks are genuine, and applying entries moves indices forward in order.
  ghost predicate Possible(blobs: Tag -> Bytes, f: Follower, e: Event) {
    match e
    case Arrive(c, _) => Genuine(blobs, c)
    case Advance(_, applied, commit, lastLog) => f.applied <= applied <= commit <= lastLog
    case Drop => true
    case Reboot => true
  }

  function Play(f: Follower, range: Range, es: seq<Event>): Follower {
    if es == [] then f else Step(Play(f, range, es[..|es| - 1]), range, es[|es| - 1])
  }

  ghost predicate IsRun(blobs: Tag -> Bytes, f: Follower, range: Range, es: seq<Event>) {
    forall i :: 0 <= i < |es| ==> Possible(blobs, Play(f, range, es[..i]), es[i])
  }

  // Every tag's blob is the snapshot of some store.
  ghost predicate Taken(blobs: Tag -> Bytes, stores: Tag -> Store, range: Range) {
    forall l: Tag :: IsSnapshotOf(blobs(l), stores(l), range.start, range.end)
  }

  lemma {:induction false} RunStaysSound(blobs: Tag -> Bytes, stores: Tag -> Store, f: Follower, range: Range,
                                         es: seq<Event>, n: nat)
    requires Sound(blobs, f) && GoodRange(range.start, range.end) && Taken(blobs, stores, range)
    requires IsRun(blobs, f, range, es) && n <= |es|
    ensures Sound(blobs, Play(f, range, es[..n]))
  {
    hide Possible, Sound, IsSnapshotOf;
    if n > 0 {
      RunStaysSound(blobs, stores, f, range, es, n - 1);
      var g, e := Play(f, range, es[..n - 1]), es[n - 1];
      assert es[..n][..n - 1] == es[..n - 1] && es[..n][n - 1] == e;
      assert Possible(blobs, g, e);
      StepIsSound(blobs, stores, g, range, e);
    }
  }

  lemma StepIsSound(blobs: Tag -> Bytes, stores: Tag -> Store, f: Follower, range: Range, e: Event)
    requires Sound(blobs, f) && GoodRange(range.start, range.end) && Taken(blobs, stores, range)
    requires Possible(blobs, f, e)
    ensures Sound(blobs, Step(f, range, e))
  {
    hide Handle, IsSnapshotOf, Genuine;
    if e.Arrive? {
      HandleIsSafe(blobs, f, range, e.chunk, e.faults, stores(e.chunk.tag));
    }
  }

  /**
   Snapshot transfer end to end: in every run, whenever a follower installs, its
   key range equals the sender's at the tag, the other keys are unchanged, and
   the boundary is the applied index, not past the commit and last indices.
   */
  lemma EveryInstallIsExact(blobs: Tag -> Bytes, stores: Tag -> Store, f: Follower, range: Range,
                            es: seq<Event>, n: nat)
    requires Sound(blobs, f) && GoodRange(range.start, range.end) && Taken(blobs, stores, range)
    requires IsRun(blobs, f, range, es) && n < |es| && es[n].Arrive?
    requires Handle(Play(f, range, es[..n]), range, es[n].chunk, es[n].faults).1.Installed?
    ensures InstallsExactly(Play(f, range, es[..n]), Play(f, range, es[..n + 1]), range,
                            es[n].chunk.tag, stores(es[n].chunk.tag))
  {
    hide Handle, IsSnapshotOf, InstallsExactly;
    RunStaysSound(blobs, stores, f, range, es, n);
    var g, e := Play(f, range, es[..n]), es[n];
    assert es[..n + 1][..n] == es[..n] && es[..n + 1][n] == e;
    assert Possible(blobs, g, e);
    HandleIsSafe(blobs, g, range, e.chunk, e.faults, stores(e.chunk.tag));
  }

  // -------------------------------------------------- undisturbed transfers end

  function Deliver(f: Follower, range: Range, cs: seq<Chunk>): (Follower, Reply)
    decreases |cs|
  {
    if cs == [] then (f, Waiting)
    else
      var r := Handle(f, range, cs[0], Faults(false, false));
      if |cs| == 1 then r else Deliver(r.0, range, cs[1..])
  }

  // A follower that may take this transfer from the current offset on.
  predicate InTouch(f: Follower, blob: Bytes, term: Word, tag: Tag, offset: nat) {
    && f.term == term && f.isFollower && f.applied <= tag.index && tag.index > 0 && tag.term > 0
    && |blob| <= MAX_PENDING_BYTES && offset <= |blob|
    && (offset > 0 ==> f.pending == Some(Pending(tag, blob[..offset])))
  }

  /** Chunks delivered in order, none missing, end in an installation of the whole blob. */
  lemma {:induction false} InOrderInstalls(f: Follower, range: Range, blob: Bytes, term: Word, tag: Tag, offset: nat)
    requires InTouch(f, blob, term, tag, offset) && offset < |blob|
    ensures Deliver(f, range, ChunksFrom(blob, term, tag, offset)) ==
            Install(f, range, tag, blob, false)
    ensures Install(f, range, tag, blob, false).1.Installed? <==> Restored(f.kv, range.start, range.end, blob).Some?
    decreases |blob| - offset
  {
    hide Restored;
    var take := Min(CHUNK_BYTES, |blob| - offset);
    var cs := ChunksFrom(blob, term, tag, offset);
    var c := cs[0];
    var r := Handle(f, range, c, Faults(false, false));
    assert blob[..offset] + c.data == blob[..offset + take];
    if offset + take == |blob| {
      assert blob[..offset + take] == blob;
      assert cs == [c];
    } else {
      var g := f.(pending := Some(Pending(tag, blob[..offset + take])));
      assert r == (g, Waiting);
      assert cs[1..] == ChunksFrom(blob, term, tag, offset + take);
      InOrderInstalls(g, range, blob, term, tag, offset + take);
      PendingIrrelevant(f, range, tag, blob, false);
    }
  }

}
