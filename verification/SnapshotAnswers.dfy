/**
 The answers of a snapshot transfer: how a blob is cut, what becomes of every
 chunk, and that a follower in any state takes a whole transfer.
 */
module SnapshotAnswers {
  import opened Wrappers
  import opened Bytes
  import opened KeyCodec
  import opened KvStore
  import opened Snapshot
  import opened SnapshotTransfer

  // ------------------------------------------------------------------ cutting

  function Joined(cs: seq<Chunk>): Bytes {
    if cs == [] then [] else cs[0].data + Joined(cs[1..])
  }

  // Each chunk starts where the one before it ended, all but the last are full,
  // and only the last says that it is the last.
  ghost predicate WellCut(cs: seq<Chunk>, term: Word, tag: Tag, from: nat) {
    && (forall i :: 0 <= i < |cs| ==> cs[i].term == term && cs[i].tag == tag && cs[i].offset == from + i * CHUNK_BYTES)
    && (forall i :: 0 <= i < |cs| - 1 ==> |cs[i].data| == CHUNK_BYTES && !cs[i].done)
    && (cs != [] ==> cs[|cs| - 1].done && |cs[|cs| - 1].data| <= CHUNK_BYTES)
  }

  lemma {:induction false} CutFrom(blob: Bytes, term: Word, tag: Tag, offset: nat)
    requires offset <= |blob|
    ensures var cs := ChunksFrom(blob, term, tag, offset);
            && WellCut(cs, term, tag, offset) && Joined(cs) == blob[offset..]
            && (forall i :: 0 <= i < |cs| ==> cs[i].data != []) && (cs == [] <==> offset == |blob|)
    decreases |blob| - offset
  {
    if offset < |blob| {
      var take := Min(CHUNK_BYTES, |blob| - offset);
      var c, rest := CutOne(blob, term, tag, offset, take);
      CutFrom(blob, term, tag, offset + take);
      hide ChunksFrom, WellCut, Joined;
      WellCutCons(c, rest, term, tag, offset);
      JoinedCons(c, rest);
      assert blob[offset..] == blob[offset..offset + take] + blob[offset + take..];
    }
  }

  lemma CutOne(blob: Bytes, term: Word, tag: Tag, offset: nat, take: nat) returns (c: Chunk, rest: seq<Chunk>)
    requires offset < |blob| && take == Min(CHUNK_BYTES, |blob| - offset)
    ensures c == Chunk(term, tag, offset, offset + take == |blob|, blob[offset..offset + take])
    ensures rest == ChunksFrom(blob, term, tag, offset + take)
    ensures ChunksFrom(blob, term, tag, offset) == [c] + rest
  {
    c := Chunk(term, tag, offset, offset + take == |blob|, blob[offset..offset + take]);
    rest := ChunksFrom(blob, term, tag, offset + take);
  }

  lemma JoinedCons(c: Chunk, rest: seq<Chunk>)
    ensures Joined([c] + rest) == c.data + Joined(rest)
  {
    assert ([c] + rest)[1..] == rest;
  }

  lemma WellCutCons(c: Chunk, rest: seq<Chunk>, term: Word, tag: Tag, offset: nat)
    requires c.term == term && c.tag == tag && c.offset == offset && |c.data| <= CHUNK_BYTES
    requires c.done <==> rest == []
    requires rest != [] ==> |c.data| == CHUNK_BYTES
    requires WellCut(rest, term, tag, offset + |c.data|)
    ensures WellCut([c] + rest, term, tag, offset)
  {
    var cs := [c] + rest;
    forall i | 0 <= i < |cs|
      ensures cs[i].term == term && cs[i].tag == tag && cs[i].offset == offset + i * CHUNK_BYTES
      ensures i < |cs| - 1 ==> |cs[i].data| == CHUNK_BYTES && !cs[i].done
    {
      if i > 0 { assert cs[i] == rest[i - 1]; }
    }
  }

  /** The chunks put together are the blob; an empty blob still takes one chunk, others no empty ones. */
  lemma CutExactly(blob: Bytes, term: Word, tag: Tag)
    ensures var cs := Chunks(blob, term, tag);
            && cs != [] && WellCut(cs, term, tag, 0) && Joined(cs) == blob
            && (blob != [] ==> forall i :: 0 <= i < |cs| ==> cs[i].data != [])
  {
    if blob == [] {
      assert Joined([Chunk(term, tag, 0, true, [])][1..]) == [];
    } else {
      CutFrom(blob, term, tag, 0);
      assert blob[0..] == blob;
    }
  }

  // -------------------------------------------------------------- every chunk

  // The transfer goes on: the buffer it goes on from is still there.
  predicate Continues(f: Follower, c: Chunk) {
    c.offset > 0 && c.term == f.term && f.isFollower && f.pending.Some?
  }

  function Held(f: Follower, c: Chunk): Bytes {
    if Continues(f, c) then f.pending.value.buffer else []
  }

  predicate Admitted(f: Follower, c: Chunk, faults: Faults) {
    c.term == f.term || (c.term > f.term && !faults.hardState)
  }

  // It names a snapshot the follower has not applied past, and is the next piece of it.
  predicate NextPiece(f: Follower, c: Chunk) {
    && c.tag.index > 0 && c.tag.term > 0 && c.tag.index >= f.applied
    && c.offset == |Held(f, c)| && (Continues(f, c) ==> f.pending.value.tag == c.tag)
  }

  predicate TooMuch(f: Follower, c: Chunk) {
    |Held(f, c)| + |c.data| > MAX_PENDING_BYTES
  }

  /**
   Every answer by request and state: refused are old terms and pieces that are
   not next; the whole goes wrong when a write fails, the buffer outgrows its
   bound or the blob is malformed; it waits for more or it is installed.
   */
  lemma ReplyExact(f: Follower, range: Range, c: Chunk, faults: Faults)
    ensures var r := Handle(f, range, c, faults).1;
            var taken := Admitted(f, c, faults) && NextPiece(f, c);
            var restores := Restored(f.kv, range.start, range.end, Held(f, c) + c.data).Some?;
            && (r.Rejected? <==> c.term < f.term || (Admitted(f, c, faults) && !NextPiece(f, c)))
            && (r.Waiting? <==> taken && !TooMuch(f, c) && !c.done)
            && (r.Installed? <==> taken && !TooMuch(f, c) && c.done && restores && !faults.install)
            && (r.Errored? <==> (c.term > f.term && faults.hardState) ||
                                (taken && (TooMuch(f, c) || (c.done && (!restores || faults.install)))))
  {
    hide Restored;
  }

  /** What is left behind: the bytes so far while waiting, nothing pending otherwise, and the higher term. */
  lemma StateExact(f: Follower, range: Range, c: Chunk, faults: Faults)
    ensures var (f', r) := Handle(f, range, c, faults);
            && f'.term == (if Admitted(f, c, faults) then c.term else f.term)
            && (Admitted(f, c, faults) ==> f'.isFollower) && (!Admitted(f, c, faults) ==> f' == f)
            && (r.Waiting? ==> f'.pending == Some(Pending(c.tag, Held(f, c) + c.data)))
            && (r.Installed? || (r.Errored? && Admitted(f, c, faults)) ==> f'.pending == None)
            && (!r.Installed? ==> f'.applied == f.applied && f'.commit == f.commit && f'.lastLog == f.lastLog
                                  && f'.boundary == f.boundary)
            && (r.Rejected? || r.Waiting? ==> f'.kv == f.kv)
  {
    hide Restored;
  }

  /** An installation restores the whole blob, moves the boundary to the tag and no index back. */
  lemma InstalledExact(f: Follower, range: Range, c: Chunk, faults: Faults)
    requires Handle(f, range, c, faults).1.Installed?
    ensures var f' := Handle(f, range, c, faults).0;
            && Some(f'.kv) == Restored(f.kv, range.start, range.end, Held(f, c) + c.data)
            && f'.boundary == c.tag && f'.applied == c.tag.index
            && f'.commit == (if f.commit < c.tag.index then c.tag.index else f.commit)
            && f'.lastLog == (if f.lastLog < c.tag.index then c.tag.index else f.lastLog)
  {
    hide Restored;
  }

  /** A blob is restored exactly when it is a snapshot and the range is not empty. */
  lemma RestoredExactlyWhen(kv: Store, range: Range, blob: Bytes)
    ensures Restored(kv, range.start, range.end, blob).Some? <==>
            DecodeSnapshot(blob).Some? && (range.end.Some? ==> Less(range.start, range.end.value))
  {
    hide DecodeSnapshot;
  }

  // ----------------------------------------------------------- whole transfers

  // The follower once it has taken the sender's term.
  function Joins(f: Follower, term: Word): Follower {
    f.(term := term, isFollower := true)
  }

  /**
   Chunks delivered in order to a follower in any role, of any term up to the
   sender's and with any half-received snapshot, end in the installation of the
   whole blob, or in an error when the blob is not a snapshot.
   */
  lemma TransferCompletes(f: Follower, range: Range, blob: Bytes, term: Word, tag: Tag)
    requires f.term <= term && f.applied <= tag.index && tag.index > 0 && tag.term > 0 && |blob| <= MAX_PENDING_BYTES
    ensures Deliver(f, range, Chunks(blob, term, tag)) == Install(Joins(f, term), range, tag, blob, false)
    ensures Deliver(f, range, Chunks(blob, term, tag)).1.Installed? <==> Restored(f.kv, range.start, range.end, blob).Some?
  {
    hide Restored;
    var g := Joins(f, term).(pending := None);
    var cs := Chunks(blob, term, tag);
    PendingIrrelevant(Joins(f, term), range, tag, blob, false);
    if blob == [] {
      assert cs == [Chunk(term, tag, 0, true, [])];
      assert Deliver(f, range, cs) == Handle(f, range, cs[0], Faults(false, false));
    } else {
      CutFrom(blob, term, tag, 0);
      InOrderInstalls(g, range, blob, term, tag, 0);
      SameDelivery(f, g, range, cs, term);
    }
  }

  lemma SameDelivery(f: Follower, g: Follower, range: Range, cs: seq<Chunk>, term: Word)
    requires f.term <= term && g == Joins(f, term).(pending := None) && cs != [] && cs[0].term == term && cs[0].offset == 0
    requires cs[0].tag.index > 0 && cs[0].tag.term > 0 && cs[0].tag.index >= f.applied
    ensures Deliver(f, range, cs) == Deliver(g, range, cs)
  {
    hide Restored;
    assert Handle(f, range, cs[0], Faults(false, false)) == Handle(g, range, cs[0], Faults(false, false));
  }
}
