/**
 The Raft log with a compacted prefix, as both stores present it: a boundary
 (the last entry covered by a snapshot, and its term) and the entries behind it.
 */
module LogStore {
  import opened Wrappers
  import opened Bytes
  import opened KeyCodec

  datatype LogEntry = LogEntry(index: Word, term: Word, data: Bytes)

  datatype SnapshotMeta = SnapshotMeta(index: Word, term: Word)

  datatype LogError = InvalidEntry | NotNext | OutOfRange | Compacted | InvalidMeta | Corrupt | AlreadyOpen

  datatype Result<+T> = Ok(value: T) | Err(error: LogError)

  // No snapshot is index 0.
  datatype AbstractLog = AbstractLog(meta: SnapshotMeta, entries: seq<LogEntry>)

  function Last(l: AbstractLog): nat {
    l.meta.index + |l.entries|
  }

  // Entry number i behind the boundary carries index boundary + 1 + i.
  predicate WellFormed(l: AbstractLog) {
    Last(l) < TWO_64 &&
    forall i :: 0 <= i < |l.entries| ==> l.entries[i].index == l.meta.index + 1 + i && l.entries[i].term > 0
  }

  function AppendError(l: AbstractLog, e: LogEntry): Option<LogError> {
    if e.index == 0 || e.term == 0 then Some(InvalidEntry)
    else if e.index != Last(l) + 1 then Some(NotNext)
    else None
  }

  function AfterAppend(l: AbstractLog, e: LogEntry): AbstractLog {
    if AppendError(l, e).Some? then l else l.(entries := l.entries + [e])
  }

  function ReadAt(l: AbstractLog, index: Word): Result<LogEntry> {
    if index == 0 || index > Last(l) then Err(OutOfRange)
    else if index < l.meta.index then Err(Compacted)
    else if index == l.meta.index then Ok(LogEntry(index, l.meta.term, []))
    else Ok(l.entries[index - 1 - l.meta.index])
  }

  function TruncateError(l: AbstractLog, from: Word): Option<LogError> {
    if from == 0 || from <= l.meta.index || from > Last(l) + 1 then Some(OutOfRange) else None
  }

  function AfterTruncate(l: AbstractLog, from: Word): AbstractLog {
    if TruncateError(l, from).Some? then l
    else l.(entries := l.entries[..from - 1 - l.meta.index])
  }

  function InstallError(meta: SnapshotMeta): Option<LogError> {
    if meta.index == 0 || meta.term == 0 then Some(InvalidMeta) else None
  }

  // Entries above the new boundary stay.
  function AfterInstall(l: AbstractLog, meta: SnapshotMeta): AbstractLog
    requires meta.index >= l.meta.index
  {
    if InstallError(meta).Some? then l
    else if meta.index >= Last(l) then AbstractLog(meta, [])
    else AbstractLog(meta, l.entries[meta.index - l.meta.index..])
  }

  lemma AppendKeeps(l: AbstractLog, e: LogEntry)
    requires WellFormed(l)
    ensures WellFormed(AfterAppend(l, e))
  {
  }

  lemma TruncateKeeps(l: AbstractLog, from: Word)
    requires WellFormed(l)
    ensures WellFormed(AfterTruncate(l, from))
  {
  }

  lemma InstallKeeps(l: AbstractLog, meta: SnapshotMeta)
    requires WellFormed(l) && meta.index >= l.meta.index
    ensures WellFormed(AfterInstall(l, meta))
  {
  }

  // ------------------------------------------------------------ read laws

  /** After an append its index answers with the whole entry and every other index as before. */
  lemma ReadAfterAppend(l: AbstractLog, e: LogEntry, index: Word)
    requires WellFormed(l) && AppendError(l, e).None?
    ensures ReadAt(AfterAppend(l, e), index) == if index == e.index then Ok(e) else ReadAt(l, index)
  {
  }

  /** After truncating, answers below the cut are unchanged and nothing is left from there on. */
  lemma ReadAfterTruncate(l: AbstractLog, from: Word, index: Word)
    requires WellFormed(l) && TruncateError(l, from).None?
    ensures ReadAt(AfterTruncate(l, from), index) == if index < from then ReadAt(l, index) else Err(OutOfRange)
  {
  }

  /** A snapshot answers at its boundary with its term, hides what is below and changes nothing above. */
  lemma ReadAfterInstall(l: AbstractLog, meta: SnapshotMeta, index: Word)
    requires WellFormed(l) && meta.index >= l.meta.index && InstallError(meta).None?
    ensures ReadAt(AfterInstall(l, meta), index) ==
            if index == 0 then Err(OutOfRange)
            else if index < meta.index then Err(Compacted)
            else if index == meta.index then Ok(LogEntry(index, meta.term, []))
            else ReadAt(l, index)
  {
  }

  /** Which calls are taken, told by the answers alone: the next index, a cut behind a readable entry. */
  lemma TakenExactly(l: AbstractLog, e: LogEntry, from: Word)
    requires WellFormed(l)
    ensures AppendError(l, e) == Some(InvalidEntry) <==> e.index == 0 || e.term == 0
    ensures AppendError(l, e).None? <==>
            && e.index > 0 && e.term > 0 && ReadAt(l, e.index) == Err(OutOfRange)
            && (e.index > 1 ==> ReadAt(l, e.index - 1).Ok?)
    ensures TruncateError(l, from).None? <==>
            from > 0 && (if from == 1 then l.meta.index == 0 else ReadAt(l, from - 1).Ok?)
  {
  }

  /** Readable are the boundary and the entries behind it, each under its own index. */
  lemma ReadExact(l: AbstractLog, index: Word)
    requires WellFormed(l)
    ensures ReadAt(l, index).Ok? <==> index > 0 && l.meta.index <= index <= Last(l)
    ensures ReadAt(l, index) == Err(Compacted) <==> 0 < index < l.meta.index
    ensures ReadAt(l, index).Ok? ==> ReadAt(l, index).value.index == index
  {
  }

  // -------------------------------------------------------- the vector store

  // How many of the entries behind `base` an index covers.
  function CoveredBy(entries: seq<LogEntry>, base: nat, upTo: nat): (n: nat)
    ensures n <= |entries|
  {
    if upTo <= base then 0 else if upTo - base <= |entries| then upTo - base else |entries|
  }

  class MemoryLogStore {
    var entries: seq<LogEntry>
    var lastIndex: nat
    var meta: SnapshotMeta

    constructor ()
      ensures Valid() && Abs() == AbstractLog(SnapshotMeta(0, 0), [])
    {
      entries, lastIndex, meta := [], 0, SnapshotMeta(0, 0);
    }

    ghost predicate Valid()
      reads this
    {
      WellFormed(Abs()) && lastIndex == Last(Abs())
    }

    ghost function Abs(): AbstractLog
      reads this
    {
      AbstractLog(meta, entries)
    }

    method Append(e: LogEntry) returns (err: Option<LogError>)
      requires Valid()
      modifies this`entries, this`lastIndex
      ensures Valid() && err == AppendError(old(Abs()), e) && Abs() == AfterAppend(old(Abs()), e)
    {
      if e.index == 0 || e.term == 0 {
        return Some(InvalidEntry);
      }
      if e.index != lastIndex + 1 {
        return Some(NotNext);
      }
      entries := entries + [e];
      lastIndex := e.index;
      return None;
    }

    method At(index: Word) returns (r: Result<LogEntry>)
      requires Valid()
      ensures r == ReadAt(Abs(), index)
    {
      if index == 0 || index > lastIndex {
        return Err(OutOfRange);
      }
      if index < meta.index {
        return Err(Compacted);
      }
      if index == meta.index {
        return Ok(LogEntry(index, meta.term, []));
      }
      return Ok(entries[index - 1 - meta.index]);
    }

    method TruncateSuffix(from: Word) returns (err: Option<LogError>)
      requires Valid()
      modifies this`entries, this`lastIndex
      ensures Valid() && err == TruncateError(old(Abs()), from) && Abs() == AfterTruncate(old(Abs()), from)
    {
      if from == 0 || from <= meta.index || from > lastIndex + 1 {
        return Some(OutOfRange);
      }
      entries := entries[..from - 1 - meta.index];
      lastIndex := from - 1;
      return None;
    }

    // Erases from the front while the entries are covered.
    method DropFront(upTo: Word)
      requires Valid()
      modifies this`entries
      ensures entries == old(entries)[CoveredBy(old(entries), meta.index, upTo)..]
    {
      ghost var before := entries;
      while entries != [] && entries[0].index <= upTo
        invariant |entries| <= |before| && entries == before[|before| - |entries|..]
        invariant |before| - |entries| <= CoveredBy(before, meta.index, upTo)
        decreases |entries|
      {
        assert entries[0] == before[|before| - |entries|];
        entries := entries[1..];
      }
      if entries != [] {
        assert entries[0] == before[|before| - |entries|];
      }
    }

    // A boundary that goes back is taken as it is and leaves a gap behind it.
    method InstallSnapshot(next: SnapshotMeta) returns (err: Option<LogError>)
      requires Valid()
      modifies this
      ensures err == InstallError(next)
      ensures err.Some? ==> Valid() && Abs() == old(Abs())
      ensures next.index >= old(meta).index ==> Valid() && Abs() == AfterInstall(old(Abs()), next)
      ensures next.index < old(meta).index && err.None? ==>
                meta == next && entries == old(entries) && lastIndex == old(lastIndex)
    {
      if next.index == 0 || next.term == 0 {
        return Some(InvalidMeta);
      }
      DropFront(next.index);
      meta := next;
      if lastIndex < next.index {
        lastIndex := next.index;
      }
      return None;
    }
  }

}
