/**
 The log store on an ordered key-value database: one key per entry, in index
 order, plus one key for the snapshot boundary. Every operation agrees with the
 abstract log, and reopening the database recovers the same log.
 */
module KeyLogStore {
  import opened Wrappers
  import opened Bytes
  import opened KeyCodec
  import opened LogStore
  import opened OrderedMap

  // "hard_state", "log/" and "snapshot_meta".
  const HARD_STATE_KEY: Bytes := [104, 97, 114, 100, 95, 115, 116, 97, 116, 101]
  const LOG_PREFIX: Bytes := [108, 111, 103, 47]
  const META_KEY: Bytes := [115, 110, 97, 112, 115, 104, 111, 116, 95, 109, 101, 116, 97]

  function LogKey(index: Word): Bytes {
    LOG_PREFIX + BigEndian(index, 8)
  }

  predicate IsLogKey(k: Bytes) {
    |k| == 12 && k[..4] == LOG_PREFIX
  }

  function IndexOf(k: Bytes): (r: Word)
    requires IsLogKey(k)
  {
    EightBytes(); UnsignedRoundTrip(k[4..]);
    Unsigned(k[4..])
  }

  lemma LogKeyInverse(index: Word)
    ensures IsLogKey(LogKey(index)) && IndexOf(LogKey(index)) == index
  {
    EightBytes();
    BigEndianRoundTrip(index, 8);
    assert LogKey(index)[4..] == BigEndian(index, 8);
  }

  lemma IndexOfInverse(k: Bytes)
    requires IsLogKey(k)
    ensures LogKey(IndexOf(k)) == k
  {
    UnsignedRoundTrip(k[4..]);
    assert k == k[..4] + k[4..];
  }

  // Database order of entry keys is index order.
  lemma LogKeyOrder(a: Bytes, b: Bytes)
    requires IsLogKey(a) && IsLogKey(b)
    ensures Less(a, b) <==> IndexOf(a) < IndexOf(b)
  {
    EightBytes();
    UnsignedRoundTrip(a[4..]);
    UnsignedRoundTrip(b[4..]);
    BigEndianOrder(IndexOf(a), IndexOf(b), 8);
    LessAfterPrefix(LOG_PREFIX, a[4..], b[4..]);
    assert a == LOG_PREFIX + a[4..] && b == LOG_PREFIX + b[4..];
  }

  lemma OtherKeys(k: Bytes)
    requires IsLogKey(k)
    ensures Less(HARD_STATE_KEY, k) && Less(k, META_KEY)
    ensures !IsLogKey(HARD_STATE_KEY) && !IsLogKey(META_KEY)
  {
    assert k[0] == LOG_PREFIX[0];
  }

  function EncodeEntry(e: LogEntry): Bytes {
    BigEndian(e.term, 8) + e.data
  }

  function EncodeMeta(m: SnapshotMeta): Bytes {
    BigEndian(m.index, 8) + BigEndian(m.term, 8)
  }

  // --------------------------------------------------------------- hard state

  datatype HardState = HardState(term: Word, votedFor: Option<Word>)

  function EncodeHardState(h: HardState): Bytes {
    BigEndian(h.term, 8) + if h.votedFor.Some? then [1] + BigEndian(h.votedFor.value, 8) else [0]
  }

  // Loading demands the size of a record with a vote.
  function DecodeHardState(value: Bytes): Option<HardState> {
    if |value| != 17 then None
    else
      EightBytes(); UnsignedRoundTrip(value[..8]); UnsignedRoundTrip(value[9..]);
      Some(HardState(Unsigned(value[..8]), if value[8] != 0 then Some(Unsigned(value[9..])) else None))
  }

  /** A saved term and vote is read back exactly when there is a vote. */
  lemma HardStateRoundTrip(h: HardState)
    ensures DecodeHardState(EncodeHardState(h)) == Some(h) <==> h.votedFor.Some?
    ensures DecodeHardState(EncodeHardState(h)).None? <==> h.votedFor.None?
  {
    var v := EncodeHardState(h);
    if h.votedFor.Some? {
      EightBytes();
      BigEndianRoundTrip(h.term, 8);
      BigEndianRoundTrip(h.votedFor.value, 8);
      assert v[..8] == BigEndian(h.term, 8) && v[9..] == BigEndian(h.votedFor.value, 8);
    }
  }

  // ------------------------------------------------------------ stored content

  ghost predicate OnlyOurKeys(db: Database) {
    forall k :: k in db ==> k == HARD_STATE_KEY || k == META_KEY || IsLogKey(k)
  }

  ghost predicate HoldsMeta(db: Database, m: SnapshotMeta) {
    if m.index == 0 then m.term == 0 && META_KEY !in db
    else m.term > 0 && META_KEY in db && db[META_KEY] == EncodeMeta(m)
  }

  ghost predicate HoldsEntries(db: Database, l: AbstractLog) {
    forall i :: 0 <= i < |l.entries| ==>
      LogKey(l.entries[i].index) in db && db[LogKey(l.entries[i].index)] == EncodeEntry(l.entries[i])
  }

  ghost predicate NoEntryPast(db: Database, last: nat) {
    forall k :: k in db && IsLogKey(k) ==> IndexOf(k) <= last
  }

  // What may be on disk for log `l`; keys of entries at or below the boundary
  // may have been left behind.
  ghost predicate Recoverable(db: Database, l: AbstractLog) {
    WellFormed(l) && OnlyOurKeys(db) && HoldsMeta(db, l.meta) && HoldsEntries(db, l) && NoEntryPast(db, Last(l))
  }

  // The running store's disk: nothing is left behind.
  ghost predicate Holds(db: Database, l: AbstractLog) {
    Recoverable(db, l) && forall k :: k in db && IsLogKey(k) ==> IndexOf(k) > l.meta.index
  }

  lemma HoldsEntryAt(db: Database, l: AbstractLog, index: Word)
    requires Recoverable(db, l) && l.meta.index < index <= Last(l)
    ensures LogKey(index) in db
    ensures db[LogKey(index)] == EncodeEntry(l.entries[index - 1 - l.meta.index])
    ensures l.entries[index - 1 - l.meta.index].index == index && l.entries[index - 1 - l.meta.index].term > 0
  {
    assert l.entries[index - 1 - l.meta.index].index == index;
  }

  lemma EntryRoundTrip(e: LogEntry)
    ensures var v := EncodeEntry(e); |v| >= 8 && Unsigned(v[..8]) == e.term && v[8..] == e.data
  {
    EightBytes();
    BigEndianRoundTrip(e.term, 8);
    assert EncodeEntry(e)[..8] == BigEndian(e.term, 8);
  }

  lemma MetaRoundTrip(m: SnapshotMeta)
    ensures var v := EncodeMeta(m); |v| == 16 && Unsigned(v[..8]) == m.index && Unsigned(v[8..][..8]) == m.term
  {
    EightBytes();
    BigEndianRoundTrip(m.index, 8);
    BigEndianRoundTrip(m.term, 8);
    var v := EncodeMeta(m);
    assert v[..8] == BigEndian(m.index, 8) && v[8..][..8] == BigEndian(m.term, 8);
  }

  // How the three kinds of write change the content.
  lemma PutEntry(db: Database, l: AbstractLog, e: LogEntry)
    requires Holds(db, l) && AppendError(l, e).None?
    ensures Holds(db[LogKey(e.index) := EncodeEntry(e)], AfterAppend(l, e))
  {
    var next, key := AfterAppend(l, e), LogKey(e.index);
    var out := db[key := EncodeEntry(e)];
    LogKeyInverse(e.index);
    OtherKeys(key);
    AppendKeeps(l, e);
    forall i | 0 <= i < |next.entries|
      ensures LogKey(next.entries[i].index) in out && out[LogKey(next.entries[i].index)] == EncodeEntry(next.entries[i])
    {
      LogKeyInverse(next.entries[i].index);
      if i < |l.entries| {
        assert next.entries[i] == l.entries[i];
      }
    }
  }

  function Without(db: Database, gone: set<Bytes>): Database {
    map k | k in db && k !in gone :: db[k]
  }

  lemma DropSuffix(db: Database, l: AbstractLog, from: Word, gone: set<Bytes>)
    requires Holds(db, l) && TruncateError(l, from).None?
    requires forall k :: k in gone <==> k in db && IsLogKey(k) && IndexOf(k) >= from
    ensures Holds(Without(db, gone), AfterTruncate(l, from))
  {
    var next := AfterTruncate(l, from);
    TruncateKeeps(l, from);
    assert !IsLogKey(META_KEY) by {
      OtherKeys(LogKey(0)) by { LogKeyInverse(0); }
    }
    forall i | 0 <= i < |next.entries|
      ensures LogKey(next.entries[i].index) in Without(db, gone)
      ensures db[LogKey(next.entries[i].index)] == EncodeEntry(next.entries[i])
    {
      assert next.entries[i] == l.entries[i];
      LogKeyInverse(next.entries[i].index);
    }
  }

  lemma DropPrefix(db: Database, l: AbstractLog, meta: SnapshotMeta, gone: set<Bytes>)
    requires Holds(db, l) && InstallError(meta).None? && meta.index >= l.meta.index
    requires forall k :: k in gone <==> k in db && IsLogKey(k) && IndexOf(k) <= meta.index
    ensures Holds(Without(db, gone)[META_KEY := EncodeMeta(meta)], AfterInstall(l, meta))
  {
    var next := AfterInstall(l, meta);
    var out := Without(db, gone)[META_KEY := EncodeMeta(meta)];
    InstallKeeps(l, meta);
    assert !IsLogKey(META_KEY) by {
      OtherKeys(LogKey(0)) by { LogKeyInverse(0); }
    }
    forall i | 0 <= i < |next.entries|
      ensures LogKey(next.entries[i].index) in out && out[LogKey(next.entries[i].index)] == EncodeEntry(next.entries[i])
    {
      assert next.entries[i] == l.entries[i + (meta.index - l.meta.index)];
      LogKeyInverse(next.entries[i].index);
    }
  }

  lemma NothingBelow(db: Database, l: AbstractLog, index: Word, gone: set<Bytes>)
    requires Holds(db, l) && index < l.meta.index
    requires forall k :: k in gone <==> k in db && IsLogKey(k) && 1 <= IndexOf(k) <= index
    ensures gone == {} && Without(db, gone) == db
  {
  }

  lemma StaleDropped(db: Database, l: AbstractLog, gone: set<Bytes>)
    requires Recoverable(db, l)
    requires forall k :: k in gone <==> k in db && IsLogKey(k) && 1 <= IndexOf(k) <= l.meta.index
    requires forall k :: k in db && IsLogKey(k) ==> IndexOf(k) > 0
    ensures Holds(Without(db, gone), l)
  {
    assert !IsLogKey(META_KEY) by {
      OtherKeys(LogKey(0)) by { LogKeyInverse(0); }
    }
    forall i | 0 <= i < |l.entries|
      ensures LogKey(l.entries[i].index) in Without(db, gone)
    {
      LogKeyInverse(l.entries[i].index);
    }
  }

  // ------------------------------------------------------------------ routines

  // Of the keys from `start` on, those of entries come first.
  lemma EntriesComeFirst(db: Database, start: Bytes, ks: seq<Bytes>, n: nat)
    requires OnlyOurKeys(db) && IsLogKey(start) && Ascending(ks) && n <= |ks|
    requires forall k :: k in ks <==> k in db && AtMost(start, k)
    requires n < |ks| ==> !IsLogKey(ks[n])
    ensures forall k :: k in ks && IsLogKey(k) ==> k in ks[..n]
  {
    forall k | k in ks && IsLogKey(k)
      ensures k in ks[..n]
    {
      var i :| 0 <= i < |ks| && ks[i] == k;
      if n < i {
        OtherKeys(start);
        OtherKeys(k);
        assert ks[n] in ks;
        assert ks[n] == META_KEY;
        LessIsStrict(ks[n], k);
      }
    }
  }

  lemma AtOrAfter(k: Bytes, from: Word)
    requires IsLogKey(k)
    ensures AtMost(LogKey(from), k) <==> IndexOf(k) >= from
  {
    LogKeyInverse(from);
    LogKeyOrder(k, LogKey(from));
  }

  // The entry keys at or after index `from`.
  method SuffixKeys(db: Database, from: Word) returns (gone: set<Bytes>)
    requires OnlyOurKeys(db)
    ensures forall k :: k in gone <==> k in db && IsLogKey(k) && IndexOf(k) >= from
  {
    var ks := Seek(db, LogKey(from));
    LogKeyInverse(from);
    gone := {};
    var i := 0;
    while i < |ks| && IsLogKey(ks[i])
      invariant 0 <= i <= |ks|
      invariant forall k :: k in gone <==> k in ks[..i]
      invariant forall j :: 0 <= j < i ==> IsLogKey(ks[j])
    {
      gone := gone + {ks[i]};
      i := i + 1;
    }
    EntriesComeFirst(db, LogKey(from), ks, i);
    forall k
      ensures k in gone <==> k in db && IsLogKey(k) && IndexOf(k) >= from
    {
      if IsLogKey(k) {
        AtOrAfter(k, from);
      }
      if k in gone {
        var j :| 0 <= j < i && ks[..i][j] == k;
        assert ks[j] in ks;
      }
    }
  }

  // The entry keys from index 1 up to and including `last`.
  method PrefixKeys(db: Database, last: Word) returns (gone: set<Bytes>)
    requires OnlyOurKeys(db)
    ensures forall k :: k in gone <==> k in db && IsLogKey(k) && 1 <= IndexOf(k) <= last
  {
    var ks := Seek(db, LogKey(1));
    LogKeyInverse(1);
    gone := {};
    var i := 0;
    while i < |ks| && IsLogKey(ks[i]) && IndexOf(ks[i]) <= last
      invariant 0 <= i <= |ks|
      invariant forall k :: k in gone <==> k in ks[..i]
      invariant forall j :: 0 <= j < i ==> IsLogKey(ks[j]) && IndexOf(ks[j]) <= last
    {
      gone := gone + {ks[i]};
      i := i + 1;
    }
    if i == |ks| || !IsLogKey(ks[i]) {
      EntriesComeFirst(db, LogKey(1), ks, i);
    }
    forall k
      ensures k in gone <==> k in db && IsLogKey(k) && 1 <= IndexOf(k) <= last
    {
      if IsLogKey(k) {
        AtOrAfter(k, 1);
      }
      if k in gone {
        var j :| 0 <= j < i && ks[..i][j] == k;
        assert ks[j] in ks;
      } else if k in db && IsLogKey(k) && 1 <= IndexOf(k) <= last {
        assert k in ks;
        var j :| 0 <= j < |ks| && ks[j] == k;
        assert k !in ks[..i];
        assert j >= i;
        if j > i {
          LogKeyOrder(ks[i], k);
        }
      }
    }
  }

  // ------------------------------------------------------------------ recovery

  // The entry keys from index 1 on are exactly those of `start`, ..., `last`.
  ghost predicate Contiguous(db: Database, start: nat, last: nat) {
    && (forall k :: k in db && IsLogKey(k) && IndexOf(k) >= 1 ==> start <= IndexOf(k) <= last)
    && (forall i: Word :: start <= i <= last ==> LogKey(i) in db)
  }

  // What the recovery loop has established after the first `i` keys: entries
  // start, ..., expected - 1 were met, and everything below `start` is marked.
  ghost predicate Scanned(ks: seq<Bytes>, i: nat, start: nat, expected: nat, gone: set<Bytes>) {
    && i <= |ks| && start <= expected <= TWO_64
    && (forall j :: 0 <= j < i ==> IsLogKey(ks[j]) && IndexOf(ks[j]) < expected)
    && (forall k :: k in gone <==> k in ks[..i] && IsLogKey(k) && IndexOf(k) < start)
    && (forall x: Word :: start <= x < expected ==> LogKey(x) in ks[..i])
  }

  lemma ScanStale(ks: seq<Bytes>, i: nat, start: nat, expected: nat, gone: set<Bytes>)
    requires Scanned(ks, i, start, expected, gone) && i < |ks| && IsLogKey(ks[i]) && IndexOf(ks[i]) < start
    ensures Scanned(ks, i + 1, start, expected, gone + {ks[i]})
  {
    assert ks[..i + 1] == ks[..i] + [ks[i]];
  }

  lemma ScanEntry(ks: seq<Bytes>, i: nat, start: nat, expected: nat, gone: set<Bytes>)
    requires Scanned(ks, i, start, expected, gone) && i < |ks| && IsLogKey(ks[i]) && IndexOf(ks[i]) == expected
    ensures Scanned(ks, i + 1, start, expected + 1, gone)
  {
    assert ks[..i + 1] == ks[..i] + [ks[i]];
    IndexOfInverse(ks[i]);
  }

  // On a recoverable disk the next key is the expected one and its value whole.
  lemma NoGap(db: Database, l: AbstractLog, ks: seq<Bytes>, i: nat, expected: nat, gone: set<Bytes>)
    requires Recoverable(db, l) && Ascending(ks)
    requires forall k :: k in ks <==> k in db && AtMost(LogKey(1), k)
    requires Scanned(ks, i, l.meta.index + 1, expected, gone)
    requires i < |ks| && IsLogKey(ks[i]) && IndexOf(ks[i]) > l.meta.index
    ensures IndexOf(ks[i]) == expected && |db[ks[i]]| >= 8
  {
    var index := IndexOf(ks[i]);
    assert ks[i] in ks;
    IndexOfInverse(ks[i]);
    HoldsEntryAt(db, l, index);
    if index < expected {
      assert LogKey(index) in ks[..i];
      var j :| 0 <= j < i && ks[..i][j] == ks[i];
      LessIsIrreflexive(ks[i]);
    } else if index > expected {
      HoldsEntryAt(db, l, expected);
      LogKeyInverse(expected);
      AtOrAfter(LogKey(expected), 1);
      assert LogKey(expected) in ks;
      var j :| 0 <= j < |ks| && ks[j] == LogKey(expected);
      LogKeyOrder(ks[i], ks[j]);
    }
  }

  // When no entry key is left, all of them have been met.
  lemma ScanComplete(db: Database, ks: seq<Bytes>, i: nat, start: nat, expected: nat, gone: set<Bytes>)
    requires OnlyOurKeys(db) && Ascending(ks)
    requires forall k :: k in ks <==> k in db && AtMost(LogKey(1), k)
    requires Scanned(ks, i, start, expected, gone) && (i < |ks| ==> !IsLogKey(ks[i]))
    ensures forall k :: k in db && IsLogKey(k) && IndexOf(k) >= 1 ==> IndexOf(k) < expected && k in ks[..i]
    ensures forall x: Word :: start <= x < expected ==> LogKey(x) in db
    ensures forall k :: k in gone <==> k in db && IsLogKey(k) && 1 <= IndexOf(k) < start
  {
    LogKeyInverse(1);
    EntriesComeFirst(db, LogKey(1), ks, i);
    forall k | k in db && IsLogKey(k) && IndexOf(k) >= 1
      ensures IndexOf(k) < expected && k in ks[..i]
    {
      AtOrAfter(k, 1);
      assert k in ks;
      var j :| 0 <= j < i && ks[..i][j] == k;
    }
    forall x: Word | start <= x < expected
      ensures LogKey(x) in db
    {
      assert LogKey(x) in ks;
    }
    forall k | k in gone
      ensures k in db && IsLogKey(k) && 1 <= IndexOf(k) < start
    {
      assert k in ks;
      AtOrAfter(k, 1);
    }
  }

  lemma NoZeroKey(db: Database)
    requires LogKey(0) !in db
    ensures forall k :: k in db && IsLogKey(k) ==> IndexOf(k) > 0
  {
    forall k | k in db && IsLogKey(k)
      ensures IndexOf(k) > 0
    {
      IndexOfInverse(k);
    }
  }

  lemma RecoveredLast(db: Database, l: AbstractLog, expected: nat)
    requires Recoverable(db, l) && l.meta.index < expected <= TWO_64
    requires forall k :: k in db && IsLogKey(k) && IndexOf(k) >= 1 ==> IndexOf(k) < expected
    requires forall x: Word :: l.meta.index + 1 <= x < expected ==> LogKey(x) in db
    ensures expected == Last(l) + 1
  {
    if expected <= Last(l) {
      HoldsEntryAt(db, l, expected);
      LogKeyInverse(expected);
    }
    if expected > Last(l) + 1 {
      LogKeyInverse(Last(l) + 1);
    }
  }

  lemma RecoveredContiguous(db: Database, start: nat, expected: nat, gone: set<Bytes>)
    requires start >= 1 && start <= expected
    requires forall k :: k in db && IsLogKey(k) && IndexOf(k) >= 1 ==> IndexOf(k) < expected
    requires forall x: Word :: start <= x < expected ==> LogKey(x) in db
    requires forall k :: k in gone <==> k in db && IsLogKey(k) && 1 <= IndexOf(k) < start
    ensures Contiguous(Without(db, gone), start, expected - 1)
  {
    forall i: Word | start <= i <= expected - 1
      ensures LogKey(i) in Without(db, gone)
    {
      LogKeyInverse(i);
    }
  }

  // Walks the entry keys in order: `next` is one past the last entry met and
  // `gone` are the keys below `start`. Fails on a gap or a truncated value.
  method ScanLog(db: Database, start: nat, ghost l: AbstractLog) returns (ok: bool, next: nat, gone: set<Bytes>)
    requires OnlyOurKeys(db) && 1 <= start <= TWO_64
    ensures Recoverable(db, l) && start == l.meta.index + 1 ==> ok && next == Last(l) + 1
    ensures ok ==> start <= next
    ensures ok ==> forall k :: k in db && IsLogKey(k) && IndexOf(k) >= 1 ==> IndexOf(k) < next
    ensures ok ==> forall x: Word :: start <= x < next ==> LogKey(x) in db
    ensures ok ==> forall k :: k in gone <==> k in db && IsLogKey(k) && 1 <= IndexOf(k) < start
  {
    hide Recoverable;
    ghost var good := Recoverable(db, l) && start == l.meta.index + 1;
    next, gone := start, {};
    var ks := Seek(db, LogKey(1));
    var i := 0;
    while i < |ks| && IsLogKey(ks[i])
      invariant Scanned(ks, i, start, next, gone)
    {
      var index := IndexOf(ks[i]);
      if index < start {
        ScanStale(ks, i, start, next, gone);
        gone := gone + {ks[i]};
        i := i + 1;
        continue;
      }
      if good {
        NoGap(db, l, ks, i, next, gone);
      }
      assert ks[i] in ks;
      if index != next || |db[ks[i]]| < 8 {
        ok := false;
        return;
      }
      ScanEntry(ks, i, start, next, gone);
      next := next + 1;
      i := i + 1;
    }
    ok := true;
    ScanComplete(db, ks, i, start, next, gone);
    if good {
      RecoveredLast(db, l, next);
    }
  }

  class LevelDBLogStore {
    var disk: Database
    var isOpen: bool
    var lastIndex: nat
    var meta: SnapshotMeta

    constructor (disk: Database)
      ensures this.disk == disk && !isOpen && lastIndex == 0 && meta == SnapshotMeta(0, 0)
    {
      this.disk := disk;
      isOpen, lastIndex, meta := false, 0, SnapshotMeta(0, 0);
    }

    // The log the open store stands for.
    ghost predicate Shows(l: AbstractLog)
      reads this
    {
      isOpen && Holds(disk, l) && meta == l.meta && lastIndex == Last(l)
    }

    method Append(ghost l: AbstractLog, e: LogEntry) returns (err: Option<LogError>)
      requires Shows(l)
      modifies this`disk, this`lastIndex
      ensures err == AppendError(l, e) && Shows(AfterAppend(l, e))
    {
      if e.index == 0 || e.term == 0 {
        return Some(InvalidEntry);
      }
      if e.index != lastIndex + 1 {
        return Some(NotNext);
      }
      PutEntry(disk, l, e);
      disk := disk[LogKey(e.index) := BigEndian(e.term, 8) + e.data];
      lastIndex := e.index;
      return None;
    }

    method At(ghost l: AbstractLog, index: Word) returns (r: Result<LogEntry>)
      requires Shows(l)
      ensures r == ReadAt(l, index)
    {
      if index == 0 || index > lastIndex {
        return Err(OutOfRange);
      }
      if index < meta.index {
        return Err(Compacted);
      }
      if index == meta.index {
        return Ok(LogEntry(index, meta.term, []));
      }
      HoldsEntryAt(disk, l, index);
      EntryRoundTrip(l.entries[index - 1 - l.meta.index]);
      if LogKey(index) !in disk {
        return Err(Corrupt);
      }
      var value := disk[LogKey(index)];
      if |value| < 8 {
        return Err(Corrupt);
      }
      var term := DecodeBe64(value);
      if term == 0 {
        return Err(Corrupt);
      }
      return Ok(LogEntry(index, term, value[8..]));
    }

    method TruncateSuffix(ghost l: AbstractLog, from: Word) returns (err: Option<LogError>)
      requires Shows(l)
      modifies this`disk, this`lastIndex
      ensures err == TruncateError(l, from) && Shows(AfterTruncate(l, from))
    {
      if from == 0 || from <= meta.index || from > lastIndex + 1 {
        return Some(OutOfRange);
      }
      var gone := SuffixKeys(disk, from);
      DropSuffix(disk, l, from, gone);
      disk := Without(disk, gone);
      lastIndex := from - 1;
      return None;
    }

    // A boundary that goes back is taken as it is and leaves a gap behind it.
    method InstallSnapshot(ghost l: AbstractLog, next: SnapshotMeta) returns (err: Option<LogError>)
      requires Shows(l)
      modifies this`disk, this`lastIndex, this`meta
      ensures err == InstallError(next)
      ensures err.Some? ==> Shows(l)
      ensures next.index >= l.meta.index ==> Shows(AfterInstall(l, next))
      ensures next.index < l.meta.index && err.None? ==>
                disk == old(disk)[META_KEY := EncodeMeta(next)] && meta == next && lastIndex == old(lastIndex)
    {
      if next.index == 0 || next.term == 0 {
        return Some(InvalidMeta);
      }
      var gone := PrefixKeys(disk, next.index);
      if next.index >= l.meta.index {
        DropPrefix(disk, l, next, gone);
      } else {
        NothingBelow(disk, l, next.index, gone);
      }
      disk := Without(disk, gone)[META_KEY := BigEndian(next.index, 8) + BigEndian(next.term, 8)];
      meta := next;
      if lastIndex < next.index {
        lastIndex := next.index;
      }
      return None;
    }

    // Reads the boundary; the cached one stays when the disk has none.
    method LoadMeta() returns (err: Option<LogError>)
      modifies this`meta
      ensures forall m :: HoldsMeta(disk, m) ==>
                err.None? && meta == (if m.index > 0 then m else old(meta))
      ensures err.Some? ==> err == Some(Corrupt) && meta == old(meta)
    {
      if META_KEY !in disk {
        return None;
      }
      var value := disk[META_KEY];
      forall m | HoldsMeta(disk, m) {
        MetaRoundTrip(m);
      }
      if |value| != 16 {
        return Some(Corrupt);
      }
      var index := DecodeBe64(value);
      var term := DecodeBe64(value[8..]);
      EightBytes();
      UnsignedRoundTrip(value[..8]);
      UnsignedRoundTrip(value[8..][..8]);
      if index == 0 || term == 0 {
        return Some(Corrupt);
      }
      meta := SnapshotMeta(index, term);
      return None;
    }

    /**
     Reopening: the stale prefix is dropped, and a disk left by any log shows
     exactly that log again. Success means the entries have no gap. A refused
     disk is left as it was, but the store counts as open from then on, so that
     a second attempt is refused whatever the disk holds.
     */
    method Open(ghost l: AbstractLog) returns (err: Option<LogError>)
      requires OnlyOurKeys(disk) && LogKey(0) !in disk
      modifies this
      ensures old(isOpen) ==> err == Some(AlreadyOpen) && unchanged(this)
      ensures !old(isOpen) && Recoverable(old(disk), l) && old(meta) in {SnapshotMeta(0, 0), l.meta} ==>
                err.None? && Shows(l)
      ensures !old(isOpen) && err.None? ==> Contiguous(disk, meta.index + 1, lastIndex)
      ensures !old(isOpen) && err.Some? ==>
                err == Some(Corrupt) && disk == old(disk) && lastIndex == old(lastIndex)
      ensures isOpen
    {
      if isOpen {
        return Some(AlreadyOpen);
      }
      isOpen := true;
      err := LoadMeta();
      if err.Some? {
        return;
      }
      var ok, next, gone := ScanLog(disk, meta.index + 1, l);
      if !ok {
        return Some(Corrupt);
      }
      if Recoverable(disk, l) && meta == l.meta {
        StaleDropped(disk, l, gone) by {
          NoZeroKey(disk);
        }
      }
      RecoveredContiguous(disk, meta.index + 1, next, gone);
      disk := Without(disk, gone);
      lastIndex := if next - 1 > meta.index then next - 1 else meta.index;
      return None;
    }

    method Close()
      modifies this`isOpen, this`lastIndex
      ensures !isOpen && lastIndex == 0
    {
      isOpen := false;
      lastIndex := 0;
    }
  }

}
