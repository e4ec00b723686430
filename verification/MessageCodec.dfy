/**
 The wire encoding of the six Raft messages. Decoding inverts encoding, and a
 payload is accepted only if it is the encoding of what it decodes to.
 */
module MessageCodec {
  import opened Wrappers
  import opened Bytes
  import opened KeyCodec
  import opened Wire
  import opened LogStore

  const VERSION: Byte := 3

  datatype Message =
    | VoteRequest(term: Word, candidate: Word, lastIndex: Word, lastTerm: Word)
    | VoteResponse(term: Word, granted: bool)
    | AppendRequest(term: Word, leader: Word, prevIndex: Word, prevTerm: Word, commit: Word, round: Word,
                    entries: seq<LogEntry>)
    | AppendResponse(term: Word, success: bool, matchIndex: Word, round: Word, hint: Word)
    | SnapshotRequest(term: Word, leader: Word, lastIndex: Word, lastTerm: Word, offset: Word, done: bool,
                      data: Bytes)
    | SnapshotResponse(term: Word, success: bool)

  // Lengths and counts fit their 64-bit fields.
  predicate Encodable(m: Message) {
    match m
    case AppendRequest(_, _, _, _, _, _, entries) =>
      |entries| < TWO_64 && forall i :: 0 <= i < |entries| ==> Sized(entries[i].data)
    case SnapshotRequest(_, _, _, _, _, _, data) => Sized(data)
    case _ => true
  }

  function TypeByte(m: Message): Byte {
    match m
    case VoteRequest(_, _, _, _) => 1
    case VoteResponse(_, _) => 2
    case AppendRequest(_, _, _, _, _, _, _) => 3
    case AppendResponse(_, _, _, _, _) => 4
    case SnapshotRequest(_, _, _, _, _, _, _) => 5
    case SnapshotResponse(_, _) => 6
  }

  // ------------------------------------------------------------------ entries

  predicate AllSized(es: seq<LogEntry>) {
    forall i :: 0 <= i < |es| ==> Sized(es[i].data)
  }

  function EncodeEntries(es: seq<LogEntry>): Bytes
    requires AllSized(es)
  {
    if es == [] then []
    else PutU64(es[0].index) + (PutU64(es[0].term) + (PutBytes(es[0].data) + EncodeEntries(es[1..])))
  }

  function ReadEntry(d: Bytes): Read<LogEntry> {
    match ReadU64(d)
    case Short => Short
    case Got(index, d1) =>
      match ReadU64(d1)
      case Short => Short
      case Got(term, d2) =>
        match ReadBytes(d2)
        case Short => Short
        case Got(data, d3) => Got(LogEntry(index, term, data), d3)
  }

  function DecodeEntries(d: Bytes, count: nat): Read<seq<LogEntry>> {
    if count == 0 then Got([], d)
    else
      match ReadEntry(d)
      case Short => Short
      case Got(e, rest) =>
        match DecodeEntries(rest, count - 1)
        case Short => Short
        case Got(es, end) => Got([e] + es, end)
  }

  lemma {:induction false} EntriesRoundTrip(es: seq<LogEntry>, rest: Bytes)
    requires AllSized(es)
    ensures DecodeEntries(EncodeEntries(es) + rest, |es|) == Got(es, rest)
  {
    hide PutU64, PutBytes, ReadU64, ReadBytes;
    if es == [] {
      assert EncodeEntries(es) + rest == rest;
    } else {
      var e, tail := es[0], EncodeEntries(es[1..]) + rest;
      EntriesRoundTrip(es[1..], rest);
      PutU64Read(e.index, PutU64(e.term) + (PutBytes(e.data) + tail));
      PutU64Read(e.term, PutBytes(e.data) + tail);
      PutBytesRead(e.data, tail);
      assert EncodeEntries(es) + rest == PutU64(e.index) + (PutU64(e.term) + (PutBytes(e.data) + tail));
      assert es == [e] + es[1..];
    }
  }

  function EncodeEntry(e: LogEntry): Bytes
    requires Sized(e.data)
  {
    PutU64(e.index) + (PutU64(e.term) + PutBytes(e.data))
  }

  lemma EntryExact(d: Bytes)
    requires ReadEntry(d).Got?
    ensures Sized(ReadEntry(d).value.data)
    ensures d == EncodeEntry(ReadEntry(d).value) + ReadEntry(d).rest
  {
    hide PutU64, PutBytes, ReadU64, ReadBytes;
    ReadU64Put(d);
    var d1 := ReadU64(d).rest;
    ReadU64Put(d1);
    var d2 := ReadU64(d1).rest;
    ReadBytesPut(d2);
    var e, rest := ReadEntry(d).value, ReadEntry(d).rest;
    Nest(PutU64(e.index), PutU64(e.term), PutBytes(e.data), rest);
  }

  lemma Nest(a: Bytes, b: Bytes, c: Bytes, rest: Bytes)
    ensures a + (b + (c + rest)) == (a + (b + c)) + rest
  {
  }

  lemma EntriesUnfold(es: seq<LogEntry>)
    requires AllSized(es) && es != []
    ensures EncodeEntries(es) == EncodeEntry(es[0]) + EncodeEntries(es[1..])
  {
    hide PutU64, PutBytes;
    Nest(PutU64(es[0].index), PutU64(es[0].term), PutBytes(es[0].data), EncodeEntries(es[1..]));
  }

  lemma {:induction false} EntriesExact(d: Bytes, count: nat)
    requires DecodeEntries(d, count).Got?
    ensures var r := DecodeEntries(d, count);
            |r.value| == count && AllSized(r.value) && d == EncodeEntries(r.value) + r.rest
    decreases count
  {
    hide EncodeEntry, EncodeEntries, ReadEntry;
    if count == 0 {
      NoEntries(d);
    } else {
      EntryExact(d);
      var e, rest := ReadEntry(d).value, ReadEntry(d).rest;
      EntriesExact(rest, count - 1);
      var tail := DecodeEntries(rest, count - 1);
      var es := [e] + tail.value;
      assert es[1..] == tail.value;
      EntriesUnfold(es);
      assert EncodeEntry(e) + (EncodeEntries(es[1..]) + tail.rest) == (EncodeEntry(e) + EncodeEntries(es[1..])) + tail.rest;
    }
  }

  lemma NoEntries(d: Bytes)
    ensures EncodeEntries([]) + d == d
  {
  }

  lemma {:induction false} EntriesTakeRoom(es: seq<LogEntry>)
    requires AllSized(es)
    ensures |EncodeEntries(es)| >= |es|
  {
    if es != [] {
      EntriesTakeRoom(es[1..]);
    }
  }

  // ----------------------------------------------------------------- messages

  function Body(m: Message): Bytes
    requires Encodable(m)
  {
    match m
    case VoteRequest(term, candidate, lastIndex, lastTerm) =>
      PutU64(term) + (PutU64(candidate) + (PutU64(lastIndex) + PutU64(lastTerm)))
    case VoteResponse(term, granted) => PutU64(term) + PutBool(granted)
    case AppendRequest(term, leader, prevIndex, prevTerm, commit, round, entries) =>
      PutU64(term) + (PutU64(leader) + (PutU64(prevIndex) + (PutU64(prevTerm) + (PutU64(commit) +
      (PutU64(round) + (PutU64(|entries|) + EncodeEntries(entries)))))))
    case AppendResponse(term, success, matchIndex, round, hint) =>
      PutU64(term) + (PutBool(success) + (PutU64(matchIndex) + (PutU64(round) + PutU64(hint))))
    case SnapshotRequest(term, leader, lastIndex, lastTerm, offset, done, data) =>
      PutU64(term) + (PutU64(leader) + (PutU64(lastIndex) + (PutU64(lastTerm) + (PutU64(offset) +
      (PutBool(done) + PutBytes(data))))))
    case SnapshotResponse(term, success) => PutU64(term) + PutBool(success)
  }

  function Encode(group: Word, m: Message): Bytes
    requires Encodable(m)
  {
    [VERSION] + (PutU64(group) + ([TypeByte(m)] + Body(m)))
  }

  // Fields read one after another; the first that is missing ends the decoding.
  function Words(d: Bytes, n: nat): Read<seq<Word>> {
    if n == 0 then Got([], d)
    else
      match ReadU64(d)
      case Short => Short
      case Got(v, rest) =>
        match Words(rest, n - 1)
        case Short => Short
        case Got(vs, end) => Got([v] + vs, end)
  }

  function ReadVoteRequest(d: Bytes): Read<Message> {
    match Words(d, 4)
    case Short => Short
    case Got(w, rest) => WordsCount(d, 4); Got(VoteRequest(w[0], w[1], w[2], w[3]), rest)
  }

  function ReadVoteResponse(d: Bytes): Read<Message> {
    match ReadU64(d)
    case Short => Short
    case Got(term, d1) =>
      match ReadBool(d1)
      case Short => Short
      case Got(granted, rest) => Got(VoteResponse(term, granted), rest)
  }

  function ReadAppendRequest(d: Bytes, whole: nat): Read<Message> {
    match Words(d, 7)
    case Short => Short
    case Got(w, d1) =>
      WordsCount(d, 7);
      if w[6] > whole then Short
      else
        match DecodeEntries(d1, w[6])
        case Short => Short
        case Got(es, rest) => Got(AppendRequest(w[0], w[1], w[2], w[3], w[4], w[5], es), rest)
  }

  function ReadAppendResponse(d: Bytes): Read<Message> {
    match ReadU64(d)
    case Short => Short
    case Got(term, d1) =>
      match ReadBool(d1)
      case Short => Short
      case Got(success, d2) =>
        match Words(d2, 3)
        case Short => Short
        case Got(w, rest) => WordsCount(d2, 3); Got(AppendResponse(term, success, w[0], w[1], w[2]), rest)
  }

  function ReadSnapshotRequest(d: Bytes): Read<Message> {
    match Words(d, 5)
    case Short => Short
    case Got(w, d1) =>
      WordsCount(d, 5);
      match ReadBool(d1)
      case Short => Short
      case Got(done, d2) =>
        match ReadBytes(d2)
        case Short => Short
        case Got(data, rest) => Got(SnapshotRequest(w[0], w[1], w[2], w[3], w[4], done, data), rest)
  }

  function ReadSnapshotResponse(d: Bytes): Read<Message> {
    match ReadU64(d)
    case Short => Short
    case Got(term, d1) =>
      match ReadBool(d1)
      case Short => Short
      case Got(success, rest) => Got(SnapshotResponse(term, success), rest)
  }

  function ReadBody(kind: Byte, d: Bytes, whole: nat): Read<Message> {
    if kind == 1 then ReadVoteRequest(d)
    else if kind == 2 then ReadVoteResponse(d)
    else if kind == 3 then ReadAppendRequest(d, whole)
    else if kind == 4 then ReadAppendResponse(d)
    else if kind == 5 then ReadSnapshotRequest(d)
    else if kind == 6 then ReadSnapshotResponse(d)
    else Short
  }

  function Decode(payload: Bytes): Option<(Word, Message)> {
    match ReadU8(payload)
    case Short => None
    case Got(version, d1) =>
      if version != VERSION then None
      else
        match ReadU64(d1)
        case Short => None
        case Got(group, d2) =>
          match ReadU8(d2)
          case Short => None
          case Got(kind, d3) =>
            match ReadBody(kind, d3, |payload|)
            case Short => None
            case Got(m, rest) => if rest == [] then Some((group, m)) else None
  }

  lemma {:induction false} WordsCount(d: Bytes, n: nat)
    ensures Words(d, n).Got? ==> |Words(d, n).value| == n
  {
    if n > 0 && ReadU64(d).Got? {
      WordsCount(ReadU64(d).rest, n - 1);
    }
  }

  function PutWords(w: seq<Word>, rest: Bytes): Bytes {
    if w == [] then rest else PutU64(w[0]) + PutWords(w[1..], rest)
  }

  lemma {:induction false} WordsRoundTrip(w: seq<Word>, rest: Bytes)
    ensures Words(PutWords(w, rest), |w|) == Got(w, rest)
  {
    if w != [] {
      WordsRoundTrip(w[1..], rest);
      PutU64Read(w[0], PutWords(w[1..], rest));
      assert w == [w[0]] + w[1..];
    }
  }

  lemma {:induction false} WordsExact(d: Bytes, n: nat)
    requires Words(d, n).Got?
    ensures d == PutWords(Words(d, n).value, Words(d, n).rest)
  {
    if n > 0 {
      ReadU64Put(d);
      WordsExact(ReadU64(d).rest, n - 1);
      assert Words(d, n).value[1..] == Words(ReadU64(d).rest, n - 1).value;
    }
  }

  // The same fields in the nested form of a message body.
  lemma {:induction false} PutWordsUnfold(w: seq<Word>, rest: Bytes)
    requires w != []
    ensures PutWords(w, rest) == PutU64(w[0]) + PutWords(w[1..], rest)
  {
  }

  lemma ThreeWords(a: Word, b: Word, c: Word, rest: Bytes)
    ensures PutWords([a, b, c], rest) == PutU64(a) + (PutU64(b) + (PutU64(c) + rest))
  {
    assert [a, b, c][1..] == [b, c] && [b, c][1..] == [c] && [c][1..] == [];
    PutWordsUnfold([a, b, c], rest);
    PutWordsUnfold([b, c], rest);
    PutWordsUnfold([c], rest);
  }

  lemma FourWords(a: Word, b: Word, c: Word, e: Word, rest: Bytes)
    ensures PutWords([a, b, c, e], rest) == PutU64(a) + (PutU64(b) + (PutU64(c) + (PutU64(e) + rest)))
  {
    assert [a, b, c, e][1..] == [b, c, e];
    PutWordsUnfold([a, b, c, e], rest);
    ThreeWords(b, c, e, rest);
  }

  lemma FiveWords(a: Word, b: Word, c: Word, e: Word, f: Word, rest: Bytes)
    ensures PutWords([a, b, c, e, f], rest) ==
            PutU64(a) + (PutU64(b) + (PutU64(c) + (PutU64(e) + (PutU64(f) + rest))))
  {
    assert [a, b, c, e, f][1..] == [b, c, e, f];
    PutWordsUnfold([a, b, c, e, f], rest);
    FourWords(b, c, e, f, rest);
  }

  lemma SevenWords(a: Word, b: Word, c: Word, e: Word, f: Word, g: Word, h: Word, rest: Bytes)
    ensures PutWords([a, b, c, e, f, g, h], rest) ==
            PutU64(a) + (PutU64(b) + (PutU64(c) + (PutU64(e) + (PutU64(f) + (PutU64(g) + (PutU64(h) + rest))))))
  {
    assert [a, b, c, e, f, g, h][1..] == [b, c, e, f, g, h] && [b, c, e, f, g, h][1..] == [c, e, f, g, h];
    PutWordsUnfold([a, b, c, e, f, g, h], rest);
    PutWordsUnfold([b, c, e, f, g, h], rest);
    FiveWords(c, e, f, g, h, rest);
  }

  // ------------------------------------------------------- decode after encode

  lemma BodyRoundTrip(m: Message, whole: nat)
    requires Encodable(m) && whole >= |Body(m)|
    ensures ReadBody(TypeByte(m), Body(m), whole) == Got(m, [])
  {
    hide PutU64, PutBytes, PutBool, ReadU64, ReadBytes, ReadBool, Words, PutWords, EncodeEntries, DecodeEntries;
    match m {
      case VoteRequest(a, b, c, e) =>
        FourWords(a, b, c, e, []);
        WordsRoundTrip([a, b, c, e], []);
        assert PutU64(e) + [] == PutU64(e);
      case VoteResponse(a, b) => FlagRoundTrip(a, b);
      case AppendRequest(a, b, c, e, f, g, entries) =>
        AppendRoundTrip(m, whole);
      case AppendResponse(a, b, c, e, f) =>
        PutU64Read(a, PutBool(b) + (PutU64(c) + (PutU64(e) + PutU64(f))));
        PutBoolRead(b, PutU64(c) + (PutU64(e) + PutU64(f)));
        ThreeWords(c, e, f, []);
        WordsRoundTrip([c, e, f], []);
        assert PutU64(f) + [] == PutU64(f);
      case SnapshotRequest(a, b, c, e, f, done, data) =>
        FiveWords(a, b, c, e, f, PutBool(done) + PutBytes(data));
        WordsRoundTrip([a, b, c, e, f], PutBool(done) + PutBytes(data));
        PutBoolRead(done, PutBytes(data));
        PutBytesRead(data, []);
        assert PutBytes(data) + [] == PutBytes(data);
      case SnapshotResponse(a, b) => FlagRoundTrip(a, b);
    }
  }

  lemma FlagRoundTrip(term: Word, flag: bool)
    ensures ReadU64(PutU64(term) + PutBool(flag)) == Got(term, PutBool(flag))
    ensures ReadBool(PutBool(flag)) == Got(flag, [])
  {
    PutU64Read(term, PutBool(flag));
    PutBoolRead(flag, []);
    assert PutBool(flag) + [] == PutBool(flag);
  }

  lemma AppendRoundTrip(m: Message, whole: nat)
    requires m.AppendRequest? && Encodable(m) && whole >= |Body(m)|
    ensures ReadAppendRequest(Body(m), whole) == Got(m, [])
  {
    hide PutU64, Words, PutWords, EncodeEntries, DecodeEntries;
    var AppendRequest(a, b, c, e, f, g, entries) := m;
    var tail := EncodeEntries(entries);
    SevenWords(a, b, c, e, f, g, |entries|, tail);
    WordsRoundTrip([a, b, c, e, f, g, |entries|], tail);
    EntriesTakeRoom(entries);
    EntriesRoundTrip(entries, []);
    assert tail + [] == tail;
  }

  /** Decoding gives back the group and the message that were encoded. */
  lemma DecodeAfterEncode(group: Word, m: Message)
    requires Encodable(m)
    ensures Decode(Encode(group, m)) == Some((group, m))
  {
    hide ReadBody, Body;
    var payload := Encode(group, m);
    PutByteRead(VERSION, PutU64(group) + ([TypeByte(m)] + Body(m)));
    PutU64Read(group, [TypeByte(m)] + Body(m));
    PutByteRead(TypeByte(m), Body(m));
    BodyRoundTrip(m, |payload|);
  }

  // ------------------------------------------------------- encode after decode

  lemma BodyExact(kind: Byte, d: Bytes, whole: nat)
    requires var r := ReadBody(kind, d, whole); r.Got? && r.rest == []
    ensures var m := ReadBody(kind, d, whole).value; Encodable(m) && TypeByte(m) == kind && Body(m) == d
  {
    hide PutU64, PutBytes, PutBool, ReadU64, ReadBytes, ReadBool, Words, PutWords, EncodeEntries, DecodeEntries;
    var m := ReadBody(kind, d, whole).value;
    match m {
      case VoteRequest(a, b, c, e) =>
        WordsExact(d, 4);
        WordsCount(d, 4);
        assert Words(d, 4).value == [a, b, c, e];
        FourWords(a, b, c, e, []);
        assert PutU64(e) + [] == PutU64(e);
      case VoteResponse(a, b) => FlagExact(d);
      case AppendRequest(_, _, _, _, _, _, _) => AppendExact(d, whole);
      case AppendResponse(a, b, c, e, f) =>
        ReadU64Put(d);
        var d1 := ReadU64(d).rest;
        ReadBoolPut(d1);
        var d2 := ReadBool(d1).rest;
        WordsExact(d2, 3);
        WordsCount(d2, 3);
        assert Words(d2, 3).value == [c, e, f];
        ThreeWords(c, e, f, []);
        assert PutU64(f) + [] == PutU64(f);
      case SnapshotRequest(_, _, _, _, _, _, _) => SnapshotExact(d);
      case SnapshotResponse(a, b) => FlagExact(d);
    }
  }

  lemma FlagExact(d: Bytes)
    requires ReadU64(d).Got? && ReadBool(ReadU64(d).rest).Got? && ReadBool(ReadU64(d).rest).rest == []
    ensures d == PutU64(ReadU64(d).value) + PutBool(ReadBool(ReadU64(d).rest).value)
  {
    ReadU64Put(d);
    ReadBoolPut(ReadU64(d).rest);
  }

  lemma AppendExact(d: Bytes, whole: nat)
    requires ReadAppendRequest(d, whole).Got? && ReadAppendRequest(d, whole).rest == []
    ensures var m := ReadAppendRequest(d, whole).value; Encodable(m) && Body(m) == d
  {
    hide PutU64, Words, PutWords, EncodeEntries, DecodeEntries;
    var m := ReadAppendRequest(d, whole).value;
    var AppendRequest(a, b, c, e, f, g, entries) := m;
    var w, d1 := Words(d, 7).value, Words(d, 7).rest;
    WordsExact(d, 7);
    WordsCount(d, 7);
    EntriesExact(d1, w[6]);
    assert w == [a, b, c, e, f, g, |entries|];
    SevenWords(a, b, c, e, f, g, |entries|, d1);
    assert EncodeEntries(entries) + [] == EncodeEntries(entries);
  }

  lemma SnapshotExact(d: Bytes)
    requires ReadSnapshotRequest(d).Got? && ReadSnapshotRequest(d).rest == []
    ensures var m := ReadSnapshotRequest(d).value; Encodable(m) && Body(m) == d
  {
    hide PutU64, PutBytes, PutBool, ReadBytes, ReadBool, Words, PutWords;
    var m := ReadSnapshotRequest(d).value;
    var SnapshotRequest(a, b, c, e, f, done, data) := m;
    var w, d1 := Words(d, 5).value, Words(d, 5).rest;
    WordsExact(d, 5);
    WordsCount(d, 5);
    ReadBoolPut(d1);
    ReadBytesPut(ReadBool(d1).rest);
    assert w == [a, b, c, e, f];
    FiveWords(a, b, c, e, f, d1);
    assert PutBytes(data) + [] == PutBytes(data);
  }

  /** An accepted payload is the encoding of what it decodes to. */
  lemma EncodeAfterDecode(payload: Bytes)
    requires Decode(payload).Some?
    ensures var (group, m) := Decode(payload).value; Encodable(m) && Encode(group, m) == payload
  {
    hide ReadBody, Body;
    var d1 := ReadU8(payload).rest;
    ReadU8Put(payload);
    ReadU64Put(d1);
    var d2 := ReadU64(d1).rest;
    ReadU8Put(d2);
    BodyExact(ReadU8(d2).value, ReadU8(d2).rest, |payload|);
  }

}
