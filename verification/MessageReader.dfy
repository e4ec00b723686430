/**
 The codec's routines: fields appended to a buffer, and read back through an
 offset. Reads go on after one has failed; the failure is noticed at the end.
 */
module MessageReader {
  import opened Wrappers
  import opened Bytes
  import opened KeyCodec
  import opened Wire
  import opened LogStore
  import opened MessageCodec

  lemma Regroup(a: Bytes, b: Bytes, c: Bytes)
    ensures a + (b + c) == (a + b) + c
  {
  }

  method PutEntries(out: Bytes, es: seq<LogEntry>) returns (r: Bytes)
    requires AllSized(es)
    ensures r == out + EncodeEntries(es)
  {
    r := out;
    for i := 0 to |es|
      invariant r + EncodeEntries(es[i..]) == out + EncodeEntries(es)
    {
      var e := es[i];
      ghost var tail := EncodeEntries(es[i + 1..]);
      assert es[i..][1..] == es[i + 1..];
      Regroup(r, PutU64(e.index), PutU64(e.term) + (PutBytes(e.data) + tail));
      Regroup(r + PutU64(e.index), PutU64(e.term), PutBytes(e.data) + tail);
      Regroup(r + PutU64(e.index) + PutU64(e.term), PutBytes(e.data), tail);
      r := r + PutU64(e.index) + PutU64(e.term) + PutBytes(e.data);
    }
  }

  // `n` words in a row.
  method Fields(c: Cursor, n: nat) returns (ok: bool, w: seq<Word>)
    requires c.Valid()
    modifies c
    ensures c.Valid() && (ok <==> Words(old(c.Rest()), n).Got?)
    ensures ok ==> Words(old(c.Rest()), n) == Got(w, c.Rest())
  {
    ok, w := true, [];
    PrefixedNothing(Words(c.Rest(), n));
    for i := 0 to n
      invariant c.Valid() && |w| == i
      invariant ok ==> Words(old(c.Rest()), n) == Prefixed(w, Words(c.Rest(), n - i))
      invariant !ok ==> Words(old(c.Rest()), n).Short?
    {
      ghost var rest := c.Rest();
      var good, v := c.U64();
      if good && ok {
        PrefixedTwice(w, [v], Words(c.Rest(), n - i - 1));
      }
      ok := ok && good;
      w := w + [v];
    }
    PrefixedEnd(w, c.Rest());
  }

  function Prefixed<T>(w: seq<T>, r: Read<seq<T>>): Read<seq<T>> {
    match r
    case Short => Short
    case Got(v, rest) => Got(w + v, rest)
  }

  lemma PrefixedNothing<T>(r: Read<seq<T>>)
    ensures Prefixed([], r) == r
  {
    if r.Got? {
      assert [] + r.value == r.value;
    }
  }

  lemma PrefixedEnd<T>(w: seq<T>, rest: Bytes)
    ensures Prefixed(w, Got([], rest)) == Got(w, rest)
  {
    assert w + [] == w;
  }

  lemma OneEntry(d: Bytes, n: nat)
    requires n > 0
    ensures DecodeEntries(d, n) ==
            match ReadEntry(d)
            case Short => Short
            case Got(e, rest) => Prefixed([e], DecodeEntries(rest, n - 1))
  {
  }

  lemma PrefixedTwice<T>(a: seq<T>, b: seq<T>, r: Read<seq<T>>)
    ensures Prefixed(a, Prefixed(b, r)) == Prefixed(a + b, r)
  {
    if r.Got? {
      assert a + (b + r.value) == a + b + r.value;
    }
  }

  method Flag(c: Cursor) returns (ok: bool, v: bool)
    requires c.Valid()
    modifies c
    ensures c.Valid() && (ok <==> ReadBool(old(c.Rest())).Got?)
    ensures ok ==> ReadBool(old(c.Rest())) == Got(v, c.Rest())
  {
    var good, b := c.U8();
    return good && b <= 1, b == 1;
  }

  method Entries(c: Cursor, count: nat) returns (ok: bool, es: seq<LogEntry>)
    requires c.Valid()
    modifies c
    ensures c.Valid() && (ok <==> DecodeEntries(old(c.Rest()), count).Got?)
    ensures ok ==> DecodeEntries(old(c.Rest()), count) == Got(es, c.Rest())
  {
    hide ReadU64, ReadBytes, DecodeEntries;
    es := [];
    PrefixedNothing(DecodeEntries(c.Rest(), count));
    for i := 0 to count
      invariant c.Valid()
      invariant DecodeEntries(old(c.Rest()), count) == Prefixed(es, DecodeEntries(c.Rest(), count - i))
    {
      OneEntry(c.Rest(), count - i);
      var good, e := OneOf(c);
      if !good {
        ok := false;
        return;
      }
      PrefixedTwice(es, [e], DecodeEntries(c.Rest(), count - i - 1));
      es := es + [e];
    }
    ok := true;
    PrefixedEnd(es, c.Rest());
    NoEntries(c.Rest());
  }

  lemma NoEntries(d: Bytes)
    ensures DecodeEntries(d, 0) == Got([], d)
  {
  }

  method OneOf(c: Cursor) returns (ok: bool, e: LogEntry)
    requires c.Valid()
    modifies c
    ensures c.Valid() && (ok <==> ReadEntry(old(c.Rest())).Got?)
    ensures ok ==> ReadEntry(old(c.Rest())) == Got(e, c.Rest())
  {
    hide ReadU64, ReadBytes;
    var ok1, index := c.U64();
    var ok2, term := c.U64();
    var ok3, data := c.ByteString();
    return ok1 && ok2 && ok3, LogEntry(index, term, data);
  }

  method BodyOf(c: Cursor, kind: Byte, whole: nat) returns (ok: bool, m: Message)
    requires c.Valid()
    modifies c
    ensures c.Valid() && (ok <==> ReadBody(kind, old(c.Rest()), whole).Got?)
    ensures ok ==> ReadBody(kind, old(c.Rest()), whole) == Got(m, c.Rest())
  {
    hide Words, DecodeEntries, ReadBool, ReadU64, ReadBytes;
    m := VoteResponse(0, false);
    if kind == 1 {
      var w;
      ok, w := Fields(c, 4);
      WordsCount(old(c.Rest()), 4);
      if ok {
        m := VoteRequest(w[0], w[1], w[2], w[3]);
      }
    } else if kind == 2 || kind == 6 {
      var ok1, term := c.U64();
      var ok2, flag := Flag(c);
      ok := ok1 && ok2;
      m := if kind == 2 then VoteResponse(term, flag) else SnapshotResponse(term, flag);
    } else if kind == 3 {
      ok, m := AppendOf(c, whole);
    } else if kind == 4 {
      var ok1, term := c.U64();
      var ok2, success := Flag(c);
      ghost var rest := c.Rest();
      var ok3, w := Fields(c, 3);
      WordsCount(rest, 3);
      ok := ok1 && ok2 && ok3;
      if ok {
        m := AppendResponse(term, success, w[0], w[1], w[2]);
      }
    } else if kind == 5 {
      ok, m := SnapshotOf(c);
    } else {
      ok := false;
    }
  }

  method AppendOf(c: Cursor, whole: nat) returns (ok: bool, m: Message)
    requires c.Valid()
    modifies c
    ensures c.Valid() && (ok <==> ReadAppendRequest(old(c.Rest()), whole).Got?)
    ensures ok ==> ReadAppendRequest(old(c.Rest()), whole) == Got(m, c.Rest())
  {
    hide Words, DecodeEntries;
    m := VoteResponse(0, false);
    var good, w := Fields(c, 7);
    WordsCount(old(c.Rest()), 7);
    if !good || w[6] > whole {
      ok := false;
      return;
    }
    var es;
    ok, es := Entries(c, w[6]);
    m := AppendRequest(w[0], w[1], w[2], w[3], w[4], w[5], es);
  }

  method SnapshotOf(c: Cursor) returns (ok: bool, m: Message)
    requires c.Valid()
    modifies c
    ensures c.Valid() && (ok <==> ReadSnapshotRequest(old(c.Rest())).Got?)
    ensures ok ==> ReadSnapshotRequest(old(c.Rest())) == Got(m, c.Rest())
  {
    hide Words, ReadBool, ReadBytes;
    m := VoteResponse(0, false);
    var ok1, w := Fields(c, 5);
    WordsCount(old(c.Rest()), 5);
    var ok2, done := Flag(c);
    var ok3, data := c.ByteString();
    ok := ok1 && ok2 && ok3;
    if ok {
      m := SnapshotRequest(w[0], w[1], w[2], w[3], w[4], done, data);
    }
  }

  method DecodeMessage(payload: Bytes) returns (r: Option<(Word, Message)>)
    ensures r == MessageCodec.Decode(payload)
  {
    hide ReadBody, ReadU8, ReadU64;
    var c := new Cursor(payload, 0);
    assert payload[0..] == payload;
    var ok1, version := c.U8();
    if !ok1 || version != VERSION {
      return None;
    }
    var ok2, group := c.U64();
    if !ok2 {
      return None;
    }
    var ok3, kind := c.U8();
    if !ok3 {
      return None;
    }
    var ok, m := BodyOf(c, kind, |payload|);
    if !ok || c.offset != |payload| {
      return None;
    }
    return Some((group, m));
  }

}
