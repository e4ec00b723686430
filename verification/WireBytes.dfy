/**
 The formats byte by byte. The round trips elsewhere hold for any pair of writer
 and reader that agree; here the writers are held to the published layouts.
 */
module WireBytes {
  import opened Bytes
  import opened SqlValues
  import opened KeyCodec
  import opened Wire
  import opened LogStore
  import opened KvStore
  import opened MessageCodec
  import opened KeyLogStore
  import Framing
  import Snapshot
  import PP = ProposalPayload

  function Zeros(n: nat): Bytes {
    seq(n, _ => 0)
  }

  // A number below 256 as a 64-bit field.
  function W8(v: Byte): Bytes {
    [0, 0, 0, 0, 0, 0, 0, v]
  }

  lemma {:induction false} SmallNumber(v: Byte, n: nat)
    requires n > 0
    ensures BigEndian(v, n) == Zeros(n - 1) + [v]
  {
    if n > 1 {
      SmallNumber(0, n - 1);
      assert Zeros(n - 2) + [0] == Zeros(n - 1);
    } else {
      assert BigEndian(0, 0) == [] == Zeros(0);
    }
  }

  lemma SmallField(v: Byte)
    ensures PutU64(v) == W8(v) && PutU32(v) == [0, 0, 0, v]
  {
    SmallNumber(v, 8);
    SmallNumber(v, 4);
  }

  lemma SmallEight(v: Byte)
    ensures BigEndian(v, 8) == W8(v)
  {
    SmallNumber(v, 8);
  }

  lemma SmallBytes(b: Bytes)
    requires |b| < 256
    ensures PutBytes(b) == W8(|b|) + b
  {
    SmallField(|b|);
  }

  // ----------------------------------------------------------------- messages

  /** The first ten bytes: version 3, the group, and the kind. */
  lemma MessageHeaders(group: Byte, m: Message)
    requires Encodable(m)
    ensures |Encode(group, m)| >= 10
    ensures Encode(group, m)[..10] ==
            [3, 0, 0, 0, 0, 0, 0, 0, group,
             if m.VoteRequest? then 1 else if m.VoteResponse? then 2 else if m.AppendRequest? then 3
             else if m.AppendResponse? then 4 else if m.SnapshotRequest? then 5 else 6]
  {
    hide Body, PutU64;
    SmallField(group);
  }

  /** The fields of each kind in the order of the wire. */
  lemma MessageFields(a: Byte, b: Byte, c: Byte, d: Byte, e: Byte, yes: bool)
    ensures var t := if yes then 1 else 0;
            && Body(VoteRequest(a, b, c, d)) == W8(a) + (W8(b) + (W8(c) + W8(d)))
            && Body(VoteResponse(a, yes)) == W8(a) + [t]
            && Body(AppendResponse(a, yes, c, d, e)) == W8(a) + ([t] + (W8(c) + (W8(d) + W8(e))))
            && Body(SnapshotResponse(a, yes)) == W8(a) + [t]
  {
    hide PutU64;
    SmallField(a); SmallField(b); SmallField(c); SmallField(d); SmallField(e);
  }

  lemma RequestFields(a: Byte, b: Byte, c: Byte, d: Byte, e: Byte, f: Byte, i: Byte, t: Byte, x: Byte, yes: bool)
    ensures Body(AppendRequest(a, b, c, d, e, f, [LogEntry(i, t, [x])])) ==
            W8(a) + (W8(b) + (W8(c) + (W8(d) + (W8(e) + (W8(f) + (W8(1) + (W8(i) + (W8(t) + (W8(1) + [x]))))))))) &&
            Body(SnapshotRequest(a, b, c, d, e, yes, [x])) ==
            W8(a) + (W8(b) + (W8(c) + (W8(d) + (W8(e) + ([if yes then 1 else 0] + (W8(1) + [x]))))))
  {
    OneEntry(LogEntry(i, t, [x]), i, t, x);
    hide PutU64, EncodeEntries, PutBytes;
    SmallField(a); SmallField(b); SmallField(c); SmallField(d); SmallField(e); SmallField(f); SmallField(1);
    SmallBytes([x]);
  }

  lemma OneEntry(e: LogEntry, i: Byte, t: Byte, x: Byte)
    requires e == LogEntry(i, t, [x])
    ensures EncodeEntries([e]) == W8(i) + (W8(t) + (W8(1) + [x]))
  {
    hide PutU64, PutBytes;
    SmallField(i);
    SmallField(t);
    SmallBytes([x]);
    assert EncodeEntries([e][1..]) == [];
    assert PutBytes(e.data) + [] == PutBytes(e.data);
  }

  // --------------------------------------------------------------- other forms

  /** An entry's key is "log/" and the index; a frame is its 32-bit length and the payload. */
  lemma KeysAndFrames(n: Byte, p: Bytes)
    requires |p| < 256
    ensures LogKey(n) == [0x6c, 0x6f, 0x67, 0x2f, 0, 0, 0, 0, 0, 0, 0, n]
    ensures Framing.Frame(p) == [0, 0, 0, |p|] + p
    ensures KeyLogStore.EncodeEntry(LogEntry(1, n, p)) == W8(n) + p
    ensures EncodeMeta(SnapshotMeta(n, |p|)) == W8(n) + W8(|p|)
  {
    SmallEight(n);
    SmallEight(|p|);
    SmallField(|p|);
    hide BigEndian, PutU32;
  }

  /** A snapshot is "SQSN", version 1, the number of pairs and each pair with its lengths. */
  lemma SnapshotBytes(k: Byte, v: Byte)
    ensures Snapshot.EncodeSnapshot([([k], [v])]) ==
            [0x53, 0x51, 0x53, 0x4e] + ([0, 0, 0, 1] + (W8(1) + ((W8(1) + [k]) + (W8(1) + [v]))))
  {
    hide PutU64, PutU32, PutBytes;
    SmallField(1);
    SmallBytes([k]);
    SmallBytes([v]);
    var ps: Snapshot.Pairs := [([k], [v])];
    assert Snapshot.EncodePairs(ps[1..]) == [];
    assert PutBytes([v]) + [] == PutBytes([v]);
  }

  /** A payload is "SQRA", version 1, client, request, the number of operations and their four fields each. */
  lemma PayloadBytes(c: Byte, r: Byte, k: Byte, v: Byte)
    ensures PP.Encode(PP.Payload(c, r, [])) ==
            [0x53, 0x51, 0x52, 0x41] + ([0, 0, 0, 1] + (W8(c) + (W8(r) + (W8(0) + []))))
    ensures PP.EncodeOp(Put([k], [v])) == [1] + ((W8(1) + [k]) + ([1] + ((W8(1) + [v]) + (W8(0) + []))))
    ensures PP.EncodeOp(Remove([k])) == [2] + ((W8(1) + [k]) + ([0] + (W8(0) + [])))
    ensures PP.EncodeOp(RemoveRange([k], [v])) == [3] + ((W8(1) + [k]) + ([0] + (W8(1) + [v])))
  {
    hide PutU64, PutU32, PutBytes;
    SmallField(c); SmallField(r); SmallField(0); SmallField(1);
    SmallBytes([k]); SmallBytes([v]); SmallBytes([]);
  }

  // -------------------------------------------------------------------- keys

  lemma {:induction false} TopBit(n: nat)
    requires n > 0
    ensures BigEndian(128 * Pow256(n - 1), n) == [128] + Zeros(n - 1)
  {
    if n > 1 {
      TopBit(n - 1);
      var u := 128 * Pow256(n - 1);
      assert u == 256 * (128 * Pow256(n - 2));
      assert [128] + Zeros(n - 2) + [0] == [128] + Zeros(n - 1);
    } else {
      assert BigEndian(0, 0) == [];
    }
  }

  /**
   A key is a family byte, a flag and the payload: integers, dates and times
   begin with the flipped sign bit, text escapes NUL and ends in one.
   */
  lemma KeyBytes(n: Byte, a: Byte, b: Byte)
    requires a > 0 && b > 0
    ensures KeyOf(Int(n)) == KeyOf(Days(n)) == KeyOf(Clock(n)) == KeyOf(Stamp(n)) == [1, 1, 128, 0, 0, 0, 0, 0, 0, n]
    ensures KeyOf(Str([a, 0, b])) == [2, 1, a, 0, 255, b, 0]
    ensures KeyOf(Bool(false)) == [3, 1, 0] && KeyOf(Bool(true)) == [3, 1, 1]
    ensures KeyOf(Null) == [0, 0] && StoredKey(Null, Text) == [2, 0]
    ensures UpperKey(Unknown) == [255] && UpperKey(Integer) == [2] && UpperKey(Text) == [3] && UpperKey(Boolean) == [4]
  {
    IntegerBytes(n);
    EscapedBytes(a, b);
  }

  lemma EscapedBytes(a: Byte, b: Byte)
    requires a > 0 && b > 0
    ensures Escape([a, 0, b]) == [a, 0, 255, b, 0]
  {
    assert [b][1..] == [] && [0, b][1..] == [b] && [a, 0, b][1..] == [0, b];
    assert Escape([b]) == [b, 0];
    assert Escape([0, b]) == [0, 255, b, 0];
  }

  lemma IntegerBytes(n: Byte)
    ensures BigEndian(ToOrdered(n), 8) == [128, 0, 0, 0, 0, 0, 0, n]
  {
    TopBit(7);
    assert Pow256(6) == 0x1_0000_0000_0000 by { assert Pow256(3) == 0x100_0000; }
    assert ToOrdered(n) / 256 == 128 * Pow256(6) && ToOrdered(n) % 256 == n;
  }
}
