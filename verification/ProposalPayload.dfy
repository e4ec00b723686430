/**
 The data of a log entry: client, request number and a write batch. Decoding
 gives back every well-formed batch that was encoded; accepted bytes are the
 encoding of their result exactly when no operation carries a field it drops.
 */
module ProposalPayload {
  import opened Wrappers
  import opened Bytes
  import opened KeyCodec
  import opened Wire
  import opened KvStore

  // "SQRA"
  const MAGIC: Bytes := [83, 81, 82, 65]
  const PAYLOAD_VERSION: Word32 := 1
  const HEADER_SIZE: nat := 4 + 4 + 8 * 3

  datatype Payload = Payload(client: Word, request: Word, batch: Batch)

  predicate SizedOp(op: Op) {
    match op
    case Put(k, v) => Sized(k) && Sized(v)
    case Remove(k) => Sized(k)
    case RemoveRange(start, end) => Sized(start) && Sized(end)
  }

  predicate SizedBatch(b: Batch) {
    |b| < TWO_64 && forall i :: 0 <= i < |b| ==> SizedOp(b[i])
  }

  function EncodeOp(op: Op): Bytes
    requires SizedOp(op)
  {
    match op
    case Put(k, v) => [1] + (PutBytes(k) + ([1] + (PutBytes(v) + PutBytes([]))))
    case Remove(k) => [2] + (PutBytes(k) + ([0] + PutBytes([])))
    case RemoveRange(start, end) => [3] + (PutBytes(start) + ([0] + PutBytes(end)))
  }

  function EncodeOps(b: Batch): Bytes
    requires forall i :: 0 <= i < |b| ==> SizedOp(b[i])
  {
    if b == [] then [] else EncodeOp(b[0]) + EncodeOps(b[1..])
  }

  function Encode(p: Payload): Bytes
    requires SizedBatch(p.batch)
  {
    MAGIC + (PutU32(PAYLOAD_VERSION) + (PutU64(p.client) + (PutU64(p.request) +
    (PutU64(|p.batch|) + EncodeOps(p.batch)))))
  }

  // The optional value in front of the range end.
  function ReadValue(d: Bytes): Read<Option<Bytes>> {
    match ReadU8(d)
    case Short => Short
    case Got(flag, rest) =>
      if flag == 0 then Got(None, rest)
      else if flag == 1 then
        match ReadBytes(rest)
        case Short => Short
        case Got(v, end) => Got(Some(v), end)
      else Short
  }

  // The fields of an operation as they stand in the bytes.
  datatype Fields = Fields(kind: Byte, key: Bytes, value: Option<Bytes>, rangeEnd: Bytes)

  function ReadFields(d: Bytes): Read<Fields> {
    match ReadU8(d)
    case Short => Short
    case Got(kind, d1) =>
      match ReadBytes(d1)
      case Short => Short
      case Got(key, d2) =>
        match ReadValue(d2)
        case Short => Short
        case Got(value, d3) =>
          match ReadBytes(d3)
          case Short => Short
          case Got(rangeEnd, rest) => Got(Fields(kind, key, value, rangeEnd), rest)
  }

  function MakeOp(f: Fields): Option<Op> {
    if f.kind == 1 then (if f.value.Some? then Some(Put(f.key, f.value.value)) else None)
    else if f.kind == 2 then Some(Remove(f.key))
    else if f.kind == 3 then (if Less(f.key, f.rangeEnd) then Some(RemoveRange(f.key, f.rangeEnd)) else None)
    else None
  }

  function ReadOp(d: Bytes): Read<Op> {
    match ReadFields(d)
    case Short => Short
    case Got(f, rest) =>
      match MakeOp(f)
      case None => Short
      case Some(op) => Got(op, rest)
  }

  function ReadOps(d: Bytes, count: nat): Read<Batch> {
    if count == 0 then Got([], d)
    else
      match ReadOp(d)
      case Short => Short
      case Got(op, rest) =>
        match ReadOps(rest, count - 1)
        case Short => Short
        case Got(ops, end) => Got([op] + ops, end)
  }

  function DecodeFields(d: Bytes, whole: nat): Option<Payload> {
    match ReadU32(d)
    case Short => None
    case Got(version, d1) =>
      if version != PAYLOAD_VERSION then None
      else
        match ReadU64(d1)
        case Short => None
        case Got(client, d2) =>
          match ReadU64(d2)
          case Short => None
          case Got(request, d3) =>
            match ReadU64(d3)
            case Short => None
            case Got(count, d4) =>
              if count > whole then None
              else
                match ReadOps(d4, count)
                case Short => None
                case Got(ops, rest) => if rest == [] then Some(Payload(client, request, ops)) else None
  }

  function Decode(data: Bytes): Option<Payload> {
    if |data| < HEADER_SIZE || data[..4] != MAGIC then None
    else DecodeFields(data[4..], |data|)
  }

  // --------------------------------------------------------------- round trip

  function PutValue(v: Option<Bytes>): Bytes
    requires v.Some? ==> Sized(v.value)
  {
    if v.Some? then [1] + PutBytes(v.value) else [0]
  }

  lemma ValueRoundTrip(v: Option<Bytes>, rest: Bytes)
    requires v.Some? ==> Sized(v.value)
    ensures ReadValue(PutValue(v) + rest) == Got(v, rest)
  {
    hide PutBytes, ReadBytes;
    if v.Some? {
      PutByteRead(1, PutBytes(v.value) + rest);
      PutBytesRead(v.value, rest);
      assert PutValue(v) + rest == [1] + (PutBytes(v.value) + rest);
    } else {
      PutByteRead(0, rest);
    }
  }

  predicate SizedFields(f: Fields) {
    Sized(f.key) && Sized(f.rangeEnd) && (f.value.Some? ==> Sized(f.value.value))
  }

  function PutFields(f: Fields): Bytes
    requires SizedFields(f)
  {
    [f.kind] + (PutBytes(f.key) + (PutValue(f.value) + PutBytes(f.rangeEnd)))
  }

  // The four fields are read back, whatever they hold.
  lemma FieldsRead(f: Fields, rest: Bytes)
    requires SizedFields(f)
    ensures ReadFields(PutFields(f) + rest) == Got(f, rest)
  {
    hide PutBytes, ReadBytes, ReadU8, ReadValue, PutValue;
    var d3 := PutBytes(f.rangeEnd) + rest;
    var d2 := PutValue(f.value) + d3;
    PutByteRead(f.kind, PutBytes(f.key) + d2);
    PutBytesRead(f.key, d2);
    ValueRoundTrip(f.value, d3);
    PutBytesRead(f.rangeEnd, rest);
    assert PutFields(f) + rest == [f.kind] + (PutBytes(f.key) + d2);
  }

  // The encoder leaves the fields an operation does not use empty.
  function FieldsOf(op: Op): Fields {
    match op
    case Put(k, v) => Fields(1, k, Some(v), [])
    case Remove(k) => Fields(2, k, None, [])
    case RemoveRange(start, end) => Fields(3, start, None, end)
  }

  lemma EncodedFields(op: Op)
    requires SizedOp(op)
    ensures SizedFields(FieldsOf(op)) && EncodeOp(op) == PutFields(FieldsOf(op))
  {
    hide PutBytes;
    if op.Put? {
      assert [1] + (PutBytes(op.value) + PutBytes([])) == ([1] + PutBytes(op.value)) + PutBytes([]);
    }
  }

  lemma OpRoundTrip(op: Op, rest: Bytes)
    requires SizedOp(op) && ValidOp(op)
    ensures ReadOp(EncodeOp(op) + rest) == Got(op, rest)
  {
    hide PutFields, EncodeOp, ReadFields;
    EncodedFields(op);
    FieldsRead(FieldsOf(op), rest);
  }

  lemma {:induction false} OpsRoundTrip(b: Batch, rest: Bytes)
    requires forall i :: 0 <= i < |b| ==> SizedOp(b[i]) && ValidOp(b[i])
    ensures ReadOps(EncodeOps(b) + rest, |b|) == Got(b, rest)
  {
    hide ReadOp, EncodeOp, SizedOp, ValidOp;
    if b == [] {
      assert EncodeOps(b) + rest == rest;
    } else {
      var tail := EncodeOps(b[1..]) + rest;
      OpsRoundTrip(b[1..], rest);
      OpRoundTrip(b[0], tail);
      assert EncodeOps(b) + rest == EncodeOp(b[0]) + tail;
      assert b == [b[0]] + b[1..];
    }
  }

  lemma {:induction false} OpsTakeRoom(b: Batch)
    requires forall i :: 0 <= i < |b| ==> SizedOp(b[i])
    ensures |EncodeOps(b)| >= |b|
  {
    hide EncodeOp, SizedOp;
    if b != [] {
      OpTakesRoom(b[0]);
      OpsTakeRoom(b[1..]);
    }
  }

  lemma OpTakesRoom(op: Op)
    requires SizedOp(op)
    ensures |EncodeOp(op)| >= 1
  {
  }

  /** Every well-formed payload survives encoding and decoding. */
  lemma DecodeAfterEncode(p: Payload)
    requires SizedBatch(p.batch) && ValidBatch(p.batch)
    ensures Decode(Encode(p)) == Some(p)
  {
    hide ReadOps, EncodeOps, Decode, Encode, Header;
    var ops := EncodeOps(p.batch);
    EncodeBehindHeader(p);
    OpsTakeRoom(p.batch);
    HeaderRead(p.client, p.request, |p.batch|, ops);
    OpsRoundTrip(p.batch, []);
    assert ops + [] == ops;
  }

  // ------------------------------------------------------- encoding what was read

  // Only a put has a value and only a range removal has an end.
  predicate Plain(f: Fields) {
    (f.kind != 1 ==> f.value.None?) && (f.kind != 3 ==> f.rangeEnd == [])
  }

  predicate AllPlain(d: Bytes, count: nat) {
    count == 0 ||
    match ReadFields(d)
    case Short => false
    case Got(f, rest) => Plain(f) && AllPlain(rest, count - 1)
  }

  lemma ReadFieldsPut(d: Bytes)
    requires ReadFields(d).Got?
    ensures SizedFields(ReadFields(d).value)
    ensures d == PutFields(ReadFields(d).value) + ReadFields(d).rest
  {
    hide PutBytes, ReadBytes, ReadU8;
    ReadU8Put(d);
    var d1 := ReadU8(d).rest;
    ReadBytesPut(d1);
    var d2 := ReadBytes(d1).rest;
    ReadValuePut(d2);
    var d3 := ReadValue(d2).rest;
    ReadBytesPut(d3);
    var f, rest := ReadFields(d).value, ReadFields(d).rest;
    assert d2 == PutValue(f.value) + (PutBytes(f.rangeEnd) + rest);
    assert d == [f.kind] + (PutBytes(f.key) + (PutValue(f.value) + (PutBytes(f.rangeEnd) + rest)));
  }

  lemma ReadValuePut(d: Bytes)
    requires ReadValue(d).Got?
    ensures ReadValue(d).value.Some? ==> Sized(ReadValue(d).value.value)
    ensures d == PutValue(ReadValue(d).value) + ReadValue(d).rest
  {
    hide PutBytes, ReadBytes, ReadU8;
    ReadU8Put(d);
    var flag, rest := ReadU8(d).value, ReadU8(d).rest;
    if flag == 1 {
      ReadBytesPut(rest);
      assert d == [1] + (PutBytes(ReadBytes(rest).value) + ReadBytes(rest).rest);
    }
  }

  // A dropped field makes the operation's own encoding strictly shorter.
  lemma PlainIsShortest(f: Fields)
    requires SizedFields(f) && MakeOp(f).Some?
    ensures var op := MakeOp(f).value;
            && SizedOp(op) && ValidOp(op)
            && (Plain(f) ==> EncodeOp(op) == PutFields(f))
            && (!Plain(f) ==> |EncodeOp(op)| < |PutFields(f)|)
  {
    var op := MakeOp(f).value;
    EncodedFields(op);
    var g := FieldsOf(op);
    assert Plain(f) ==> f == g;
    assert |PutFields(f)| == 1 + |PutBytes(f.key)| + |PutValue(f.value)| + |PutBytes(f.rangeEnd)|;
    assert |PutFields(g)| == 1 + |PutBytes(g.key)| + |PutValue(g.value)| + |PutBytes(g.rangeEnd)|;
  }

  lemma {:induction false} OpsAfterRead(d: Bytes, count: nat)
    requires ReadOps(d, count).Got?
    ensures var ops, rest := ReadOps(d, count).value, ReadOps(d, count).rest;
            && |ops| == count && (forall i :: 0 <= i < |ops| ==> SizedOp(ops[i]) && ValidOp(ops[i]))
            && (AllPlain(d, count) ==> d == EncodeOps(ops) + rest)
            && (!AllPlain(d, count) ==> |EncodeOps(ops)| + |rest| < |d|)
    decreases count
  {
    hide ReadFields, MakeOp, EncodeOp, PutFields, Plain, SizedOp, ValidOp, SizedFields;
    if count > 0 {
      var f, rest := ReadFields(d).value, ReadFields(d).rest;
      ReadFieldsPut(d);
      PlainIsShortest(f);
      OpsAfterRead(rest, count - 1);
      var op, more, end := MakeOp(f).value, ReadOps(rest, count - 1).value, ReadOps(rest, count - 1).rest;
      assert ReadOps(d, count) == Got([op] + more, end);
      assert ([op] + more)[1..] == more;
      assert EncodeOps([op] + more) == EncodeOp(op) + EncodeOps(more);
      if AllPlain(d, count) {
        assert d == EncodeOp(op) + (EncodeOps(more) + end);
      } else {
        OpsLength(rest, more, end, count - 1);
      }
    }
  }

  lemma OpsLength(d: Bytes, ops: Batch, rest: Bytes, count: nat)
    requires forall i :: 0 <= i < |ops| ==> SizedOp(ops[i])
    requires AllPlain(d, count) ==> d == EncodeOps(ops) + rest
    requires !AllPlain(d, count) ==> |EncodeOps(ops)| + |rest| < |d|
    ensures |EncodeOps(ops)| + |rest| <= |d|
  {
  }

  // The announced count stands in the last header field, the operations behind it.
  predicate PlainPayload(data: Bytes)
    requires |data| >= HEADER_SIZE
  {
    AllPlain(data[HEADER_SIZE..], Unsigned(data[HEADER_SIZE - 8..HEADER_SIZE]))
  }

  // The header in front of the operations.
  function Header(client: Word, request: Word, count: Word): Bytes {
    MAGIC + (PutU32(PAYLOAD_VERSION) + (PutU64(client) + (PutU64(request) + PutU64(count))))
  }

  lemma HeaderLength(client: Word, request: Word, count: Word)
    ensures |Header(client, request, count)| == HEADER_SIZE
  {
  }

  lemma HeaderPut(data: Bytes)
    requires Decode(data).Some?
    ensures |data| >= HEADER_SIZE
    ensures var p := Decode(data).value;
            var count := Unsigned(data[HEADER_SIZE - 8..HEADER_SIZE]);
            && count < TWO_64 && data == Header(p.client, p.request, count) + data[HEADER_SIZE..]
            && ReadOps(data[HEADER_SIZE..], count) == Got(p.batch, [])
  {
    hide ReadOps;
    var d := data[4..];
    ReadU32Put(d);
    var d1 := ReadU32(d).rest;
    ReadU64Put(d1);
    var d2 := ReadU64(d1).rest;
    ReadU64Put(d2);
    var d3 := ReadU64(d2).rest;
    ReadU64Put(d3);
    var count, d4 := ReadU64(d3).value, ReadU64(d3).rest;
    assert d4 == data[HEADER_SIZE..];
    assert d3[..8] == data[HEADER_SIZE - 8..HEADER_SIZE];
    assert data == MAGIC + d;
  }

  lemma EncodeBehindHeader(p: Payload)
    requires SizedBatch(p.batch)
    ensures Encode(p) == Header(p.client, p.request, |p.batch|) + EncodeOps(p.batch)
  {
    hide PutU64, PutU32, EncodeOps;
    var ops := EncodeOps(p.batch);
    var d3 := PutU64(|p.batch|);
    assert PutU64(p.request) + (d3 + ops) == (PutU64(p.request) + d3) + ops;
  }

  /** Accepted bytes are the encoding of their result iff every operation in them is plain. */
  lemma EncodeAfterDecode(data: Bytes)
    requires Decode(data).Some?
    ensures |data| >= HEADER_SIZE
    ensures var p := Decode(data).value;
            SizedBatch(p.batch) && ValidBatch(p.batch) && (Encode(p) == data <==> PlainPayload(data))
  {
    hide Decode, Encode, ReadOps, AllPlain, EncodeOps, SizedOp, ValidOp, Header, Unsigned;
    HeaderPut(data);
    var p := Decode(data).value;
    var count := Unsigned(data[HEADER_SIZE - 8..HEADER_SIZE]);
    var d := data[HEADER_SIZE..];
    OpsAfterRead(d, count);
    EncodeBehindHeader(p);
    assert EncodeOps(p.batch) + [] == EncodeOps(p.batch);
  }

  /**
   A whole payload that fails it: the removal of a key that also carries a value
   decodes to the plain removal, whose encoding is shorter.
   */
  lemma UnusedFieldsAreDropped(client: Word, request: Word, key: Bytes, v: Bytes)
    requires Sized(key) && Sized(v)
    ensures var data := Header(client, request, 1) + PutFields(Fields(2, key, Some(v), []));
            var p := Payload(client, request, [Remove(key)]);
            && Decode(data) == Some(p) && SizedBatch(p.batch) && !PlainPayload(data) && Encode(p) != data
  {
    hide Decode, Encode, PutFields, Header, AllPlain, ReadOps, Unsigned, PutBytes;
    var ops := PutFields(Fields(2, key, Some(v), []));
    var data := Header(client, request, 1) + ops;
    RemovalWithValue(key, v);
    HeaderRead(client, request, 1, ops);
    assert SizedOp(Remove(key));
    EncodeAfterDecode(data);
  }

  lemma RemovalWithValue(key: Bytes, v: Bytes)
    requires Sized(key) && Sized(v)
    ensures var ops := PutFields(Fields(2, key, Some(v), []));
            ReadOps(ops, 1) == Got([Remove(key)], []) && !AllPlain(ops, 1)
  {
    hide ReadFields, PutFields;
    var f := Fields(2, key, Some(v), []);
    FieldsRead(f, []);
    assert PutFields(f) + [] == PutFields(f);
    assert ReadOps([], 0) == Got([], []);
    assert [Remove(key)] + [] == [Remove(key)];
  }

  lemma HeaderRead(client: Word, request: Word, count: Word, ops: Bytes)
    requires count <= HEADER_SIZE + |ops|
    ensures var data := Header(client, request, count) + ops;
            && |data| == HEADER_SIZE + |ops| && data[HEADER_SIZE..] == ops
            && Unsigned(data[HEADER_SIZE - 8..HEADER_SIZE]) == count
            && Decode(data) == match ReadOps(ops, count)
                               case Short => None
                               case Got(b, rest) => if rest == [] then Some(Payload(client, request, b)) else None
  {
    var data := Header(client, request, count) + ops;
    HeaderSlices(client, request, count, ops);
    hide ReadOps, ReadU32, ReadU64, PutU32, PutU64, Unsigned, Header;
    var d3 := PutU64(count) + ops;
    var d2 := PutU64(request) + d3;
    var d1 := PutU64(client) + d2;
    PutU32Read(PAYLOAD_VERSION, d1);
    PutU64Read(client, d2);
    PutU64Read(request, d3);
    PutU64Read(count, ops);
  }

  lemma HeaderSlices(client: Word, request: Word, count: Word, ops: Bytes)
    ensures var data := Header(client, request, count) + ops;
            && |data| == HEADER_SIZE + |ops| && data[HEADER_SIZE..] == ops
            && data[..4] == MAGIC
            && data[4..] == PutU32(PAYLOAD_VERSION) + (PutU64(client) + (PutU64(request) + (PutU64(count) + ops)))
            && Unsigned(data[HEADER_SIZE - 8..HEADER_SIZE]) == count
  {
    HeaderLength(client, request, count);
    EightBytes();
    BigEndianRoundTrip(count, 8);
    assert |PutU32(PAYLOAD_VERSION)| == 4 && |PutU64(client)| == |PutU64(request)| == |PutU64(count)| == 8;
    hide Unsigned, BigEndian, Pow256, PutU32, PutU64;
    Pieces(MAGIC, PutU32(PAYLOAD_VERSION), PutU64(client), PutU64(request), PutU64(count), ops);
  }

  // Five fields and what follows: the tail, the last field and all but the first.
  lemma Pieces(a: Bytes, b: Bytes, c: Bytes, d: Bytes, e: Bytes, ops: Bytes)
    ensures var data := (a + (b + (c + (d + e)))) + ops;
            var n := |a| + |b| + |c| + |d|;
            && data[..|a|] == a && data[|a|..] == b + (c + (d + (e + ops)))
            && data[n..n + |e|] == e && data[n + |e|..] == ops
  {
    var p := a + (b + (c + d));
    assert a + (b + (c + (d + e))) == p + e;
    var data := (p + e) + ops;
    assert data == p + (e + ops);
    assert data == a + (b + (c + (d + (e + ops))));
  }

  // -------------------------------------------------------------- routine

  method PutOps(out: Bytes, b: Batch) returns (r: Bytes)
    requires forall i :: 0 <= i < |b| ==> SizedOp(b[i])
    ensures r == out + EncodeOps(b)
  {
    hide EncodeOp;
    r := out;
    assert b[0..] == b;
    for i := 0 to |b|
      invariant r + EncodeOps(b[i..]) == out + EncodeOps(b)
    {
      assert b[i..][1..] == b[i + 1..];
      assert r + (EncodeOp(b[i]) + EncodeOps(b[i + 1..])) == (r + EncodeOp(b[i])) + EncodeOps(b[i + 1..]);
      r := r + EncodeOp(b[i]);
    }
    assert b[|b|..] == [] && r + [] == r;
  }

  /** The buffer the encoder fills is the image the decoder is proved to invert. */
  method EncodePayload(p: Payload) returns (out: Bytes)
    requires SizedBatch(p.batch)
    ensures out == Encode(p)
    ensures ValidBatch(p.batch) ==> Decode(out) == Some(p)
  {
    hide EncodeOps, Encode, Decode;
    out := MAGIC;
    out := out + PutU32(PAYLOAD_VERSION);
    out := out + PutU64(p.client);
    out := out + PutU64(p.request);
    out := out + PutU64(|p.batch|);
    assert out == Header(p.client, p.request, |p.batch|);
    out := PutOps(out, p.batch);
    EncodeBehindHeader(p);
    if ValidBatch(p.batch) {
      DecodeAfterEncode(p);
    }
  }

  // One operation through the offset reader.
  method OneOp(c: Cursor) returns (ok: bool, op: Op)
    requires c.Valid()
    modifies c
    ensures c.Valid() && (ok <==> ReadOp(old(c.Rest())).Got?)
    ensures ok ==> ReadOp(old(c.Rest())) == Got(op, c.Rest())
  {
    hide ReadBytes, ReadU8;
    op := Remove([]);
    var ok1, kind := c.U8();
    if !ok1 {
      return false, op;
    }
    var ok2, key := c.ByteString();
    if !ok2 {
      return false, op;
    }
    var ok3, flag := c.U8();
    if !ok3 || (flag != 0 && flag != 1) {
      return false, op;
    }
    var value := None;
    if flag == 1 {
      var ok4, v := c.ByteString();
      if !ok4 {
        return false, op;
      }
      value := Some(v);
    }
    var ok5, rangeEnd := c.ByteString();
    if !ok5 {
      return false, op;
    }
    var made := MakeOp(Fields(kind, key, value, rangeEnd));
    if made.None? {
      return false, op;
    }
    return true, made.value;
  }

  lemma NextOp(d: Bytes, n: nat, done: Batch)
    requires n > 0
    ensures ReadOp(d).Short? ==> ReadOps(d, n).Short?
    ensures ReadOp(d).Got? ==> Behind(done, ReadOps(d, n)) == Behind(done + [ReadOp(d).value], ReadOps(ReadOp(d).rest, n - 1))
  {
    hide ReadOp;
    if ReadOp(d).Got? && ReadOps(ReadOp(d).rest, n - 1).Got? {
      var op, more := ReadOp(d).value, ReadOps(ReadOp(d).rest, n - 1).value;
      assert done + ([op] + more) == done + [op] + more;
    }
  }

  function Behind(done: Batch, r: Read<Batch>): Read<Batch> {
    match r
    case Short => Short
    case Got(ops, rest) => Got(done + ops, rest)
  }

  lemma BehindNothing(r: Read<Batch>)
    ensures Behind([], r) == r
  {
    if r.Got? {
      assert [] + r.value == r.value;
    }
  }

  method Ops(c: Cursor, count: nat) returns (ok: bool, ops: Batch)
    requires c.Valid()
    modifies c
    ensures c.Valid() && (ok <==> ReadOps(old(c.Rest()), count).Got?)
    ensures ok ==> ReadOps(old(c.Rest()), count) == Got(ops, c.Rest())
  {
    hide ReadOp, ReadOps;
    ops := [];
    BehindNothing(ReadOps(c.Rest(), count));
    for i := 0 to count
      invariant c.Valid()
      invariant ReadOps(old(c.Rest()), count) == Behind(ops, ReadOps(c.Rest(), count - i))
    {
      NextOp(c.Rest(), count - i, ops);
      var good, op := OneOp(c);
      if !good {
        return false, ops;
      }
      ops := ops + [op];
    }
    NoOps(c.Rest(), ops);
    return true, ops;
  }

  lemma NoOps(d: Bytes, done: Batch)
    ensures Behind(done, ReadOps(d, 0)) == Got(done, d)
  {
    assert done + [] == done;
  }

  method DecodePayload(data: Bytes) returns (r: Option<Payload>)
    ensures r == Decode(data)
  {
    hide ReadOps, ReadU32, ReadU64;
    if |data| < HEADER_SIZE || data[..4] != MAGIC {
      return None;
    }
    var c := new Cursor(data[4..], 0);
    assert data[4..][0..] == data[4..];
    var ok1, version := c.U32();
    if !ok1 || version != PAYLOAD_VERSION {
      return None;
    }
    var ok2, client := c.U64();
    if !ok2 {
      return None;
    }
    var ok3, request := c.U64();
    if !ok3 {
      return None;
    }
    var ok4, count := c.U64();
    if !ok4 || count > |data| {
      return None;
    }
    var ok5, ops := Ops(c, count);
    if !ok5 || c.offset != |c.data| {
      return None;
    }
    return Some(Payload(client, request, ops));
  }

}
