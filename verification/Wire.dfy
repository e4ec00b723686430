/**
 Big-endian fields and length-prefixed byte strings: the pieces every encoded
 message, payload and snapshot is made of. Reading inverts writing, and what was
 read is exactly what stands at the front of the input.
 */
module Wire {
  import opened Bytes
  import opened KeyCodec

  type Word32 = x: int | 0 <= x < 0x1_0000_0000

  // A field read from the front of the input, and the rest of it.
  datatype Read<+T> = Got(value: T, rest: Bytes) | Short

  // Strings longer than a machine word can count do not exist.
  predicate Sized(b: Bytes) {
    |b| < TWO_64
  }

  function PutU64(v: Word): Bytes {
    BigEndian(v, 8)
  }

  function PutU32(v: Word32): Bytes {
    BigEndian(v, 4)
  }

  function PutBool(b: bool): Bytes {
    [if b then 1 else 0]
  }

  function PutBytes(b: Bytes): Bytes
    requires Sized(b)
  {
    PutU64(|b|) + b
  }

  function ReadU8(d: Bytes): Read<Byte> {
    if d == [] then Short else Got(d[0], d[1..])
  }

  function ReadU64(d: Bytes): Read<Word> {
    if |d| < 8 then Short
    else
      EightBytes(); UnsignedRoundTrip(d[..8]);
      Got(Unsigned(d[..8]), d[8..])
  }

  lemma FourBytes()
    ensures Pow256(4) == 0x1_0000_0000
  {
  }

  function ReadU32(d: Bytes): Read<Word32> {
    if |d| < 4 then Short
    else
      FourBytes(); UnsignedRoundTrip(d[..4]);
      Got(Unsigned(d[..4]), d[4..])
  }

  function ReadBool(d: Bytes): Read<bool> {
    match ReadU8(d)
    case Got(b, rest) => if b > 1 then Short else Got(b == 1, rest)
    case Short => Short
  }

  function ReadBytes(d: Bytes): Read<Bytes> {
    match ReadU64(d)
    case Got(n, rest) => if n > |rest| then Short else Got(rest[..n], rest[n..])
    case Short => Short
  }

  // ------------------------------------------------------ reading what was put

  lemma PutU64Read(v: Word, rest: Bytes)
    ensures ReadU64(PutU64(v) + rest) == Got(v, rest)
  {
    var d := PutU64(v) + rest;
    EightBytes();
    BigEndianRoundTrip(v, 8);
    assert d[..8] == PutU64(v) && d[8..] == rest;
  }

  lemma PutU32Read(v: Word32, rest: Bytes)
    ensures ReadU32(PutU32(v) + rest) == Got(v, rest)
  {
    var d := PutU32(v) + rest;
    FourBytes();
    BigEndianRoundTrip(v, 4);
    assert d[..4] == PutU32(v) && d[4..] == rest;
  }

  lemma PutByteRead(b: Byte, rest: Bytes)
    ensures ReadU8([b] + rest) == Got(b, rest)
  {
    assert ([b] + rest)[1..] == rest;
  }

  lemma PutBoolRead(b: bool, rest: Bytes)
    ensures ReadBool(PutBool(b) + rest) == Got(b, rest)
  {
    PutByteRead(if b then 1 else 0, rest);
  }

  lemma PutBytesRead(b: Bytes, rest: Bytes)
    requires Sized(b)
    ensures ReadBytes(PutBytes(b) + rest) == Got(b, rest)
  {
    PutU64Read(|b|, b + rest);
    assert PutBytes(b) + rest == PutU64(|b|) + (b + rest);
    assert (b + rest)[..|b|] == b && (b + rest)[|b|..] == rest;
  }

  // ----------------------------------------------------- putting what was read

  lemma ReadU64Put(d: Bytes)
    requires ReadU64(d).Got?
    ensures d == PutU64(ReadU64(d).value) + ReadU64(d).rest
  {
    UnsignedRoundTrip(d[..8]);
  }

  lemma ReadU32Put(d: Bytes)
    requires ReadU32(d).Got?
    ensures d == PutU32(ReadU32(d).value) + ReadU32(d).rest
  {
    UnsignedRoundTrip(d[..4]);
  }

  lemma ReadU8Put(d: Bytes)
    requires ReadU8(d).Got?
    ensures d == [ReadU8(d).value] + ReadU8(d).rest
  {
  }

  lemma ReadBoolPut(d: Bytes)
    requires ReadBool(d).Got?
    ensures d == PutBool(ReadBool(d).value) + ReadBool(d).rest
  {
  }

  lemma ReadBytesPut(d: Bytes)
    requires ReadBytes(d).Got?
    ensures Sized(ReadBytes(d).value)
    ensures d == PutBytes(ReadBytes(d).value) + ReadBytes(d).rest
  {
    ReadU64Put(d);
    var n, rest := ReadU64(d).value, ReadU64(d).rest;
    assert rest == rest[..n] + rest[n..];
  }

  // ----------------------------------------------------------------- routines

  // A reader that advances an offset through one buffer.
  class Cursor {
    const data: Bytes
    var offset: nat

    constructor (data: Bytes, offset: nat)
      requires offset <= |data|
      ensures this.data == data && this.offset == offset
    {
      this.data := data;
      this.offset := offset;
    }

    ghost predicate Valid()
      reads this
    {
      offset <= |data|
    }

    ghost function Rest(): Bytes
      reads this
      requires Valid()
    {
      data[offset..]
    }

    // `n` bytes, most significant first.
    method Number(n: nat) returns (v: nat)
      requires Valid() && offset + n <= |data|
      ensures v == Unsigned(data[offset..offset + n])
    {
      v := 0;
      for i := 0 to n
        invariant v == Unsigned(data[offset..offset + i])
      {
        assert data[offset..offset + i + 1][..i] == data[offset..offset + i];
        v := v * 256 + data[offset + i];
      }
    }

    method U64() returns (ok: bool, v: Word)
      requires Valid()
      modifies this`offset
      ensures Valid() && (ok <==> ReadU64(old(Rest())).Got?)
      ensures if ok then ReadU64(old(Rest())) == Got(v, Rest()) else offset == old(offset)
    {
      if |data| < offset + 8 {
        return false, 0;
      }
      var n := Number(8);
      assert data[offset..][..8] == data[offset..offset + 8];
      assert data[offset..][8..] == data[offset + 8..];
      EightBytes();
      UnsignedRoundTrip(data[offset..offset + 8]);
      offset := offset + 8;
      return true, n;
    }

    method U32() returns (ok: bool, v: Word32)
      requires Valid()
      modifies this`offset
      ensures Valid() && (ok <==> ReadU32(old(Rest())).Got?)
      ensures if ok then ReadU32(old(Rest())) == Got(v, Rest()) else offset == old(offset)
    {
      if |data| < offset + 4 {
        return false, 0;
      }
      var n := Number(4);
      assert data[offset..][..4] == data[offset..offset + 4];
      assert data[offset..][4..] == data[offset + 4..];
      FourBytes();
      UnsignedRoundTrip(data[offset..offset + 4]);
      offset := offset + 4;
      return true, n;
    }

    method U8() returns (ok: bool, v: Byte)
      requires Valid()
      modifies this`offset
      ensures Valid() && (ok <==> ReadU8(old(Rest())).Got?)
      ensures if ok then ReadU8(old(Rest())) == Got(v, Rest()) else offset == old(offset)
    {
      if |data| < offset + 1 {
        return false, 0;
      }
      assert data[offset..][1..] == data[offset + 1..];
      v := data[offset];
      offset := offset + 1;
      return true, v;
    }

    // A failed read may leave the offset behind the length field.
    method ByteString() returns (ok: bool, v: Bytes)
      requires Valid()
      modifies this`offset
      ensures Valid() && (ok <==> ReadBytes(old(Rest())).Got?)
      ensures ok ==> ReadBytes(old(Rest())) == Got(v, Rest())
    {
      var sized, n := U64();
      if !sized || n > |data| - offset {
        return false, [];
      }
      v := data[offset..offset + n];
      assert data[offset..][..n] == v && data[offset..][n..] == data[offset + n..];
      offset := offset + n;
      return true, v;
    }
  }

}
