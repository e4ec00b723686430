/**
 Length-prefixed frames over a byte stream. However the stream is cut into
 chunks, the incremental decoder yields exactly the payloads that were framed,
 in order.
 */
module Framing {
  import opened Bytes
  import opened KeyCodec
  import opened Wire

  const MAX_FRAME_BYTES := 64 * 1024 * 1024

  predicate Fits(p: Bytes) {
    |p| <= MAX_FRAME_BYTES
  }

  function Frame(p: Bytes): Bytes
    requires Fits(p)
  {
    PutU32(|p|) + p
  }

  predicate AllFit(ps: seq<Bytes>) {
    forall i :: 0 <= i < |ps| ==> Fits(ps[i])
  }

  function Stream(ps: seq<Bytes>): Bytes
    requires AllFit(ps)
  {
    if ps == [] then [] else Frame(ps[0]) + Stream(ps[1..])
  }

  datatype Popped = Payload(p: Bytes, rest: Bytes) | Incomplete | TooLarge

  function Pop(pending: Bytes): Popped {
    match ReadU32(pending)
    case Short => Incomplete
    case Got(size, rest) =>
      if size > MAX_FRAME_BYTES then TooLarge
      else if |rest| < size then Incomplete
      else Payload(rest[..size], rest[size..])
  }

  /** One complete frame, and nothing else, decodes to its payload. */
  lemma FrameRoundTrip(p: Bytes, rest: Bytes)
    requires Fits(p)
    ensures Pop(Frame(p) + rest) == Payload(p, rest)
  {
    PutU32Read(|p|, p + rest);
    assert Frame(p) + rest == PutU32(|p|) + (p + rest);
    assert (p + rest)[..|p|] == p && (p + rest)[|p|..] == rest;
  }

  // What has arrived of a genuine stream never pops anything but its next
  // payload, and is incomplete only while bytes are missing.
  lemma PopGenuine(pending: Bytes, missing: Bytes, ps: seq<Bytes>)
    requires AllFit(ps) && pending + missing == Stream(ps)
    ensures !Pop(pending).TooLarge?
    ensures Pop(pending).Payload? ==>
              ps != [] && Pop(pending).p == ps[0] && Pop(pending).rest + missing == Stream(ps[1..])
    ensures Pop(pending).Incomplete? && missing == [] ==> ps == []
  {
    if ps == [] {
      assert |pending| == 0;
    } else {
      var frame := Frame(ps[0]);
      FrameRoundTrip(ps[0], Stream(ps[1..]));
      if |pending| >= 4 {
        assert pending[..4] == Stream(ps)[..4];
        assert Stream(ps)[..4] == PutU32(|ps[0]|);
        var rest := pending[4..];
        BehindSize(pending, missing, ps[0], Stream(ps[1..]));
        SizeField(pending, |ps[0]|);
        if |rest| >= |ps[0]| {
          SamePrefix(rest, missing, ps[0], Stream(ps[1..]));
        }
      }
      if missing == [] {
        assert pending == Stream(ps);
      }
    }
  }

  lemma BehindSize(pending: Bytes, missing: Bytes, p: Bytes, others: Bytes)
    requires Fits(p) && |pending| >= 4 && pending + missing == Frame(p) + others
    ensures pending[4..] + missing == p + others
  {
    assert |PutU32(|p|)| == 4;
    hide PutU32;
    assert (pending + missing)[4..] == pending[4..] + missing;
    assert (Frame(p) + others)[4..] == p + others;
  }

  lemma SizeField(d: Bytes, n: Word32)
    requires |d| >= 4 && d[..4] == PutU32(n)
    ensures ReadU32(d) == Got(n, d[4..])
  {
    PutU32Read(n, d[4..]);
    assert d == PutU32(n) + d[4..];
  }

  lemma SamePrefix(a: Bytes, b: Bytes, c: Bytes, e: Bytes)
    requires a + b == c + e && |a| >= |c|
    ensures a[..|c|] == c && a[|c|..] + b == e
  {
    assert (a + b)[..|c|] == a[..|c|] && (c + e)[..|c|] == c;
    assert (a + b)[|c|..] == a[|c|..] + b && (c + e)[|c|..] == e;
  }

  // ----------------------------------------------------------------- decoder

  class FrameDecoder {
    var buffer: Bytes
    var consumed: nat

    constructor ()
      ensures Valid() && Pending() == []
    {
      buffer, consumed := [], 0;
    }

    ghost predicate Valid()
      reads this
    {
      consumed <= |buffer|
    }

    ghost function Pending(): Bytes
      reads this
      requires Valid()
    {
      buffer[consumed..]
    }

    method Append(bytes: Bytes)
      requires Valid()
      modifies this`buffer
      ensures Valid() && Pending() == old(Pending()) + bytes
    {
      buffer := buffer + bytes;
    }

    method Next() returns (r: Popped)
      requires Valid()
      modifies this
      ensures Valid() && r == Pop(old(Pending()))
      ensures Pending() == if r.Payload? then r.rest else old(Pending())
    {
      var pending := buffer[consumed..];
      if |pending| < 4 {
        return Incomplete;
      }
      var c := new Cursor(pending, 0);
      assert pending[0..] == pending;
      var ok, size := c.U32();
      if size > MAX_FRAME_BYTES {
        return TooLarge;
      }
      if |pending| - 4 < size {
        return Incomplete;
      }
      assert pending[4..][..size] == pending[4..4 + size];
      assert pending[4..][size..] == pending[4 + size..] == buffer[consumed + 4 + size..];
      r := Payload(pending[4..4 + size], pending[4 + size..]);
      consumed := consumed + 4 + size;
      if consumed == |buffer| {
        buffer, consumed := [], 0;
      }
    }
  }

  function Concat(chunks: seq<Bytes>): Bytes {
    if chunks == [] then [] else chunks[0] + Concat(chunks[1..])
  }

  // Pops every complete frame of what has arrived so far.
  method Drain(decoder: FrameDecoder, ghost missing: Bytes, ghost ps: seq<Bytes>) returns (out: seq<Bytes>)
    requires decoder.Valid() && AllFit(ps) && decoder.Pending() + missing == Stream(ps)
    modifies decoder
    ensures decoder.Valid() && |out| <= |ps| && out == ps[..|out|]
    ensures decoder.Pending() + missing == Stream(ps[|out|..])
    ensures missing == [] ==> |out| == |ps|
  {
    hide Pop, Stream;
    out := [];
    assert ps[0..] == ps;
    while true
      invariant decoder.Valid() && |out| <= |ps| && out == ps[..|out|]
      invariant decoder.Pending() + missing == Stream(ps[|out|..])
      decreases |ps| - |out|
    {
      PopGenuine(decoder.Pending(), missing, ps[|out|..]);
      var popped := decoder.Next();
      if !popped.Payload? {
        return;
      }
      assert ps[|out|..][1..] == ps[|out| + 1..];
      out := out + [popped.p];
    }
  }

  /**
   The receiving loop: append what a read returned, pop every complete frame.
   For every list of payloads within the limit and every way of cutting their
   frames into chunks it yields those payloads in order, without an error.
   */
  method Receive(chunks: seq<Bytes>, ghost ps: seq<Bytes>) returns (out: seq<Bytes>)
    requires AllFit(ps) && Concat(chunks) == Stream(ps)
    ensures out == ps
  {
    hide Stream;
    var decoder := new FrameDecoder();
    out := [];
    assert [] + Concat(chunks) == Concat(chunks) && chunks[0..] == chunks && ps[0..] == ps;
    for i := 0 to |chunks|
      invariant decoder.Valid() && fresh(decoder) && |out| <= |ps| && out == ps[..|out|]
      invariant decoder.Pending() + Concat(chunks[i..]) == Stream(ps[|out|..])
      invariant i == |chunks| > 0 ==> |out| == |ps|
    {
      ghost var missing := Concat(chunks[i + 1..]);
      assert chunks[i..][1..] == chunks[i + 1..];
      assert decoder.Pending() + (chunks[i] + missing) == (decoder.Pending() + chunks[i]) + missing;
      decoder.Append(chunks[i]);
      var more := Drain(decoder, missing, ps[|out|..]);
      assert ps[|out|..][|more|..] == ps[|out| + |more|..];
      out := out + more;
    }
    if chunks == [] {
      NothingFramed(ps);
    }
  }

  lemma NothingFramed(ps: seq<Bytes>)
    requires AllFit(ps) && Stream(ps) == []
    ensures ps == []
  {
  }

}
