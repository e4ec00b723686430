/**
 The key encoding (format v3): one family tag, one null flag, then the payload.
 Integers and dates are sign-flipped big-endian 64-bit words; strings escape
 NUL as 00 FF and end in 00; booleans are one byte.

 The encoding is an order embedding with an exact inverse, and a family's keys
 fill exactly the interval between its two bounds.
 */
module KeyCodec {
  import opened Wrappers
  import opened Bytes
  import opened SqlValues

  const TAG_NULL: Byte := 0
  const TAG_INT64: Byte := 1
  const TAG_STRING: Byte := 2
  const TAG_BOOL: Byte := 3
  const NULL_FLAG: Byte := 0
  const VALUE_FLAG: Byte := 1

  const TWO_63 := 0x8000_0000_0000_0000
  const TWO_64 := 0x1_0000_0000_0000_0000

  type Word = x: int | 0 <= x < 0x1_0000_0000_0000_0000

  function TagOf(ty: DataType): Byte {
    match ty
    case Integer => TAG_INT64
    case Date => TAG_INT64
    case Time => TAG_INT64
    case DateTime => TAG_INT64
    case Text => TAG_STRING
    case Boolean => TAG_BOOL
    case Unknown => TAG_NULL
  }

  // ---------------------------------------------------------------- integers

  // The cast to uint64 and the flip of bit 63, written out.
  function ToUnsigned(v: Int64): Word {
    if v < 0 then v + TWO_64 else v
  }

  function ToSigned(u: Word): Int64 {
    if u < TWO_63 then u else u - TWO_64
  }

  function FlipTop(u: Word): Word {
    if u < TWO_63 then u + TWO_63 else u - TWO_63
  }

  function ToOrdered(v: Int64): Word {
    FlipTop(ToUnsigned(v))
  }

  function FromOrdered(u: Word): Int64 {
    ToSigned(FlipTop(u))
  }

  lemma OrderedIsMonotone(a: Int64, b: Int64)
    ensures ToOrdered(a) < ToOrdered(b) <==> a < b
    ensures FromOrdered(ToOrdered(a)) == a
  {
  }

  lemma FromOrderedExact(u: Word)
    ensures ToOrdered(FromOrdered(u)) == u
  {
  }

  // The low `n` bytes of `u`, most significant first.
  function BigEndian(u: nat, n: nat): (r: Bytes)
    ensures |r| == n
  {
    if n == 0 then [] else BigEndian(u / 256, n - 1) + [u % 256]
  }

  function Unsigned(p: Bytes): nat {
    if p == [] then 0 else Unsigned(p[..|p| - 1]) * 256 + p[|p| - 1]
  }

  function Pow256(n: nat): nat {
    if n == 0 then 1 else 256 * Pow256(n - 1)
  }

  lemma {:induction false} BigEndianOrder(u: nat, w: nat, n: nat)
    requires u < Pow256(n) && w < Pow256(n)
    ensures Less(BigEndian(u, n), BigEndian(w, n)) <==> u < w
    ensures BigEndian(u, n) == BigEndian(w, n) <==> u == w
  {
    if n > 0 {
      BigEndianOrder(u / 256, w / 256, n - 1);
      LessByLast(BigEndian(u / 256, n - 1), u % 256, BigEndian(w / 256, n - 1), w % 256);
      assert BigEndian(u, n)[..n - 1] == BigEndian(u / 256, n - 1);
      assert BigEndian(w, n)[..n - 1] == BigEndian(w / 256, n - 1);
      assert BigEndian(u, n)[n - 1] == u % 256 && BigEndian(w, n)[n - 1] == w % 256;
    }
  }

  lemma {:induction false} BigEndianRoundTrip(u: nat, n: nat)
    requires u < Pow256(n)
    ensures Unsigned(BigEndian(u, n)) == u
  {
    if n > 0 {
      BigEndianRoundTrip(u / 256, n - 1);
      assert BigEndian(u, n)[..n - 1] == BigEndian(u / 256, n - 1);
    }
  }

  lemma {:induction false} UnsignedRoundTrip(p: Bytes)
    ensures Unsigned(p) < Pow256(|p|)
    ensures BigEndian(Unsigned(p), |p|) == p
  {
    if p != [] {
      UnsignedRoundTrip(p[..|p| - 1]);
      assert p == p[..|p| - 1] + [p[|p| - 1]];
    }
  }

  lemma EightBytes()
    ensures Pow256(8) == TWO_64
  {
    assert Pow256(4) == 0x1_0000_0000;
  }

  // ----------------------------------------------------------------- strings

  function Escape(s: Bytes): Bytes {
    if s == [] then [0]
    else if s[0] == 0 then [0, 255] + Escape(s[1..])
    else [s[0]] + Escape(s[1..])
  }

  function Prepended(p: Bytes, rest: Option<Bytes>): Option<Bytes> {
    if rest.Some? then Some(p + rest.value) else None
  }

  function Unescape(k: Bytes): Option<Bytes>
    decreases |k|
  {
    if k == [] then None
    else if k[0] != 0 then Prepended([k[0]], Unescape(k[1..]))
    else if |k| > 1 && k[1] == 255 then Prepended([0], Unescape(k[2..]))
    else if |k| == 1 then Some([])
    else None
  }

  lemma {:induction false} EscapeOrder(a: Bytes, b: Bytes)
    ensures Less(Escape(a), Escape(b)) <==> Less(a, b)
    decreases |a|
  {
    if a != [] && b != [] && a[0] == b[0] {
      EscapeOrder(a[1..], b[1..]);
      if a[0] == 0 {
        LessAfterPrefix([0, 255], Escape(a[1..]), Escape(b[1..]));
      } else {
        LessAfterPrefix([a[0]], Escape(a[1..]), Escape(b[1..]));
      }
    }
  }

  lemma {:induction false} EscapeRoundTrip(s: Bytes)
    ensures Unescape(Escape(s)) == Some(s)
  {
    if s != [] {
      EscapeRoundTrip(s[1..]);
      assert s == [s[0]] + s[1..];
      if s[0] == 0 {
        assert Escape(s)[2..] == Escape(s[1..]);
      } else {
        assert Escape(s)[1..] == Escape(s[1..]);
      }
    }
  }

  lemma {:induction false} UnescapeRoundTrip(k: Bytes)
    requires Unescape(k).Some?
    ensures Escape(Unescape(k).value) == k
    ensures Unescape(k + [0]).None?
    decreases |k|
  {
    if k[0] != 0 {
      UnescapeRoundTrip(k[1..]);
      assert k == [k[0]] + k[1..] && (k + [0])[1..] == k[1..] + [0];
      assert ([k[0]] + Unescape(k[1..]).value)[1..] == Unescape(k[1..]).value;
    } else if |k| > 1 {
      UnescapeRoundTrip(k[2..]);
      assert k == [0, 255] + k[2..] && (k + [0])[2..] == k[2..] + [0];
      assert ([0] + Unescape(k[2..]).value)[1..] == Unescape(k[2..]).value;
    }
  }

  // -------------------------------------------------------------------- keys

  function Payload(v: Value): Bytes
    requires !v.Null?
  {
    match v
    case Bool(b) => [if b then 1 else 0]
    case Str(s) => Escape(s)
    case Int(n) => BigEndian(ToOrdered(n), 8)
    case Days(n) => BigEndian(ToOrdered(n), 8)
    case Clock(n) => BigEndian(ToOrdered(n), 8)
    case Stamp(n) => BigEndian(ToOrdered(n), 8)
  }

  function NullKey(ty: DataType): Bytes {
    [TagOf(ty), NULL_FLAG]
  }

  // The key under which a column of type `ty` stores `v`.
  function StoredKey(v: Value, ty: DataType): Bytes {
    if v.Null? then NullKey(ty)
    else [TagOf(TypeOf(v)), VALUE_FLAG] + Payload(v)
  }

  // Without a column type NULL has a family of its own.
  function KeyOf(v: Value): Bytes {
    StoredKey(v, Unknown)
  }

  function UpperKey(ty: DataType): Bytes {
    if ty.Unknown? then [255] else [TagOf(ty) + 1]
  }

  function Wide(n: Int64, ty: DataType): Value {
    match ty
    case Date => Days(n)
    case Time => Clock(n)
    case DateTime => Stamp(n)
    case _ => Int(n)
  }

  function DecodePayload(p: Bytes, ty: DataType): Value {
    var tag := TagOf(ty);
    if tag == TAG_BOOL then
      if |p| == 1 then Bool(p[0] != 0) else Null
    else if tag == TAG_INT64 then
      if |p| == 8 then
        EightBytes(); UnsignedRoundTrip(p);
        Wide(FromOrdered(Unsigned(p)), ty)
      else Null
    else if tag == TAG_STRING then
      var s := Unescape(p);
      if s.Some? then Str(s.value) else Null
    else Null
  }

  // A key that does not decode gives NULL.
  function FromKey(k: Bytes, ty: DataType): Value {
    if |k| < 2 || k[0] == TAG_NULL || k[0] != TagOf(ty) || k[1] != VALUE_FLAG then Null
    else DecodePayload(k[2..], ty)
  }

  predicate ValidPayload(p: Bytes, tag: Byte) {
    if tag == TAG_INT64 then |p| == 8
    else if tag == TAG_BOOL then |p| == 1 && (p[0] == 0 || p[0] == 1)
    else if tag == TAG_STRING then Unescape(p).Some?
    else false
  }

  predicate IsValidKey(k: Bytes, ty: DataType) {
    if k == [] then false
    else if k[0] == TAG_NULL then |k| == 2
    else if k[0] != TagOf(ty) || |k| < 2 then false
    else if k[1] == NULL_FLAG then |k| == 2
    else k[1] == VALUE_FLAG && ValidPayload(k[2..], k[0])
  }

  // The logical order of one column's values, NULL first.
  predicate Precedes(a: Value, b: Value) {
    match (a, b)
    case (_, Null) => false
    case (Null, _) => true
    case (Bool(x), Bool(y)) => !x && y
    case (Str(x), Str(y)) => Less(x, y)
    case (Int(x), Int(y)) => x < y
    case (Days(x), Days(y)) => x < y
    case (Clock(x), Clock(y)) => x < y
    case (Stamp(x), Stamp(y)) => x < y
    case _ => false
  }

  lemma WordOrder(a: Int64, b: Int64)
    ensures Less(BigEndian(ToOrdered(a), 8), BigEndian(ToOrdered(b), 8)) <==> a < b
    ensures BigEndian(ToOrdered(a), 8) == BigEndian(ToOrdered(b), 8) <==> a == b
  {
    EightBytes();
    OrderedIsMonotone(a, b);
    OrderedIsMonotone(b, a);
    BigEndianOrder(ToOrdered(a), ToOrdered(b), 8);
  }

  lemma PayloadOrder(a: Value, b: Value)
    requires !a.Null? && !b.Null? && TypeOf(a) == TypeOf(b)
    ensures Less(Payload(a), Payload(b)) <==> Precedes(a, b)
    ensures Payload(a) == Payload(b) <==> a == b
  {
    match a {
      case Bool(_) =>
      case Str(s) =>
        EscapeOrder(s, b.s);
        EscapeRoundTrip(s);
        EscapeRoundTrip(b.s);
      case Int(n) => WordOrder(n, b.n);
      case Days(n) => WordOrder(n, b.n);
      case Clock(n) => WordOrder(n, b.n);
      case Stamp(n) => WordOrder(n, b.n);
    }
  }

  // Below the shared tag the null flag decides: NULL sorts before every value.
  lemma FlagOrder(tag: Byte, p: Bytes)
    ensures Less([tag, NULL_FLAG], [tag, VALUE_FLAG] + p)
    ensures !Less([tag, VALUE_FLAG] + p, [tag, NULL_FLAG])
  {
    LessAfterPrefix([tag], [NULL_FLAG], [VALUE_FLAG] + p);
    LessAfterPrefix([tag], [VALUE_FLAG] + p, [NULL_FLAG]);
    assert [tag, VALUE_FLAG] + p == [tag] + ([VALUE_FLAG] + p);
    assert [tag, NULL_FLAG] == [tag] + [NULL_FLAG];
  }

  /** Byte order of a column's keys is the logical order of its values. */
  lemma KeyOrder(a: Value, b: Value, ty: DataType)
    requires Fits(a, ty) && Fits(b, ty)
    ensures Less(StoredKey(a, ty), StoredKey(b, ty)) <==> Precedes(a, b)
    ensures StoredKey(a, ty) == StoredKey(b, ty) <==> a == b
  {
    if !a.Null? && !b.Null? {
      var p := [TagOf(ty), VALUE_FLAG];
      PayloadOrder(a, b);
      LessAfterPrefix(p, Payload(a), Payload(b));
      assert (p + Payload(a))[2..] == Payload(a) && (p + Payload(b))[2..] == Payload(b);
    } else if !a.Null? {
      FlagOrder(TagOf(ty), Payload(a));
    } else if !b.Null? {
      FlagOrder(TagOf(ty), Payload(b));
    } else {
      LessIsIrreflexive(NullKey(ty));
    }
  }

  /** Decoding inverts encoding for every value of the column. */
  lemma KeyRoundTrip(v: Value, ty: DataType)
    requires Fits(v, ty)
    ensures FromKey(StoredKey(v, ty), ty) == v
    ensures IsValidKey(StoredKey(v, ty), ty)
  {
    if !v.Null? {
      assert StoredKey(v, ty)[2..] == Payload(v);
      PayloadDecodes(v);
      hide Payload, DecodePayload, ValidPayload;
    }
  }

  lemma WordDecodes(n: Int64)
    ensures var p := BigEndian(ToOrdered(n), 8); |p| == 8 && Unsigned(p) == ToOrdered(n) < TWO_64
  {
    EightBytes();
    BigEndianRoundTrip(ToOrdered(n), 8);
  }

  lemma PayloadDecodes(v: Value)
    requires !v.Null?
    ensures DecodePayload(Payload(v), TypeOf(v)) == v && ValidPayload(Payload(v), TagOf(TypeOf(v)))
  {
    hide BigEndian, Escape, Unescape, Unsigned;
    match v {
      case Bool(_) =>
      case Str(s) => EscapeRoundTrip(s);
      case Int(n) => WordDecodes(n);
      case Days(n) => WordDecodes(n);
      case Clock(n) => WordDecodes(n);
      case Stamp(n) => WordDecodes(n);
    }
  }

  lemma PayloadRoundTrip(p: Bytes, ty: DataType)
    requires ValidPayload(p, TagOf(ty))
    ensures var v := DecodePayload(p, ty); !v.Null? && TypeOf(v) == ty && Payload(v) == p
    ensures !ValidPayload(p + [0], TagOf(ty))
  {
    if TagOf(ty) == TAG_INT64 {
      EightBytes();
      UnsignedRoundTrip(p);
      FromOrderedExact(Unsigned(p));
    } else if TagOf(ty) == TAG_STRING {
      UnescapeRoundTrip(p);
    }
  }

  /**
   Conversely a valid key of the family is the key of exactly the value it
   decodes to, and the scan bound just behind it is never itself a valid key.
   */
  lemma ValidKeyRoundTrip(k: Bytes, ty: DataType)
    requires IsValidKey(k, ty) && k[0] != TAG_NULL
    ensures Fits(FromKey(k, ty), ty)
    ensures StoredKey(FromKey(k, ty), ty) == k
    ensures !IsValidKey(k + [0], ty)
  {
    if k[1] == VALUE_FLAG {
      PayloadRoundTrip(k[2..], ty);
      assert k == [k[0], k[1]] + k[2..];
      assert (k + [0])[2..] == k[2..] + [0];
    } else {
      assert k == [k[0], k[1]];
    }
  }

  /** The keys of one family fill [min, upper) and no other family enters it. */
  lemma FamilyBounds(v: Value, own: DataType, ty: DataType)
    requires Fits(v, own) && !own.Unknown? && !ty.Unknown?
    ensures AtMost(NullKey(ty), StoredKey(v, own)) && Less(StoredKey(v, own), UpperKey(ty))
            <==> TagOf(own) == TagOf(ty)
  {
    var k := StoredKey(v, own);
    assert k[0] == TagOf(own);
    if v.Null? {
      LessIsIrreflexive(NullKey(ty));
    } else {
      FlagOrder(TagOf(own), Payload(v));
    }
  }

  // ------------------------------------------------------------ the routines

  // `v >> 8 * k` on an unsigned word.
  function ShiftBytes(v: nat, k: nat): nat {
    if k == 0 then v else ShiftBytes(v, k - 1) / 256
  }

  lemma {:induction false} ShiftedOut(v: nat, k: nat)
    requires v < Pow256(k)
    ensures ShiftBytes(v, k) == 0
  {
    ShiftedBelow(v, k, k);
  }

  lemma {:induction false} ShiftedBelow(v: nat, k: nat, n: nat)
    requires v < Pow256(n) && k <= n
    ensures ShiftBytes(v, k) < Pow256(n - k)
  {
    if k > 0 {
      ShiftedBelow(v, k - 1, n);
    }
  }

  method EncodeBe64(v: Word, out: Bytes) returns (r: Bytes)
    ensures r == out + BigEndian(v, 8)
  {
    r := out;
    EightBytes();
    ShiftedOut(v, 8);
    for i := 0 to 8
      invariant r == out + BigEndian(ShiftBytes(v, 8 - i), i)
    {
      var byte := ShiftBytes(v, 7 - i) % 256;
      assert BigEndian(ShiftBytes(v, 7 - i), i + 1) == BigEndian(ShiftBytes(v, 8 - i), i) + [byte];
      r := r + [byte];
    }
  }

  lemma Shifted(high: nat, byte: nat, unit: nat)
    ensures high * (256 * unit) + byte * unit == (high * 256 + byte) * unit
  {
  }

  // The source ors disjoint byte positions together, which is their sum.
  method DecodeBe64(p: Bytes) returns (v: nat)
    requires |p| >= 8
    ensures v == Unsigned(p[..8])
  {
    v := 0;
    for i := 0 to 8
      invariant v == Unsigned(p[..i]) * Pow256(8 - i)
    {
      assert p[..i + 1][..i] == p[..i];
      Shifted(Unsigned(p[..i]), p[i], Pow256(7 - i));
      v := v + p[i] * Pow256(7 - i);
    }
  }

  method EncodeString(s: Bytes, out: Bytes) returns (r: Bytes)
    ensures r == out + Escape(s)
  {
    r := out;
    for i := 0 to |s|
      invariant r + Escape(s[i..]) == out + Escape(s)
    {
      assert s[i..][1..] == s[i + 1..];
      if s[i] == 0 {
        r := r + [0, 255];
      } else {
        r := r + [s[i]];
      }
    }
    r := r + [0];
  }

  lemma PrependedNothing(rest: Option<Bytes>)
    ensures Prepended([], rest) == rest
  {
    if rest.Some? {
      assert [] + rest.value == rest.value;
    }
  }

  lemma PrependedTwice(p: Bytes, q: Bytes, rest: Option<Bytes>)
    ensures Prepended(p, Prepended(q, rest)) == Prepended(p + q, rest)
  {
    if rest.Some? {
      assert p + (q + rest.value) == p + q + rest.value;
    }
  }

  method DecodeString(key: Bytes, start: nat) returns (ok: bool, out: Bytes)
    requires start <= |key|
    ensures ok <==> Unescape(key[start..]).Some?
    ensures ok ==> out == Unescape(key[start..]).value
  {
    out := [];
    var pos := start;
    PrependedNothing(Unescape(key[start..]));
    while pos < |key|
      invariant start <= pos <= |key|
      invariant Unescape(key[start..]) == Prepended(out, Unescape(key[pos..]))
    {
      var c := key[pos];
      ghost var rest := key[pos..];
      if c != 0 {
        assert rest[1..] == key[pos + 1..];
        PrependedTwice(out, [c], Unescape(key[pos + 1..]));
        out := out + [c];
        pos := pos + 1;
      } else if pos + 1 < |key| && key[pos + 1] == 255 {
        assert rest[2..] == key[pos + 2..];
        PrependedTwice(out, [0], Unescape(key[pos + 2..]));
        out := out + [0];
        pos := pos + 2;
      } else {
        ok := pos + 1 == |key|;
        return;
      }
    }
    ok := false;
  }

  /** The encoder assembled from the two routines. */
  method ToKey(v: Value, column: DataType) returns (k: Bytes)
    ensures k == StoredKey(v, column)
  {
    if v.Null? {
      return [TagOf(column), NULL_FLAG];
    }
    k := [TagOf(TypeOf(v)), VALUE_FLAG];
    match v {
      case Bool(b) => k := k + [if b then 1 else 0];
      case Str(s) => k := EncodeString(s, k);
      case Int(n) => k := EncodeBe64(ToOrdered(n), k);
      case Days(n) => k := EncodeBe64(ToOrdered(n), k);
      case Clock(n) => k := EncodeBe64(ToOrdered(n), k);
      case Stamp(n) => k := EncodeBe64(ToOrdered(n), k);
    }
  }

  /** The decoder likewise; the payload length is tested before it is read. */
  method Decode(k: Bytes, ty: DataType) returns (v: Value)
    ensures v == FromKey(k, ty)
  {
    if |k| < 2 || k[0] == TAG_NULL || k[0] != TagOf(ty) || k[1] != VALUE_FLAG {
      return Null;
    }
    if k[0] == TAG_BOOL {
      return if |k| == 3 then Bool(k[2] != 0) else Null;
    }
    if k[0] == TAG_INT64 {
      if |k| != 10 {
        return Null;
      }
      var u := DecodeBe64(k[2..]);
      assert k[2..][..8] == k[2..];
      EightBytes();
      UnsignedRoundTrip(k[2..]);
      return Wide(FromOrdered(u), ty);
    }
    var ok, s := DecodeString(k, 2);
    return if ok then Str(s) else Null;
  }

}
