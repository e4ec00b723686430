/**
 Byte strings and their lexicographic order, the order in which the key-value
 store iterates and in which every key bound is compared.
 */
module Bytes {

  type Byte = x: int | 0 <= x < 256

  type Bytes = seq<Byte>

  predicate Less(a: Bytes, b: Bytes) {
    if b == [] then false
    else if a == [] then true
    else a[0] < b[0] || (a[0] == b[0] && Less(a[1..], b[1..]))
  }

  predicate AtMost(a: Bytes, b: Bytes) {
    !Less(b, a)
  }

  lemma {:induction false} LessIsStrict(a: Bytes, b: Bytes)
    requires Less(a, b)
    ensures a != b && !Less(b, a)
  {
    if a != [] && a[0] == b[0] {
      LessIsStrict(a[1..], b[1..]);
    }
  }

  lemma {:induction false} LessIsTotal(a: Bytes, b: Bytes)
    ensures Less(a, b) || Less(b, a) || a == b
  {
    if a != [] && b != [] && a[0] == b[0] {
      LessIsTotal(a[1..], b[1..]);
      assert a == [a[0]] + a[1..] && b == [b[0]] + b[1..];
    }
  }

  lemma {:induction false} LessTransitive(a: Bytes, b: Bytes, c: Bytes)
    requires Less(a, b) && Less(b, c)
    ensures Less(a, c)
  {
    if a != [] && a[0] == b[0] == c[0] {
      LessTransitive(a[1..], b[1..], c[1..]);
    }
  }

  // The four mixed forms of transitivity follow from totality.
  lemma AtMostLess(a: Bytes, b: Bytes, c: Bytes)
    requires AtMost(a, b) && Less(b, c)
    ensures Less(a, c)
  {
    LessIsTotal(a, b);
    if Less(a, b) {
      LessTransitive(a, b, c);
    }
  }

  lemma LessAtMost(a: Bytes, b: Bytes, c: Bytes)
    requires Less(a, b) && AtMost(b, c)
    ensures Less(a, c)
  {
    LessIsTotal(b, c);
    if Less(b, c) {
      LessTransitive(a, b, c);
    }
  }

  lemma AtMostTransitive(a: Bytes, b: Bytes, c: Bytes)
    requires AtMost(a, b) && AtMost(b, c)
    ensures AtMost(a, c)
  {
    LessIsTotal(a, b);
    if Less(a, b) {
      LessAtMost(a, b, c);
      LessIsStrict(a, c);
    }
  }

  lemma {:induction false} LessIsIrreflexive(a: Bytes)
    ensures !Less(a, a)
  {
    if a != [] {
      LessIsIrreflexive(a[1..]);
    }
  }

  // Appending a zero byte gives the immediate successor: nothing lies between.
  lemma {:induction false} SuccessorExact(x: Bytes, k: Bytes)
    ensures Less(x, k + [0]) <==> Less(x, k) || x == k
  {
    if k == [] {
    } else if x != [] {
      assert (k + [0])[1..] == k[1..] + [0];
      SuccessorExact(x[1..], k[1..]);
      assert x == [x[0]] + x[1..] && k == [k[0]] + k[1..];
    }
  }

  /** So the half-open interval from a key to its successor holds that key only. */
  lemma PointInterval(x: Bytes, k: Bytes)
    ensures AtMost(k, x) && Less(x, k + [0]) <==> x == k
  {
    SuccessorExact(x, k);
    LessIsIrreflexive(k);
    if Less(x, k) {
      LessIsStrict(x, k);
    }
    LessIsTotal(x, k);
  }

  lemma {:induction false} LessAfterPrefix(p: Bytes, a: Bytes, b: Bytes)
    ensures Less(p + a, p + b) <==> Less(a, b)
  {
    if p == [] {
      assert p + a == a && p + b == b;
    } else {
      LessAfterPrefix(p[1..], a, b);
      assert (p + a)[1..] == p[1..] + a && (p + b)[1..] == p[1..] + b;
    }
  }

  // On strings of one length the last byte decides only between equal prefixes.
  lemma {:induction false} LessByLast(a: Bytes, x: Byte, b: Bytes, y: Byte)
    requires |a| == |b|
    ensures Less(a + [x], b + [y]) <==> Less(a, b) || (a == b && x < y)
  {
    if a == [] {
    } else {
      LessByLast(a[1..], x, b[1..], y);
      assert (a + [x])[1..] == a[1..] + [x] && (b + [y])[1..] == b[1..] + [y];
      assert a == [a[0]] + a[1..] && b == [b[0]] + b[1..];
    }
  }

}
