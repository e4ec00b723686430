/**
 The local key-value store under a group: an ordered map with atomic write
 batches. What a batch does to one key is decided by the last operation that
 touches it, so applying a batch twice is applying it once.
 */
module KvStore {
  import opened Wrappers
  import opened Bytes

  type Store = map<Bytes, Bytes>

  datatype Op = Put(key: Bytes, value: Bytes) | Remove(key: Bytes) | RemoveRange(start: Bytes, end: Bytes)

  type Batch = seq<Op>

  predicate InRange(k: Bytes, start: Bytes, end: Option<Bytes>) {
    AtMost(start, k) && (end.Some? ==> Less(k, end.value))
  }

  // A batch with an empty or inverted range is refused as a whole.
  predicate ValidOp(op: Op) {
    op.RemoveRange? ==> Less(op.start, op.end)
  }

  predicate ValidBatch(b: Batch) {
    forall i :: 0 <= i < |b| ==> ValidOp(b[i])
  }

  function ApplyOp(s: Store, op: Op): Store {
    match op
    case Put(k, v) => s[k := v]
    case Remove(k) => s - {k}
    case RemoveRange(start, end) => map k | k in s && !InRange(k, start, Some(end)) :: s[k]
  }

  function Apply(s: Store, b: Batch): Store {
    if b == [] then s else ApplyOp(Apply(s, b[..|b| - 1]), b[|b| - 1])
  }

  predicate Touches(op: Op, k: Bytes) {
    match op
    case Put(key, _) => key == k
    case Remove(key) => key == k
    case RemoveRange(start, end) => InRange(k, start, Some(end))
  }

  // What the batch leaves at `k`: nothing said, or a value, or its absence.
  function Effect(b: Batch, k: Bytes): Option<Option<Bytes>> {
    if b == [] then None
    else
      var last := b[|b| - 1];
      if Touches(last, k) then Some(if last.Put? then Some(last.value) else None)
      else Effect(b[..|b| - 1], k)
  }

  function Get(s: Store, k: Bytes): Option<Bytes> {
    if k in s then Some(s[k]) else None
  }

  lemma {:induction false} ApplyByKey(s: Store, b: Batch, k: Bytes)
    ensures Get(Apply(s, b), k) == if Effect(b, k).Some? then Effect(b, k).value else Get(s, k)
  {
    if b != [] {
      ApplyByKey(s, b[..|b| - 1], k);
    }
  }

  lemma SameByKey(a: Store, b: Store)
    requires forall k :: Get(a, k) == Get(b, k)
    ensures a == b
  {
    assert forall k :: k in a <==> k in b by {
      forall k
        ensures k in a <==> k in b
      {
        assert Get(a, k) == Get(b, k);
      }
    }
    forall k | k in a
      ensures a[k] == b[k]
    {
      assert Get(a, k) == Get(b, k);
    }
  }

  /** Applying a batch again changes nothing. */
  lemma ApplyIsIdempotent(s: Store, b: Batch)
    ensures Apply(Apply(s, b), b) == Apply(s, b)
  {
    forall k
      ensures Get(Apply(Apply(s, b), b), k) == Get(Apply(s, b), k)
    {
      ApplyByKey(s, b, k);
      ApplyByKey(Apply(s, b), b, k);
    }
    SameByKey(Apply(Apply(s, b), b), Apply(s, b));
  }

  lemma {:induction false} ApplyConcat(s: Store, a: Batch, b: Batch)
    ensures Apply(s, a + b) == Apply(Apply(s, a), b)
  {
    if b == [] {
      assert a + b == a;
    } else {
      ApplyConcat(s, a, b[..|b| - 1]);
      assert (a + b)[..|a + b| - 1] == a + b[..|b| - 1];
    }
  }

}
