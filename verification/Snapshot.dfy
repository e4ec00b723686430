/**
 State machine snapshots: the pairs of one key range behind a header. Restoring
 makes the range equal to the snapshot's, leaves every other key alone, and
 changes nothing at all when the blob is malformed.
 */
module Snapshot {
  import opened Wrappers
  import opened Bytes
  import opened KeyCodec
  import opened Wire
  import opened OrderedMap
  import opened KvStore

  // "SQSN"
  const MAGIC: Bytes := [83, 81, 83, 78]
  const SNAPSHOT_VERSION: Word32 := 1
  const HEADER_SIZE: nat := 16

  type Pairs = seq<(Bytes, Bytes)>

  // A snapshot needs a lower bound and a range that is not empty.
  predicate GoodRange(start: Bytes, end: Option<Bytes>) {
    end.Some? ==> Less(start, end.value)
  }

  predicate SizedPairs(ps: Pairs) {
    forall i :: 0 <= i < |ps| ==> Sized(ps[i].0) && Sized(ps[i].1)
  }

  function EncodePairs(ps: Pairs): Bytes
    requires SizedPairs(ps)
  {
    if ps == [] then []
    else PutBytes(ps[0].0) + (PutBytes(ps[0].1) + EncodePairs(ps[1..]))
  }

  function EncodeSnapshot(ps: Pairs): Bytes
    requires SizedPairs(ps) && |ps| < TWO_64
  {
    MAGIC + (PutU32(SNAPSHOT_VERSION) + (PutU64(|ps|) + EncodePairs(ps)))
  }

  function ReadPair(d: Bytes): Read<(Bytes, Bytes)> {
    match ReadBytes(d)
    case Short => Short
    case Got(k, d1) =>
      match ReadBytes(d1)
      case Short => Short
      case Got(v, rest) => Got((k, v), rest)
  }

  function ReadPairs(d: Bytes, count: nat): Read<Pairs> {
    if count == 0 then Got([], d)
    else
      match ReadPair(d)
      case Short => Short
      case Got(p, rest) =>
        match ReadPairs(rest, count - 1)
        case Short => Short
        case Got(ps, end) => Got([p] + ps, end)
  }

  function DecodeSnapshot(blob: Bytes): Option<Pairs> {
    if |blob| < HEADER_SIZE || blob[..4] != MAGIC then None
    else
      match ReadU32(blob[4..])
      case Short => None
      case Got(version, d1) =>
        if version != SNAPSHOT_VERSION then None
        else
          match ReadU64(d1)
          case Short => None
          case Got(count, d2) =>
            if count > |blob| then None
            else
              match ReadPairs(d2, count)
              case Short => None
              case Got(ps, rest) => if rest == [] then Some(ps) else None
  }

  lemma {:induction false} PairsRoundTrip(ps: Pairs, rest: Bytes)
    requires SizedPairs(ps)
    ensures ReadPairs(EncodePairs(ps) + rest, |ps|) == Got(ps, rest)
  {
    hide PutBytes, ReadBytes;
    if ps == [] {
      assert EncodePairs(ps) + rest == rest;
    } else {
      var tail := EncodePairs(ps[1..]) + rest;
      PairsRoundTrip(ps[1..], rest);
      PutBytesRead(ps[0].0, PutBytes(ps[0].1) + tail);
      PutBytesRead(ps[0].1, tail);
      assert EncodePairs(ps) + rest == PutBytes(ps[0].0) + (PutBytes(ps[0].1) + tail);
      assert ps == [ps[0]] + ps[1..];
    }
  }

  lemma {:induction false} PairsTakeRoom(ps: Pairs)
    requires SizedPairs(ps)
    ensures |EncodePairs(ps)| >= |ps|
  {
    if ps != [] {
      PairsTakeRoom(ps[1..]);
    }
  }

  lemma DecodeAfterEncode(ps: Pairs)
    requires SizedPairs(ps) && |ps| < TWO_64
    ensures DecodeSnapshot(EncodeSnapshot(ps)) == Some(ps)
  {
    hide ReadPairs, EncodePairs;
    var body := EncodePairs(ps);
    var d1 := PutU64(|ps|) + body;
    var blob := EncodeSnapshot(ps);
    assert blob[..4] == MAGIC && blob[4..] == PutU32(SNAPSHOT_VERSION) + d1;
    PutU32Read(SNAPSHOT_VERSION, d1);
    PutU64Read(|ps|, body);
    PairsTakeRoom(ps);
    PairsRoundTrip(ps, []);
    assert body + [] == body;
  }

  // ------------------------------------------------------------ ranges of a store

  // `ks` are the store's keys in the range, in order.
  ghost predicate KeysOf(kv: Store, start: Bytes, end: Option<Bytes>, ks: seq<Bytes>) {
    Ascending(ks) && forall k :: k in ks <==> k in kv && InRange(k, start, end)
  }

  function PairsOf(kv: Store, ks: seq<Bytes>): Pairs
    requires forall k :: k in ks ==> k in kv
  {
    seq(|ks|, i requires 0 <= i < |ks| => (assert ks[i] in ks; (ks[i], kv[ks[i]])))
  }

  // `blob` is the snapshot of the range as it stands in `kv`.
  ghost predicate IsSnapshotOf(blob: Bytes, kv: Store, start: Bytes, end: Option<Bytes>) {
    exists ks: seq<Bytes> :: SnapshotOver(blob, kv, start, end, ks)
  }

  ghost predicate SnapshotOver(blob: Bytes, kv: Store, start: Bytes, end: Option<Bytes>, ks: seq<Bytes>) {
    KeysOf(kv, start, end, ks) && |ks| < TWO_64 && SizedPairs(PairsOf(kv, ks)) &&
    blob == EncodeSnapshot(PairsOf(kv, ks))
  }

  // Two stores agree on the range.
  ghost predicate SameInside(a: Store, b: Store, start: Bytes, end: Option<Bytes>) {
    forall k :: InRange(k, start, end) ==> Get(a, k) == Get(b, k)
  }

  ghost predicate SameOutside(a: Store, b: Store, start: Bytes, end: Option<Bytes>) {
    forall k :: !InRange(k, start, end) ==> Get(a, k) == Get(b, k)
  }

  // ----------------------------------------------------------------- restoring

  function Puts(ps: Pairs): Batch {
    seq(|ps|, i requires 0 <= i < |ps| => Put(ps[i].0, ps[i].1))
  }

  function Removes(ks: seq<Bytes>): Batch {
    seq(|ks|, i requires 0 <= i < |ks| => Remove(ks[i]))
  }

  lemma {:induction false} PutsEffect(clear: Batch, ps: Pairs, k: Bytes)
    ensures (exists i :: 0 <= i < |ps| && ps[i].0 == k) <==>
            exists i :: 0 <= i < |ps| && ps[i].0 == k && Effect(clear + Puts(ps), k) == Some(Some(ps[i].1))
                        && forall j :: i < j < |ps| ==> ps[j].0 != k
    ensures (forall i :: 0 <= i < |ps| ==> ps[i].0 != k) ==> Effect(clear + Puts(ps), k) == Effect(clear, k)
  {
    if ps == [] {
      assert clear + Puts(ps) == clear;
    } else {
      var n := |ps| - 1;
      var all := clear + Puts(ps);
      assert all[..|all| - 1] == clear + Puts(ps[..n]);
      assert all[|all| - 1] == Put(ps[n].0, ps[n].1);
      PutsEffect(clear, ps[..n], k);
      if ps[n].0 == k {
        assert Effect(all, k) == Some(Some(ps[n].1));
      } else if exists i :: 0 <= i < |ps| && ps[i].0 == k {
        var i :| 0 <= i < |ps| && ps[i].0 == k;
        assert ps[..n][i].0 == k;
        var j :| 0 <= j < n && ps[..n][j].0 == k && Effect(clear + Puts(ps[..n]), k) == Some(Some(ps[..n][j].1))
                 && forall x :: j < x < n ==> ps[..n][x].0 != k;
        assert ps[j] == ps[..n][j];
        forall x | j < x < |ps|
          ensures ps[x].0 != k
        {
          if x < n {
            assert ps[..n][x] == ps[x];
          }
        }
      } else {
        forall i | 0 <= i < n
          ensures ps[..n][i].0 != k
        {
          assert ps[..n][i] == ps[i];
        }
      }
    }
  }

  lemma {:induction false} RemovesEffect(ks: seq<Bytes>, k: Bytes)
    ensures Effect(Removes(ks), k) == if k in ks then Some(None) else None
  {
    if ks != [] {
      var n := |ks| - 1;
      assert Removes(ks)[..n] == Removes(ks[..n]);
      RemovesEffect(ks[..n], k);
      assert ks == ks[..n] + [ks[n]];
    }
  }

  // The clearing half of a restore empties the range and touches nothing else.
  ghost predicate Clears(clear: Batch, dst: Store, start: Bytes, end: Option<Bytes>) {
    forall k :: if InRange(k, start, end) then (Effect(clear, k) == Some(None) || (Effect(clear, k).None? && k !in dst))
                else Effect(clear, k).None?
  }

  lemma RangeClears(dst: Store, start: Bytes, end: Bytes)
    ensures Clears([RemoveRange(start, end)], dst, start, Some(end))
  {
    forall k
      ensures Effect([RemoveRange(start, end)], k) == if InRange(k, start, Some(end)) then Some(None) else None
    {
      assert [RemoveRange(start, end)][..0] == [];
    }
  }

  lemma KeysClear(dst: Store, start: Bytes, ks: seq<Bytes>)
    requires forall k :: k in ks <==> k in dst && AtMost(start, k)
    ensures Clears(Removes(ks), dst, start, None)
  {
    forall k
      ensures Effect(Removes(ks), k) == if k in ks then Some(None) else None
    {
      RemovesEffect(ks, k);
    }
  }

  lemma RestoredInside(dst: Store, src: Store, start: Bytes, end: Option<Bytes>, ks: seq<Bytes>, clear: Batch, k: Bytes)
    requires KeysOf(src, start, end, ks) && Clears(clear, dst, start, end) && InRange(k, start, end)
    ensures Get(Apply(dst, clear + Puts(PairsOf(src, ks))), k) == Get(src, k)
  {
    var ps := PairsOf(src, ks);
    var b := clear + Puts(ps);
    ApplyByKey(dst, b, k);
    PutsEffect(clear, ps, k);
    if k in src {
      assert k in ks;
      var i :| 0 <= i < |ks| && ks[i] == k;
      assert ps[i].0 == k;
      var j :| 0 <= j < |ps| && ps[j].0 == k && Effect(b, k) == Some(Some(ps[j].1));
      assert ks[j] == k;
    } else {
      forall i | 0 <= i < |ps|
        ensures ps[i].0 != k
      {
        assert ps[i].0 == ks[i] && ks[i] in ks;
      }
      ApplyByKey(dst, clear, k);
    }
  }

  lemma RestoredOutside(dst: Store, src: Store, start: Bytes, end: Option<Bytes>, ks: seq<Bytes>, clear: Batch, k: Bytes)
    requires KeysOf(src, start, end, ks) && Clears(clear, dst, start, end) && !InRange(k, start, end)
    ensures Get(Apply(dst, clear + Puts(PairsOf(src, ks))), k) == Get(dst, k)
  {
    var ps := PairsOf(src, ks);
    ApplyByKey(dst, clear + Puts(ps), k);
    PutsEffect(clear, ps, k);
    forall i | 0 <= i < |ps|
      ensures ps[i].0 != k
    {
      assert ps[i].0 == ks[i] && ks[i] in ks;
    }
  }

  /** Clearing the range and putting the snapshot's pairs copies the range. */
  lemma RestoreCopies(dst: Store, src: Store, start: Bytes, end: Option<Bytes>, ks: seq<Bytes>, clear: Batch)
    requires KeysOf(src, start, end, ks) && Clears(clear, dst, start, end)
    ensures var r := Apply(dst, clear + Puts(PairsOf(src, ks)));
            SameInside(r, src, start, end) && SameOutside(r, dst, start, end)
  {
    hide Get, Apply, PairsOf, Puts, KeysOf, Clears;
    var r := Apply(dst, clear + Puts(PairsOf(src, ks))) by { KeysPresent(src, start, end, ks); }
    forall k
      ensures if InRange(k, start, end) then Get(r, k) == Get(src, k) else Get(r, k) == Get(dst, k)
    {
      if InRange(k, start, end) {
        RestoredInside(dst, src, start, end, ks, clear, k);
      } else {
        RestoredOutside(dst, src, start, end, ks, clear, k);
      }
    }
  }

  lemma KeysPresent(kv: Store, start: Bytes, end: Option<Bytes>, ks: seq<Bytes>)
    requires KeysOf(kv, start, end, ks)
    ensures forall k :: k in ks ==> k in kv
  {
  }

  // ----------------------------------------------------- restoring as a function

  function Outside(kv: Store, start: Bytes, end: Option<Bytes>): Store {
    map k | k in kv && !InRange(k, start, end) :: kv[k]
  }

  // What restoring a blob leaves, if it is well-formed.
  function Restored(kv: Store, start: Bytes, end: Option<Bytes>, blob: Bytes): Option<Store> {
    match DecodeSnapshot(blob)
    case None => None
    case Some(ps) => if GoodRange(start, end) then Some(Apply(Outside(kv, start, end), Puts(ps))) else None
  }

  lemma ClearedIsOutside(dst: Store, start: Bytes, end: Option<Bytes>, clear: Batch)
    requires Clears(clear, dst, start, end)
    ensures Apply(dst, clear) == Outside(dst, start, end)
  {
    forall k
      ensures Get(Apply(dst, clear), k) == Get(Outside(dst, start, end), k)
    {
      ApplyByKey(dst, clear, k);
    }
    SameByKey(Apply(dst, clear), Outside(dst, start, end));
  }

  lemma OutsideIsClear(dst: Store, start: Bytes, end: Option<Bytes>)
    ensures Clears([], Outside(dst, start, end), start, end)
  {
  }

  /** Restoring the snapshot of a store copies the range and nothing else. */
  lemma RestoredCopies(dst: Store, src: Store, start: Bytes, end: Option<Bytes>, blob: Bytes)
    requires GoodRange(start, end) && IsSnapshotOf(blob, src, start, end)
    ensures var r := Restored(dst, start, end, blob);
            r.Some? && SameInside(r.value, src, start, end) && SameOutside(r.value, dst, start, end)
  {
    var ks :| SnapshotOver(blob, src, start, end, ks);
    hide DecodeSnapshot, EncodeSnapshot, Apply;
    KeysPresent(src, start, end, ks);
    assert |PairsOf(src, ks)| == |ks|;
    DecodeAfterEncode(PairsOf(src, ks));
    var mid := Outside(dst, start, end);
    OutsideIsClear(dst, start, end);
    RestoreCopies(mid, src, start, end, ks, []);
    assert [] + Puts(PairsOf(src, ks)) == Puts(PairsOf(src, ks));
    assert SameOutside(mid, dst, start, end);
  }

}
