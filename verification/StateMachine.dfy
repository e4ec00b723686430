/**
 The replicated state machine: applying an entry writes its batch once per
 (client, request), however often saving the result fails and is retried.
 */
module StateMachine {
  import opened Wrappers
  import opened Bytes
  import opened KeyCodec
  import opened KvStore
  import opened OrderedMap
  import opened Wire
  import opened Snapshot
  import PP = ProposalPayload

  datatype Recorded = Recorded(request: Word, result: string)

  // The store, and the latest request of each client with its result.
  datatype Machine = Machine(kv: Store, results: map<Word, Recorded>)

  // The writes that may fail: the batch itself, or saving its result.
  datatype Fault = NoFault | WriteFails | SaveFails

  datatype Outcome = Done(result: string) | BadPayload | StaleRequest | WriteError | SaveError

  datatype Found = Unseen | Repeated(result: string) | Older

  function Find(results: map<Word, Recorded>, client: Word, request: Word): Found {
    if client !in results then Unseen
    else if results[client].request == request then Repeated(results[client].result)
    else if results[client].request > request then Older
    else Unseen
  }

  function ApplyEntry(m: Machine, data: Bytes, fault: Fault): (Machine, Outcome) {
    if data == [] then (m, Done("noop"))
    else
      match PP.Decode(data)
      case None => (m, BadPayload)
      case Some(p) =>
        match Find(m.results, p.client, p.request)
        case Older => (m, StaleRequest)
        case Repeated(result) => (m, Done(result))
        case Unseen =>
          if fault.WriteFails? then (m, WriteError)
          else
            var written := m.(kv := Apply(m.kv, p.batch));
            if fault.SaveFails? then (written, SaveError)
            else (written.(results := m.results[p.client := Recorded(p.request, "applied")]), Done("applied"))
  }

  class KVStateMachine {
    var kv: Store
    var results: map<Word, Recorded>

    constructor ()
      ensures View() == Machine(map[], map[])
    {
      kv, results := map[], map[];
    }

    ghost function View(): Machine
      reads this
    {
      Machine(kv, results)
    }

    method FindResult(client: Word, request: Word) returns (r: Found)
      ensures r == Find(results, client, request)
    {
      if client !in results {
        return Unseen;
      }
      if results[client].request == request {
        return Repeated(results[client].result);
      }
      if results[client].request > request {
        return Older;
      }
      return Unseen;
    }

    /** From now on the request is answered from the record, and earlier ones are refused. */
    method SaveResult(client: Word, request: Word, result: string)
      modifies this`results
      ensures results == old(results)[client := Recorded(request, result)]
      ensures Find(results, client, request) == Repeated(result)
      ensures forall q: Word :: q < request ==> Find(results, client, q).Older?
      ensures forall q: Word :: q > request ==> Find(results, client, q).Unseen?
      ensures forall c: Word, q: Word :: c != client ==> Find(results, c, q) == Find(old(results), c, q)
    {
      results := results[client := Recorded(request, result)];
    }

    method ApplyOne(data: Bytes, fault: Fault) returns (o: Outcome)
      modifies this
      ensures (View(), o) == ApplyEntry(old(View()), data, fault)
    {
      hide PP.Decode, Apply;
      if data == [] {
        return Done("noop");
      }
      var payload := PP.DecodePayload(data);
      if payload.None? {
        return BadPayload;
      }
      var p := payload.value;
      var previous := FindResult(p.client, p.request);
      if previous.Older? {
        return StaleRequest;
      }
      if previous.Repeated? {
        return Done(previous.result);
      }
      if fault.WriteFails? {
        return WriteError;
      }
      kv := Apply(kv, p.batch);
      if fault.SaveFails? {
        return SaveError;
      }
      SaveResult(p.client, p.request, "applied");
      return Done("applied");
    }

    // Keys of the range, in iteration order.
    method RangeKeys(start: Bytes, end: Option<Bytes>) returns (ks: seq<Bytes>)
      ensures KeysOf(kv, start, end, ks)
    {
      var all := Seek(kv, start);
      var i := 0;
      while i < |all| && (end.None? || Less(all[i], end.value))
        invariant 0 <= i <= |all|
        invariant forall j :: 0 <= j < i ==> InRange(all[j], start, end)
      {
        assert all[i] in all;
        i := i + 1;
      }
      RangeEndsAt(kv, start, end, all, i);
      ks := all[..i];
    }

    /** The blob of the range, with the pair count filled in at the end. */
    method TakeSnapshot(start: Option<Bytes>, end: Option<Bytes>) returns (r: Option<Bytes>)
      requires SizedStore(kv)
      ensures r.Some? <==> start.Some? && GoodRange(start.value, end)
      ensures r.Some? ==> IsSnapshotOf(r.value, kv, start.value, end)
    {
      if start.None? || (end.Some? && AtMost(end.value, start.value)) {
        return None;
      }
      var ks := RangeKeys(start.value, end);
      NoMoreKeys(ks, kv.Keys);
      ghost var ps := PairsOf(kv, ks);
      SizedRange(kv, ks);
      var body, count := WritePairs(ks);
      var blob := MAGIC + PutU32(SNAPSHOT_VERSION) + PutU64(count) + body;
      HeaderFirst(ps, body);
      assert SnapshotOver(blob, kv, start.value, end, ks);
      return Some(blob);
    }

    // The pairs one after another, counted on the way.
    method WritePairs(ks: seq<Bytes>) returns (body: Bytes, count: nat)
      requires (forall k :: k in ks ==> k in kv) && SizedPairs(PairsOf(kv, ks))
      ensures body == EncodePairs(PairsOf(kv, ks)) && count == |ks|
    {
      hide PutBytes;
      ghost var ps := PairsOf(kv, ks);
      body, count := [], 0;
      assert ps[0..] == ps;
      for i := 0 to |ks|
        invariant count == i && body + EncodePairs(ps[i..]) == EncodePairs(ps)
      {
        assert ks[i] in ks && ps[i] == (ks[i], kv[ks[i]]);
        assert ps[i..][1..] == ps[i + 1..];
        ghost var tail := EncodePairs(ps[i + 1..]);
        assert body + (PutBytes(ks[i]) + (PutBytes(kv[ks[i]]) + tail)) ==
               (body + PutBytes(ks[i]) + PutBytes(kv[ks[i]])) + tail;
        body := body + PutBytes(ks[i]) + PutBytes(kv[ks[i]]);
        count := count + 1;
      }
      assert ps[|ks|..] == [] && body + [] == body;
    }

    // The pairs of a blob through the offset reader.
    method ParsePairs(c: Cursor, count: nat) returns (ok: bool, ps: Pairs)
      requires c.Valid()
      modifies c
      ensures c.Valid() && (ok <==> ReadPairs(old(c.Rest()), count).Got?)
      ensures ok ==> ReadPairs(old(c.Rest()), count) == Got(ps, c.Rest())
    {
      hide ReadBytes, ReadPairs;
      ps := [];
      PairsBehindNothing(ReadPairs(c.Rest(), count));
      for i := 0 to count
        invariant c.Valid()
        invariant ReadPairs(old(c.Rest()), count) == PairsBehind(ps, ReadPairs(c.Rest(), count - i))
      {
        NextPair(c.Rest(), count - i, ps);
        var ok1, k := c.ByteString();
        if !ok1 {
          return false, ps;
        }
        var ok2, v := c.ByteString();
        if !ok2 {
          return false, ps;
        }
        ps := ps + [(k, v)];
      }
      NoPairs(c.Rest(), ps);
      return true, ps;
    }

    method ParseBlob(blob: Bytes) returns (r: Option<Pairs>)
      ensures r == DecodeSnapshot(blob)
    {
      hide ReadPairs, ReadU32, ReadU64;
      if |blob| < Snapshot.HEADER_SIZE || blob[..4] != MAGIC {
        return None;
      }
      var c := new Cursor(blob, 4);
      var ok1, version := c.U32();
      if !ok1 || version != SNAPSHOT_VERSION {
        return None;
      }
      var ok2, count := c.U64();
      if !ok2 || count > |blob| {
        return None;
      }
      var ok3, ps := ParsePairs(c, count);
      if !ok3 || c.offset != |blob| {
        return None;
      }
      return Some(ps);
    }

    /** Clears the range and writes the blob's pairs as one batch, or does nothing. */
    method RestoreSnapshot(start: Option<Bytes>, end: Option<Bytes>, blob: Bytes) returns (ok: bool)
      modifies this`kv
      ensures ok <==> DecodeSnapshot(blob).Some? && start.Some? && GoodRange(start.value, end)
      ensures !ok ==> kv == old(kv)
      ensures ok ==> Restored(old(kv), start.value, end, blob) == Some(kv)
    {
      hide DecodeSnapshot, Apply;
      var pairs := ParseBlob(blob);
      if pairs.None? {
        return false;
      }
      if start.None? || (end.Some? && AtMost(end.value, start.value)) {
        return false;
      }
      var clear;
      if end.Some? {
        clear := [RemoveRange(start.value, end.value)];
        RangeClears(kv, start.value, end.value);
      } else {
        var ks := Seek(kv, start.value);
        clear := Removes(ks);
        KeysClear(kv, start.value, ks);
      }
      ClearedIsOutside(kv, start.value, end, clear);
      ApplyConcat(kv, clear, Puts(pairs.value));
      kv := Apply(kv, clear + Puts(pairs.value));
      return true;
    }
  }

  function PairsBehind(done: Pairs, r: Read<Pairs>): Read<Pairs> {
    match r
    case Short => Short
    case Got(ps, rest) => Got(done + ps, rest)
  }

  lemma PairsBehindNothing(r: Read<Pairs>)
    ensures PairsBehind([], r) == r
  {
    if r.Got? {
      assert [] + r.value == r.value;
    }
  }

  lemma NextPair(d: Bytes, n: nat, done: Pairs)
    requires n > 0
    ensures ReadPair(d).Short? ==> ReadPairs(d, n).Short?
    ensures ReadPair(d).Got? ==>
              PairsBehind(done, ReadPairs(d, n)) ==
              PairsBehind(done + [ReadPair(d).value], ReadPairs(ReadPair(d).rest, n - 1))
  {
    hide ReadPair;
    if ReadPair(d).Got? && ReadPairs(ReadPair(d).rest, n - 1).Got? {
      var p, more := ReadPair(d).value, ReadPairs(ReadPair(d).rest, n - 1).value;
      assert done + ([p] + more) == done + [p] + more;
    }
  }

  lemma NoPairs(d: Bytes, done: Pairs)
    ensures PairsBehind(done, ReadPairs(d, 0)) == Got(done, d)
  {
    assert done + [] == done;
  }

  lemma SizedRange(kv: Store, ks: seq<Bytes>)
    requires SizedStore(kv) && forall k :: k in ks ==> k in kv
    ensures SizedPairs(PairsOf(kv, ks))
  {
    var ps := PairsOf(kv, ks);
    forall i | 0 <= i < |ps|
      ensures Sized(ps[i].0) && Sized(ps[i].1)
    {
      assert ks[i] in ks;
    }
  }

  lemma HeaderFirst(ps: Pairs, body: Bytes)
    requires SizedPairs(ps) && |ps| < TWO_64 && body == EncodePairs(ps)
    ensures MAGIC + PutU32(SNAPSHOT_VERSION) + PutU64(|ps|) + body == EncodeSnapshot(ps)
  {
    hide EncodePairs, PutU32, PutU64;
    Regroup(MAGIC, PutU32(SNAPSHOT_VERSION), PutU64(|ps|), body);
  }

  lemma Regroup(a: Bytes, b: Bytes, c: Bytes, d: Bytes)
    ensures a + b + c + d == a + (b + (c + d))
  {
  }

  // Keys, values and their number are within a machine word.
  ghost predicate SizedStore(kv: Store) {
    |kv| < TWO_64 && forall k :: k in kv ==> Sized(k) && Sized(kv[k])
  }

  // The first `i` keys of an ascending list that all lie below `end`, when the
  // next one does not, are the keys of the range.
  lemma RangeEndsAt(kv: Store, start: Bytes, end: Option<Bytes>, ks: seq<Bytes>, i: nat)
    requires Ascending(ks) && (forall k :: k in ks <==> k in kv && AtMost(start, k)) && i <= |ks|
    requires forall j :: 0 <= j < i ==> InRange(ks[j], start, end)
    requires i < |ks| ==> end.Some? && AtMost(end.value, ks[i])
    ensures KeysOf(kv, start, end, ks[..i])
  {
    forall k | k in kv && InRange(k, start, end)
      ensures k in ks[..i]
    {
      assert k in ks;
      var j :| 0 <= j < |ks| && ks[j] == k;
      if j > i {
        AtMostLess(end.value, ks[i], k);
        LessIsStrict(end.value, k);
      }
    }
    forall k | k in ks[..i]
      ensures k in kv && InRange(k, start, end)
    {
      var j :| 0 <= j < i && ks[j] == k;
      assert ks[j] in ks;
    }
  }

  // ------------------------------------------------------------ the apply loop

  const EMPTY := Machine(map[], map[])

  // One attempt at the entry behind the last applied one; a failed attempt is
  // retried by a later one.
  function Attempt(log: seq<Bytes>, m: Machine, applied: nat, fault: Fault): (Machine, nat)
    requires applied <= |log|
  {
    if applied == |log| then (m, applied)
    else
      var r := ApplyEntry(m, log[applied], fault);
      (r.0, if r.1.Done? then applied + 1 else applied)
  }

  function Attempts(log: seq<Bytes>, faults: seq<Fault>): (r: (Machine, nat))
    ensures r.1 <= |log|
  {
    if faults == [] then (EMPTY, 0)
    else
      var before := Attempts(log, faults[..|faults| - 1]);
      Attempt(log, before.0, before.1, faults[|faults| - 1])
  }

  // The machine that never meets a fault.
  function Ideal(log: seq<Bytes>, n: nat): Machine
    requires n <= |log|
  {
    if n == 0 then EMPTY else ApplyEntry(Ideal(log, n - 1), log[n - 1], NoFault).0
  }

  predicate Accepted(log: seq<Bytes>, n: nat)
    requires n < |log|
  {
    ApplyEntry(Ideal(log, n), log[n], NoFault).1.Done?
  }

  predicate AllAccepted(log: seq<Bytes>, n: nat)
    requires n <= |log|
  {
    forall i :: 0 <= i < n ==> Accepted(log, i)
  }

  // The batch of entry `n` went in, but its result was not recorded.
  predicate HalfDone(log: seq<Bytes>, n: nat, kv: Store)
    requires n <= |log|
  {
    n < |log| && log[n] != [] && PP.Decode(log[n]).Some? &&
    (var p := PP.Decode(log[n]).value;
     Find(Ideal(log, n).results, p.client, p.request).Unseen? && kv == Apply(Ideal(log, n).kv, p.batch))
  }

  ghost predicate Tracks(log: seq<Bytes>, m: Machine, n: nat) {
    && n <= |log| && AllAccepted(log, n) && m.results == Ideal(log, n).results
    && (m.kv == Ideal(log, n).kv || HalfDone(log, n, m.kv))
  }

  lemma AttemptTracks(log: seq<Bytes>, m: Machine, n: nat, fault: Fault)
    requires Tracks(log, m, n)
    ensures var r := Attempt(log, m, n, fault); Tracks(log, r.0, r.1)
  {
    hide PP.Decode, Apply;
    if n < |log| && log[n] != [] && PP.Decode(log[n]).Some? {
      ApplyIsIdempotent(Ideal(log, n).kv, PP.Decode(log[n]).value.batch);
    }
  }

  /**
   Exactly-once effect: whatever writes and saves fail on the way, the recorded
   requests are those of the fault-free machine over the applied entries, and
   the store is its store, at most with the next entry's batch already in it.
   */
  lemma {:induction false} RetriesAreHarmless(log: seq<Bytes>, faults: seq<Fault>)
    ensures var r := Attempts(log, faults); Tracks(log, r.0, r.1)
  {
    if faults != [] {
      hide ApplyEntry, Ideal;
      RetriesAreHarmless(log, faults[..|faults| - 1]);
      var before := Attempts(log, faults[..|faults| - 1]);
      AttemptTracks(log, before.0, before.1, faults[|faults| - 1]);
    } else {
      assert Ideal(log, 0) == EMPTY;
    }
  }

  // ------------------------------------------------ each request counted once

  function RequestOf(data: Bytes): Option<(Word, Word)> {
    if data == [] then None
    else
      match PP.Decode(data)
      case None => None
      case Some(p) => Some((p.client, p.request))
  }

  // Entry `i` is the first to carry its (client, request).
  predicate IsFirst(log: seq<Bytes>, i: nat)
    requires i < |log|
  {
    RequestOf(log[i]).Some? && forall j :: 0 <= j < i ==> RequestOf(log[j]) != RequestOf(log[i])
  }

  // The batches of first carriers, in log order.
  function FoldOnce(log: seq<Bytes>, n: nat): Store
    requires n <= |log|
  {
    if n == 0 then map[]
    else if IsFirst(log, n - 1) then Apply(FoldOnce(log, n - 1), PP.Decode(log[n - 1]).value.batch)
    else FoldOnce(log, n - 1)
  }

  // What is recorded for a client is its latest request, which is its largest.
  ghost predicate LatestRecorded(log: seq<Bytes>, n: nat, results: map<Word, Recorded>)
    requires n <= |log|
  {
    && (forall c :: c in results ==> exists j :: 0 <= j < n && RequestOf(log[j]) == Some((c, results[c].request)))
    && (forall j :: 0 <= j < n && RequestOf(log[j]).Some? ==>
          var (c, q) := RequestOf(log[j]).value; c in results && q <= results[c].request)
  }

  // The record already holds this very request.
  predicate Known(results: map<Word, Recorded>, request: Option<(Word, Word)>) {
    request.Some? && request.value.0 in results && results[request.value.0].request == request.value.1
  }

  // How accepting an entry that carries `request` changes the record.
  predicate Advances(before: map<Word, Recorded>, after: map<Word, Recorded>, request: Option<(Word, Word)>) {
    if request.None? || Known(before, request) then after == before
    else
      var (c, q) := request.value;
      (c in before ==> before[c].request < q) && after == before[c := Recorded(q, "applied")]
  }

  lemma AcceptedEntry(log: seq<Bytes>, n: nat)
    requires n < |log| && Accepted(log, n)
    ensures Advances(Ideal(log, n).results, Ideal(log, n + 1).results, RequestOf(log[n]))
    ensures Ideal(log, n + 1).kv ==
            if RequestOf(log[n]).None? || Known(Ideal(log, n).results, RequestOf(log[n])) then Ideal(log, n).kv
            else Apply(Ideal(log, n).kv, PP.Decode(log[n]).value.batch)
  {
    hide PP.Decode, Apply;
  }

  lemma LatestGrows(log: seq<Bytes>, n: nat, before: map<Word, Recorded>, after: map<Word, Recorded>)
    requires n < |log| && LatestRecorded(log, n, before) && Advances(before, after, RequestOf(log[n]))
    ensures LatestRecorded(log, n + 1, after)
  {
    hide RequestOf;
    forall x | x in after
      ensures exists j :: 0 <= j < n + 1 && RequestOf(log[j]) == Some((x, after[x].request))
    {
      if x in before && before[x] == after[x] {
        var j :| 0 <= j < n && RequestOf(log[j]) == Some((x, before[x].request));
      } else {
        assert RequestOf(log[n]) == Some((x, after[x].request));
      }
    }
  }

  lemma FirstIsUnknown(log: seq<Bytes>, n: nat, before: map<Word, Recorded>, after: map<Word, Recorded>)
    requires n < |log| && LatestRecorded(log, n, before) && Advances(before, after, RequestOf(log[n]))
    ensures IsFirst(log, n) <==> RequestOf(log[n]).Some? && !Known(before, RequestOf(log[n]))
  {
    hide RequestOf;
    if RequestOf(log[n]).Some? {
      var (c, q) := RequestOf(log[n]).value;
      if Known(before, RequestOf(log[n])) {
        var j :| 0 <= j < n && RequestOf(log[j]) == Some((c, before[c].request));
      } else {
        forall j | 0 <= j < n
          ensures RequestOf(log[j]) != RequestOf(log[n])
        {
        }
      }
    }
  }

  lemma OnceStep(log: seq<Bytes>, n: nat)
    requires n < |log| && Accepted(log, n) && LatestRecorded(log, n, Ideal(log, n).results)
    requires Ideal(log, n).kv == FoldOnce(log, n)
    ensures LatestRecorded(log, n + 1, Ideal(log, n + 1).results)
    ensures Ideal(log, n + 1).kv == FoldOnce(log, n + 1)
  {
    hide Ideal, Accepted, RequestOf, Apply, PP.Decode, LatestRecorded, Advances, IsFirst, Known, FoldOnce;
    var before, after := Ideal(log, n).results, Ideal(log, n + 1).results;
    AcceptedEntry(log, n);
    LatestGrows(log, n, before, after);
    FirstIsUnknown(log, n, before, after);
    FirstDecodes(log, n);
    FoldOnceStep(log, n);
  }

  lemma FoldOnceStep(log: seq<Bytes>, n: nat)
    requires n < |log|
    ensures IsFirst(log, n) ==>
              PP.Decode(log[n]).Some? && FoldOnce(log, n + 1) == Apply(FoldOnce(log, n), PP.Decode(log[n]).value.batch)
    ensures !IsFirst(log, n) ==> FoldOnce(log, n + 1) == FoldOnce(log, n)
  {
    hide Apply, PP.Decode;
    FirstDecodes(log, n);
  }

  /** The store is the fold of the batches with repeats counted once. */
  lemma {:induction false} EachRequestOnce(log: seq<Bytes>, n: nat)
    requires n <= |log| && AllAccepted(log, n)
    ensures LatestRecorded(log, n, Ideal(log, n).results)
    ensures Ideal(log, n).kv == FoldOnce(log, n)
  {
    hide Ideal, Accepted, FoldOnce, LatestRecorded;
    if n == 0 {
      NoneYet(log);
    } else {
      assert Accepted(log, n - 1);
      EachRequestOnce(log, n - 1);
      OnceStep(log, n - 1);
    }
  }

  lemma NoneYet(log: seq<Bytes>)
    ensures LatestRecorded(log, 0, Ideal(log, 0).results) && Ideal(log, 0).kv == FoldOnce(log, 0)
  {
    hide RequestOf, PP.Decode, Apply, ApplyEntry;
  }

  /**
   The two together: after any faults and retries the store is the fold with
   repeats counted once, at most with the next entry's batch already in it.
   */
  lemma ExactlyOnce(log: seq<Bytes>, faults: seq<Fault>)
    ensures var (m, n) := Attempts(log, faults);
            && n <= |log| && LatestRecorded(log, n, m.results)
            && (m.kv == FoldOnce(log, n) ||
                (n < |log| && PP.Decode(log[n]).Some? &&
                 m.kv == Apply(FoldOnce(log, n), PP.Decode(log[n]).value.batch)))
  {
    hide Attempts, Ideal, AllAccepted, FoldOnce, LatestRecorded, PP.Decode, Apply;
    RetriesAreHarmless(log, faults);
    EachRequestOnce(log, Attempts(log, faults).1);
  }

  lemma FirstDecodes(log: seq<Bytes>, n: nat)
    requires n < |log|
    ensures IsFirst(log, n) ==> PP.Decode(log[n]).Some?
    ensures RequestOf(log[n]).Some? ==> PP.Decode(log[n]).Some?
  {
  }

  /** A client's recorded request never decreases, and rises with every batch written for it. */
  lemma RecordedRequestsRise(log: seq<Bytes>, n: nat, c: Word)
    requires n < |log| && Accepted(log, n) && c in Ideal(log, n).results
    ensures c in Ideal(log, n + 1).results
    ensures Ideal(log, n).results[c].request <= Ideal(log, n + 1).results[c].request
    ensures Ideal(log, n).results[c] != Ideal(log, n + 1).results[c] ==>
              Ideal(log, n).results[c].request < Ideal(log, n + 1).results[c].request
  {
    AcceptedEntry(log, n);
  }

}
