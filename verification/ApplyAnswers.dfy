/**
 Which entries the state machine accepts, what it answers, and how far it gets:
 decided by the requests the log carries, not by the record it keeps.
 */
module ApplyAnswers {
  import opened Wrappers
  import opened Bytes
  import opened KvStore
  import opened KeyCodec
  import opened StateMachine
  import PP = ProposalPayload

  // An earlier entry carries a later request of the same client.
  ghost predicate Overtaken(log: seq<Bytes>, n: nat)
    requires n < |log| && RequestOf(log[n]).Some?
  {
    exists j :: 0 <= j < n && LaterRequest(RequestOf(log[j]), RequestOf(log[n]).value)
  }

  predicate LaterRequest(other: Option<(Word, Word)>, mine: (Word, Word)) {
    other.Some? && other.value.0 == mine.0 && other.value.1 > mine.1
  }

  // What the record says about an entry, in terms of the log.
  lemma FoundInLog(log: seq<Bytes>, n: nat, results: map<Word, Recorded>)
    requires n < |log| && RequestOf(log[n]).Some? && LatestRecorded(log, n, results)
    ensures var (c, q) := RequestOf(log[n]).value;
            && (Find(results, c, q).Older? <==> Overtaken(log, n))
            && (Find(results, c, q).Unseen? <==> IsFirst(log, n) && !Overtaken(log, n))
  {
    hide RequestOf;
    var (c, q) := RequestOf(log[n]).value;
    if c in results {
      var j :| 0 <= j < n && RequestOf(log[j]) == Some((c, results[c].request));
      assert Find(results, c, q).Older? ==> LaterRequest(RequestOf(log[j]), (c, q));
    }
  }

  // Every record was left by a request that was applied.
  lemma {:induction false} RecordedAsApplied(log: seq<Bytes>, n: nat, c: Word)
    requires n <= |log| && AllAccepted(log, n) && c in Ideal(log, n).results
    ensures Ideal(log, n).results[c].result == "applied"
  {
    hide Accepted, PP.Decode, Apply;
    if n > 0 {
      assert Accepted(log, n - 1);
      AcceptedEntry(log, n - 1);
      if c in Ideal(log, n - 1).results { RecordedAsApplied(log, n - 1, c); }
    }
  }

  // The answer to entry n when everything in front of it was applied.
  ghost function Answer(log: seq<Bytes>, n: nat): Outcome
    requires n < |log|
  {
    if log[n] == [] then Done("noop")
    else if RequestOf(log[n]).None? then BadPayload
    else if Overtaken(log, n) then StaleRequest
    else Done("applied")
  }

  // What a client still owes: a fault strikes only where the batch is written.
  ghost function Struck(log: seq<Bytes>, n: nat, fault: Fault): Outcome
    requires n < |log|
  {
    if RequestOf(log[n]).None? || !IsFirst(log, n) || Overtaken(log, n) || fault.NoFault? then Answer(log, n)
    else if fault.WriteFails? then WriteError else SaveError
  }

  lemma EntryAnswer(m: Machine, data: Bytes, fault: Fault)
    ensures var o := ApplyEntry(m, data, fault).1;
            if data == [] then o == Done("noop")
            else if RequestOf(data).None? then o == BadPayload
            else
              var (c, q) := RequestOf(data).value;
              match Find(m.results, c, q)
              case Older => o == StaleRequest
              case Repeated(result) => o == Done(result)
              case Unseen => o == (match fault case NoFault => Done("applied") case WriteFails => WriteError
                                   case SaveFails => SaveError)
  {
    hide PP.Decode, Apply;
  }

  /**
   Every answer follows from the log alone. An entry without data is a no-op;
   one that is not a payload, or whose client is already further, is refused; a
   first carrier is applied unless its write or its save fails; and a repeat is
   answered with what the first carrier was answered.
   */
  lemma AnswersExact(log: seq<Bytes>, n: nat, fault: Fault)
    requires n < |log| && AllAccepted(log, n)
    ensures ApplyEntry(Ideal(log, n), log[n], fault).1 == Struck(log, n, fault)
  {
    hide Ideal, ApplyEntry, AllAccepted, RequestOf, LatestRecorded, IsFirst, Overtaken;
    EntryAnswer(Ideal(log, n), log[n], fault);
    EachRequestOnce(log, n);
    if RequestOf(log[n]).Some? {
      var (c, q) := RequestOf(log[n]).value;
      FoundInLog(log, n, Ideal(log, n).results);
      if c in Ideal(log, n).results { RecordedAsApplied(log, n, c); }
      assert log[n] != [] by { NoRequest(); }
    }
  }

  lemma NoRequest()
    ensures RequestOf([]).None?
  {
  }

  /** Accepted are exactly the no-ops and the requests no later request of the same client precedes. */
  lemma AcceptedExact(log: seq<Bytes>, n: nat)
    requires n < |log| && AllAccepted(log, n)
    ensures Accepted(log, n) <==> log[n] == [] || (RequestOf(log[n]).Some? && !Overtaken(log, n))
  {
    hide Ideal, ApplyEntry, AllAccepted, RequestOf, Overtaken, IsFirst;
    AnswersExact(log, n, NoFault);
    NoRequest();
  }

  // ----------------------------------------------------------------- progress

  // Entries up to n are accepted and no further one is.
  ghost predicate EndsAt(log: seq<Bytes>, n: nat) {
    n <= |log| && AllAccepted(log, n) && (n < |log| ==> !Accepted(log, n))
  }

  function Calm(k: nat): seq<Fault> {
    seq(k, _ => NoFault)
  }

  lemma CalmAttempt(log: seq<Bytes>, m: Machine, a: nat, n: nat)
    requires Tracks(log, m, a) && EndsAt(log, n)
    ensures a <= n
    ensures Attempt(log, m, a, NoFault).1 == if a < n then a + 1 else n
  {
    hide PP.Decode, Apply, Ideal, Find;
    if a < n { assert Accepted(log, a); }
    if a < |log| {
      EntryAnswer(m, log[a], NoFault);
      EntryAnswer(Ideal(log, a), log[a], NoFault);
    }
  }

  lemma NothingHalfDone(log: seq<Bytes>, m: Machine, n: nat)
    requires Tracks(log, m, n) && EndsAt(log, n)
    ensures m == Ideal(log, n)
  {
    hide PP.Decode, Apply, Ideal;
  }

  lemma {:induction false} CalmAttempts(log: seq<Bytes>, faults: seq<Fault>, n: nat, k: nat)
    requires EndsAt(log, n)
    ensures var a := Attempts(log, faults).1;
            a <= n && Attempts(log, faults + Calm(k)).1 == if a + k < n then a + k else n
  {
    hide Attempt, EndsAt, Tracks;
    RetriesAreHarmless(log, faults);
    CalmAttempt(log, Attempts(log, faults).0, Attempts(log, faults).1, n);
    if k == 0 {
      assert faults + Calm(0) == faults;
    } else {
      CalmAttempts(log, faults, n, k - 1);
      var fs := faults + Calm(k);
      assert fs[..|fs| - 1] == faults + Calm(k - 1) && fs[|fs| - 1] == NoFault;
      RetriesAreHarmless(log, faults + Calm(k - 1));
      var before := Attempts(log, faults + Calm(k - 1));
      CalmAttempt(log, before.0, before.1, n);
    }
  }

  /**
   Once the faults stop, the machine reaches the first entry that is not
   accepted, and there it is the machine that never met a fault.
   */
  lemma FaultFreeReaches(log: seq<Bytes>, faults: seq<Fault>, n: nat, k: nat)
    requires EndsAt(log, n) && k >= n
    ensures Attempts(log, faults + Calm(k)) == (Ideal(log, n), n)
  {
    hide Attempts, EndsAt, Tracks, Ideal;
    CalmAttempts(log, faults, n, k);
    RetriesAreHarmless(log, faults + Calm(k));
    NothingHalfDone(log, Attempts(log, faults + Calm(k)).0, n);
  }
}
