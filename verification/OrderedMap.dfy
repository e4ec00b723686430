/**
 An ordered key-value database as the engines present it: a map whose iterators
 visit the keys in byte order.
 */
module OrderedMap {
  import opened Bytes

  type Database = map<Bytes, Bytes>

  predicate Ascending(ks: seq<Bytes>) {
    forall i, j :: 0 <= i < j < |ks| ==> Less(ks[i], ks[j])
  }

  lemma {:induction false} LeastExists(ks: set<Bytes>) returns (least: Bytes)
    requires ks != {}
    ensures least in ks && forall k :: k in ks ==> AtMost(least, k)
    decreases |ks|
  {
    var x :| x in ks;
    LessIsIrreflexive(x);
    if ks == {x} {
      least := x;
    } else {
      var rest := LeastExists(ks - {x});
      LessIsTotal(x, rest);
      least := if Less(x, rest) then x else rest;
      forall k | k in ks
        ensures AtMost(least, k)
      {
        if k != x && least == x {
          LessAtMost(x, rest, k);
          LessIsStrict(x, k);
        }
      }
    }
  }

  // The keys an iterator placed at `start` goes through.
  method Seek(db: Database, start: Bytes) returns (ks: seq<Bytes>)
    ensures Ascending(ks)
    ensures forall k :: k in ks <==> k in db && AtMost(start, k)
  {
    ks := [];
    var rest := set k | k in db && AtMost(start, k);
    ghost var all := rest;
    while rest != {}
      invariant Ascending(ks) && rest <= all
      invariant forall k :: k in all <==> k in ks || k in rest
      invariant forall i, k :: 0 <= i < |ks| && k in rest ==> Less(ks[i], k)
      decreases |rest|
    {
      ghost var smallest := LeastExists(rest);
      var least :| least in rest && forall k :: k in rest ==> AtMost(least, k);
      ghost var before := rest;
      rest := rest - {least};
      forall k | k in rest
        ensures Less(least, k)
      {
        assert k in before && AtMost(least, k);
        LessIsTotal(least, k);
      }
      ks := ks + [least];
    }
  }

  // Keys in order are distinct, so there are no more of them than entries.
  lemma {:induction false} NoMoreKeys(ks: seq<Bytes>, keys: set<Bytes>)
    requires Ascending(ks) && forall k :: k in ks ==> k in keys
    ensures |ks| <= |keys|
  {
    if ks != [] {
      var n := |ks| - 1;
      forall k | k in ks[..n]
        ensures k in keys - {ks[n]}
      {
        var i :| 0 <= i < n && ks[i] == k;
        LessIsStrict(ks[i], ks[n]);
      }
      NoMoreKeys(ks[..n], keys - {ks[n]});
      assert ks[n] in keys;
    }
  }

}
