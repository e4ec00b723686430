/**
 Ranges of primary keys as the optimizer handles them: optional bounds, each
 open or closed, with NULL as a possible bound.

 Everything the operations decide on bounds is decided by the flattened form, a
 half-open interval of encoded keys: emptiness, overlap, adjacency, intersection
 and union of ranges are those of the intervals, and `Contains` agrees with
 scanning the interval.
 */
module KeyRanges {
  import opened Wrappers
  import opened Bytes
  import opened SqlValues
  import opened KeyCodec

  datatype KeyRange = KeyRange(
    ty: DataType, low: Option<Value>, high: Option<Value>, lowExclusive: bool, highInclusive: bool)

  // -------------------------------------------------------------- factories

  function All(ty: DataType): KeyRange {
    KeyRange(ty, None, None, false, false)
  }

  function NonNull(ty: DataType): KeyRange {
    KeyRange(ty, Some(Null), None, true, false)
  }

  function NullOnly(ty: DataType): KeyRange {
    KeyRange(ty, None, Some(Null), false, true)
  }

  function Empty(ty: DataType): KeyRange {
    KeyRange(ty, Some(Null), Some(Null), true, false)
  }

  function From(v: Value): KeyRange {
    if v.Null? then All(Unknown) else KeyRange(TypeOf(v), Some(v), None, false, false)
  }

  function Gt(v: Value): KeyRange {
    if v.Null? then Empty(Unknown) else From(v).(lowExclusive := true)
  }

  function Ge(v: Value): KeyRange {
    if v.Null? then Empty(Unknown) else From(v)
  }

  function Lt(v: Value): KeyRange {
    if v.Null? then Empty(Unknown) else NonNull(TypeOf(v)).(high := Some(v), highInclusive := false)
  }

  function Le(v: Value): KeyRange {
    if v.Null? then Empty(Unknown) else NonNull(TypeOf(v)).(high := Some(v), highInclusive := true)
  }

  function Closed(low: Value, high: Value): KeyRange {
    if low.Null? || high.Null? then Empty(Unknown)
    else KeyRange(TypeOf(low), Some(low), Some(high), false, true)
  }

  function Point(v: Value): KeyRange {
    if v.Null? then Empty(Unknown) else Closed(v, v)
  }

  // ------------------------------------------------------------- inspection

  function LowKey(r: KeyRange): Option<Bytes> {
    if r.low.None? then None
    else
      var k := StoredKey(r.low.value, r.ty);
      Some(if r.lowExclusive then k + [0] else k)
  }

  function HighKey(r: KeyRange): Option<Bytes> {
    if r.high.None? then None
    else
      var k := StoredKey(r.high.value, r.ty);
      Some(if r.highInclusive then k + [0] else k)
  }

  predicate IsEmpty(r: KeyRange) {
    (r.high == Some(Null) && !r.highInclusive) ||
    (LowKey(r).Some? && HighKey(r).Some? && !Less(LowKey(r).value, HighKey(r).value))
  }

  predicate IsPoint(r: KeyRange) {
    !IsEmpty(r) &&
    if !r.highInclusive && !r.lowExclusive && r.low.Some? && r.high.Some? &&
       r.low.value.Int? && r.high.value.Int? then
      r.high.value.n - r.low.value.n == 1
    else if r.highInclusive && !r.lowExclusive && r.low.Some? && r.high.Some? then
      r.low.value == r.high.value
    else r.low.None? && r.high == Some(Null) && r.highInclusive
  }

  function PointValue(r: KeyRange): Value {
    if !IsPoint(r) then Null
    else if r.low.Some? then (if r.lowExclusive then r.high.value else r.low.value)
    else r.high.value
  }

  predicate Contains(r: KeyRange, v: Value) {
    !IsEmpty(r) &&
    if v.Null? then
      (r.low.None? || (r.low.value.Null? && !r.lowExclusive)) &&
      (r.high.None? || !r.high.value.Null? || r.highInclusive)
    else
      (LowKey(r).Some? ==> AtMost(LowKey(r).value, KeyOf(v))) &&
      (HighKey(r).Some? ==> Less(KeyOf(v), HighKey(r).value))
  }

  predicate Overlaps(a: KeyRange, b: KeyRange) {
    !IsEmpty(a) && !IsEmpty(b) &&
    (LowKey(a).Some? && HighKey(b).Some? ==> Less(LowKey(a).value, HighKey(b).value)) &&
    (LowKey(b).Some? && HighKey(a).Some? ==> Less(LowKey(b).value, HighKey(a).value))
  }

  predicate IsAdjacent(a: KeyRange, b: KeyRange) {
    !IsEmpty(a) && !IsEmpty(b) &&
    ((HighKey(a).Some? && HighKey(a) == LowKey(b)) || (LowKey(a).Some? && LowKey(a) == HighKey(b)))
  }

  // ---------------------------------------------------------- set operations

  // An inclusive NULL lower bound is the same as no lower bound.
  function Normalized(r: KeyRange): KeyRange {
    if r.low == Some(Null) && !r.lowExclusive then r.(low := None) else r
  }

  function MergeType(a: DataType, b: DataType): DataType {
    if !a.Unknown? then a else b
  }

  function WithLow(r: KeyRange, from: KeyRange): KeyRange {
    r.(low := from.low, lowExclusive := from.lowExclusive)
  }

  function WithHigh(r: KeyRange, from: KeyRange): KeyRange {
    r.(high := from.high, highInclusive := from.highInclusive)
  }

  function Intersect(a: KeyRange, b: KeyRange): KeyRange {
    if IsEmpty(a) || IsEmpty(b) then Empty(Unknown)
    else
      var lower :=
        if LowKey(a).None? then b
        else if LowKey(b).None? then a
        else if Less(LowKey(a).value, LowKey(b).value) then b else a;
      var upper :=
        if HighKey(a).None? then b
        else if HighKey(b).None? then a
        else if Less(HighKey(b).value, HighKey(a).value) then b else a;
      Normalized(WithHigh(WithLow(All(MergeType(a.ty, b.ty)), lower), upper))
  }

  // The union of two ranges that overlap or touch.
  function Joined(a: KeyRange, b: KeyRange): KeyRange {
    var lower :=
      if LowKey(a).None? then a
      else if LowKey(b).None? then b
      else if Less(LowKey(a).value, LowKey(b).value) then a else b;
    var upper :=
      if HighKey(a).None? then a
      else if HighKey(b).None? then b
      else if Less(HighKey(a).value, HighKey(b).value) then b else a;
    Normalized(WithHigh(WithLow(All(MergeType(a.ty, b.ty)), lower), upper))
  }

  function Unite(a: KeyRange, b: KeyRange): seq<KeyRange> {
    if IsEmpty(a) then [b]
    else if IsEmpty(b) then [a]
    else if !Overlaps(a, b) && !IsAdjacent(a, b) then [a, b]
    else [Joined(a, b)]
  }

  // ---------------------------------------------------------- flattened form

  // The interval handed to the storage scan.
  function Start(r: KeyRange, fallback: DataType): Bytes {
    var ty := if r.ty.Unknown? then fallback else r.ty;
    if IsEmpty(r) || r.low.None? then NullKey(ty)
    else
      var k := StoredKey(r.low.value, ty);
      if r.lowExclusive then k + [0] else k
  }

  function End(r: KeyRange, fallback: DataType): Bytes {
    var ty := if r.ty.Unknown? then fallback else r.ty;
    if IsEmpty(r) then NullKey(ty)
    else if r.high.None? then UpperKey(ty)
    else
      var k := StoredKey(r.high.value, ty);
      if r.highInclusive then k + [0] else k
  }

  predicate Scanned(r: KeyRange, k: Bytes, fallback: DataType) {
    AtMost(Start(r, fallback), k) && Less(k, End(r, fallback))
  }

  // A range over one column: bounds of its type, in normal form.
  predicate Typed(r: KeyRange, ty: DataType) {
    && r.ty == ty && !ty.Unknown?
    && (r.low.Some? ==> Fits(r.low.value, ty))
    && (r.high.Some? ==> Fits(r.high.value, ty))
    && !(r.low == Some(Null) && !r.lowExclusive)
  }

  // ------------------------------------------------- how bounds and keys meet

  // Every bound of the family lies between the family's own two bounds.
  lemma BoundPlace(v: Value, ty: DataType)
    requires Fits(v, ty) && !ty.Unknown?
    ensures AtMost(NullKey(ty), StoredKey(v, ty))
    ensures Less(NullKey(ty), StoredKey(v, ty) + [0])
    ensures !v.Null? ==> Less(NullKey(ty), StoredKey(v, ty))
    ensures Less(StoredKey(v, ty), UpperKey(ty)) && Less(StoredKey(v, ty) + [0], UpperKey(ty))
  {
    var k := StoredKey(v, ty);
    FamilyBounds(v, ty, ty);
    KeyOrder(Null, v, ty);
    SuccessorExact(NullKey(ty), k);
    LessIsTotal(NullKey(ty), k);
    assert (k + [0])[0] == TagOf(ty);
  }

  // With bounds in place the optional keys are the ends of the interval, and
  // the range is empty exactly when the interval is.
  lemma Ends(r: KeyRange, ty: DataType)
    requires Typed(r, ty)
    ensures !IsEmpty(r) ==> Start(r, ty) == (if LowKey(r).Some? then LowKey(r).value else NullKey(ty))
    ensures !IsEmpty(r) ==> End(r, ty) == (if HighKey(r).Some? then HighKey(r).value else UpperKey(ty))
    ensures LowKey(r).Some? ==> Less(NullKey(ty), LowKey(r).value) && Less(LowKey(r).value, UpperKey(ty))
    ensures HighKey(r).Some? ==> Less(HighKey(r).value, UpperKey(ty))
    ensures HighKey(r).Some? && !IsEmpty(r) ==> Less(NullKey(ty), HighKey(r).value)
    ensures IsEmpty(r) <==> !Less(Start(r, ty), End(r, ty))
  {
    hide StoredKey, NullKey, UpperKey;
    if r.low.Some? {
      BoundPlace(r.low.value, ty);
    }
    if r.high.Some? {
      BoundPlace(r.high.value, ty);
    }
    LessIsIrreflexive(NullKey(ty));
    BoundPlace(Null, ty);
    NullIsFamilyMinimum(ty);
  }

  lemma NullIsFamilyMinimum(ty: DataType)
    ensures StoredKey(Null, ty) == NullKey(ty)
  {
  }

  // --------------------------------------------------------------- containing

  /** `Contains` answers exactly what scanning the flattened range would find. */
  lemma ContainsIsScanned(r: KeyRange, v: Value, ty: DataType)
    requires Typed(r, ty) && Fits(v, ty)
    ensures Contains(r, v) <==> Scanned(r, StoredKey(v, ty), ty)
  {
    hide UpperKey;
    var k := StoredKey(v, ty);
    Ends(r, ty);
    BoundPlace(v, ty);
    LessIsIrreflexive(NullKey(ty));
    if !v.Null? {
      assert KeyOf(v) == k;
    }
    if IsEmpty(r) {
      if Scanned(r, k, ty) {
        AtMostLess(Start(r, ty), k, End(r, ty));
      }
    } else if v.Null? {
      NullInside(r, ty);
    }
  }

  lemma NullInside(r: KeyRange, ty: DataType)
    requires Typed(r, ty) && !IsEmpty(r)
    ensures Contains(r, Null) <==> Scanned(r, NullKey(ty), ty)
  {
    Ends(r, ty);
    BoundPlace(Null, ty);
    LessIsIrreflexive(NullKey(ty));
    if r.high.Some? {
      BoundPlace(r.high.value, ty);
      SuccessorExact(NullKey(ty), NullKey(ty));
    }
  }

  // ------------------------------------------------------------ set operations

  function Later(a: Bytes, b: Bytes): Bytes {
    if Less(a, b) then b else a
  }

  function Earlier(a: Bytes, b: Bytes): Bytes {
    if Less(b, a) then b else a
  }

  // Both bounds of a range built from bounds of two non-empty ranges.
  lemma Assembled(a: KeyRange, b: KeyRange, lower: KeyRange, upper: KeyRange, ty: DataType)
    requires Typed(a, ty) && Typed(b, ty) && !IsEmpty(a) && !IsEmpty(b)
    requires (lower == a || lower == b) && (upper == a || upper == b)
    ensures var r := Normalized(WithHigh(WithLow(All(MergeType(a.ty, b.ty)), lower), upper));
            && Typed(r, ty) && LowKey(r) == LowKey(lower) && HighKey(r) == HighKey(upper)
            && (IsEmpty(r) <==> !Less(Start(lower, ty), End(upper, ty)))
            && (!IsEmpty(r) ==> Start(r, ty) == Start(lower, ty) && End(r, ty) == End(upper, ty))
  {
    hide StoredKey, NullKey, UpperKey;
    var r := Normalized(WithHigh(WithLow(All(MergeType(a.ty, b.ty)), lower), upper));
    assert r == KeyRange(ty, lower.low, upper.high, lower.lowExclusive, upper.highInclusive);
    Ends(lower, ty);
    Ends(upper, ty);
    Ends(r, ty);
    BoundPlace(Null, ty);
    NullIsFamilyMinimum(ty);
  }

  lemma IntersectEnds(a: KeyRange, b: KeyRange, ty: DataType)
    requires Typed(a, ty) && Typed(b, ty) && !IsEmpty(a) && !IsEmpty(b)
    ensures var r := Intersect(a, b);
            var s, e := Later(Start(a, ty), Start(b, ty)), Earlier(End(a, ty), End(b, ty));
            && Typed(r, ty) && (IsEmpty(r) <==> !Less(s, e))
            && (!IsEmpty(r) ==> Start(r, ty) == s && End(r, ty) == e)
  {
    hide StoredKey, NullKey, UpperKey, LowKey, HighKey, IsEmpty, Start, End, Normalized, WithLow, WithHigh;
    var lower :=
      if LowKey(a).None? then b
      else if LowKey(b).None? then a
      else if Less(LowKey(a).value, LowKey(b).value) then b else a;
    var upper :=
      if HighKey(a).None? then b
      else if HighKey(b).None? then a
      else if Less(HighKey(b).value, HighKey(a).value) then b else a;
    Assembled(a, b, lower, upper, ty);
    Ends(a, ty);
    Ends(b, ty);
    Strictly(NullKey(ty), LowKey(a));
    Strictly(NullKey(ty), LowKey(b));
    StrictlyUnder(HighKey(a), UpperKey(ty));
    StrictlyUnder(HighKey(b), UpperKey(ty));
    LessIsIrreflexive(NullKey(ty));
    LessIsIrreflexive(UpperKey(ty));
  }

  lemma Strictly(k: Bytes, x: Option<Bytes>)
    ensures x.Some? && Less(k, x.value) ==> !Less(x.value, k)
  {
    if x.Some? && Less(k, x.value) {
      LessIsStrict(k, x.value);
    }
  }

  lemma StrictlyUnder(x: Option<Bytes>, k: Bytes)
    ensures x.Some? && Less(x.value, k) ==> !Less(k, x.value)
  {
    if x.Some? && Less(x.value, k) {
      LessIsStrict(x.value, k);
    }
  }

  lemma JoinedEnds(a: KeyRange, b: KeyRange, ty: DataType)
    requires Typed(a, ty) && Typed(b, ty) && !IsEmpty(a) && !IsEmpty(b)
    ensures var r := Joined(a, b);
            var s, e := Earlier(Start(a, ty), Start(b, ty)), Later(End(a, ty), End(b, ty));
            && Typed(r, ty) && !IsEmpty(r) && Start(r, ty) == s && End(r, ty) == e
  {
    hide StoredKey, NullKey, UpperKey, LowKey, HighKey, IsEmpty, Start, End, Normalized, WithLow, WithHigh;
    var lower :=
      if LowKey(a).None? then a
      else if LowKey(b).None? then b
      else if Less(LowKey(a).value, LowKey(b).value) then a else b;
    var upper :=
      if HighKey(a).None? then a
      else if HighKey(b).None? then b
      else if Less(HighKey(a).value, HighKey(b).value) then b else a;
    Assembled(a, b, lower, upper, ty);
    Ends(a, ty);
    Ends(b, ty);
    Strictly(NullKey(ty), LowKey(a));
    Strictly(NullKey(ty), LowKey(b));
    StrictlyUnder(HighKey(a), UpperKey(ty));
    StrictlyUnder(HighKey(b), UpperKey(ty));
    LessIsIrreflexive(NullKey(ty));
    LessIsIrreflexive(UpperKey(ty));
    LessIsTotal(Start(a, ty), Start(b, ty));
    Asymmetric(Start(a, ty), Start(b, ty));
    Asymmetric(End(a, ty), End(b, ty));
    WiderIsNonEmpty(Start(a, ty), End(a, ty), Start(b, ty), End(b, ty));
  }

  lemma Asymmetric(a: Bytes, b: Bytes)
    ensures !(Less(a, b) && Less(b, a))
  {
    if Less(a, b) {
      LessIsStrict(a, b);
    }
  }

  lemma WiderIsNonEmpty(s: Bytes, e: Bytes, u: Bytes, f: Bytes)
    requires Less(s, e) && Less(u, f)
    ensures Less(Earlier(s, u), Later(e, f))
  {
    if Less(u, s) {
      LessTransitive(u, s, e);
    }
    if Less(e, f) {
      LessTransitive(Earlier(s, u), e, f);
    }
  }

  /** Intersection holds exactly the values both ranges hold. */
  lemma IntersectExact(a: KeyRange, b: KeyRange, v: Value, ty: DataType)
    requires Typed(a, ty) && Typed(b, ty) && Fits(v, ty)
    ensures Contains(Intersect(a, b), v) <==> Contains(a, v) && Contains(b, v)
  {
    if IsEmpty(a) || IsEmpty(b) {
      return;
    }
    hide StoredKey, NullKey, UpperKey, Start, End, IsEmpty, Contains, Intersect;
    var r, k := Intersect(a, b), StoredKey(v, ty);
    IntersectEnds(a, b, ty);
    ContainsIsScanned(a, v, ty);
    ContainsIsScanned(b, v, ty);
    ContainsIsScanned(r, v, ty);
    InsideBoth(Start(a, ty), End(a, ty), Start(b, ty), End(b, ty), k);
    Ends(r, ty);
    if IsEmpty(r) {
      NothingInside(Start(r, ty), End(r, ty), k);
      NothingInside(Later(Start(a, ty), Start(b, ty)), Earlier(End(a, ty), End(b, ty)), k);
    }
  }

  lemma NothingInside(s: Bytes, e: Bytes, k: Bytes)
    requires !Less(s, e)
    ensures !(AtMost(s, k) && Less(k, e))
  {
    if AtMost(s, k) && Less(k, e) {
      AtMostLess(s, k, e);
    }
  }

  lemma InsideBoth(s: Bytes, e: Bytes, u: Bytes, f: Bytes, k: Bytes)
    ensures AtMost(Later(s, u), k) && Less(k, Earlier(e, f)) <==>
            AtMost(s, k) && Less(k, e) && AtMost(u, k) && Less(k, f)
  {
    if AtMost(u, k) && Less(s, u) {
      LessAtMost(s, u, k);
      LessIsStrict(s, k);
    }
    if AtMost(s, k) && AtMost(u, s) {
      AtMostTransitive(u, s, k);
    }
    if Less(k, f) && Less(f, e) {
      LessTransitive(k, f, e);
    }
    if Less(k, e) && AtMost(e, f) {
      LessAtMost(k, e, f);
    }
  }

  lemma OverlapOrTouch(a: KeyRange, b: KeyRange, ty: DataType)
    requires Typed(a, ty) && Typed(b, ty) && !IsEmpty(a) && !IsEmpty(b)
    ensures Overlaps(a, b) || IsAdjacent(a, b) <==>
            AtMost(Start(a, ty), End(b, ty)) && AtMost(Start(b, ty), End(a, ty))
  {
    hide StoredKey, NullKey, UpperKey, LowKey, HighKey, IsEmpty, Start, End;
    Ends(a, ty);
    Ends(b, ty);
    StrictlyUnder(LowKey(a), UpperKey(ty));
    StrictlyUnder(LowKey(b), UpperKey(ty));
    Strictly(NullKey(ty), HighKey(a));
    Strictly(NullKey(ty), HighKey(b));
    NullBelowUpper(ty);
    LessIsIrreflexive(NullKey(ty));
    LessIsIrreflexive(UpperKey(ty));
    TouchOrNot(Start(a, ty), End(b, ty));
    TouchOrNot(Start(b, ty), End(a, ty));
    AcrossTouch(Start(a, ty), End(a, ty), Start(b, ty), End(b, ty));
    AcrossTouch(Start(b, ty), End(b, ty), Start(a, ty), End(a, ty));
  }

  lemma AcrossTouch(s: Bytes, e: Bytes, u: Bytes, f: Bytes)
    requires Less(s, e) && Less(u, f)
    ensures e == u ==> AtMost(s, f)
  {
    if e == u {
      LessTransitive(s, e, f);
      LessIsStrict(s, f);
    }
  }

  lemma NullBelowUpper(ty: DataType)
    requires !ty.Unknown?
    ensures Less(NullKey(ty), UpperKey(ty)) && !Less(UpperKey(ty), NullKey(ty))
  {
    BoundPlace(Null, ty);
    LessIsStrict(NullKey(ty), UpperKey(ty));
  }

  lemma TouchOrNot(s: Bytes, e: Bytes)
    ensures AtMost(s, e) <==> Less(s, e) || s == e
  {
    LessIsTotal(s, e);
    LessIsIrreflexive(s);
    if Less(s, e) {
      LessIsStrict(s, e);
    }
  }

  /** Joining two ranges that overlap or touch adds and loses nothing. */
  lemma JoinedExact(a: KeyRange, b: KeyRange, v: Value, ty: DataType)
    requires Typed(a, ty) && Typed(b, ty) && Fits(v, ty) && !IsEmpty(a) && !IsEmpty(b)
    requires Overlaps(a, b) || IsAdjacent(a, b)
    ensures Contains(Joined(a, b), v) <==> Contains(a, v) || Contains(b, v)
  {
    hide StoredKey, NullKey, UpperKey, Start, End, IsEmpty, Contains, Joined, Overlaps, IsAdjacent;
    var r, k := Joined(a, b), StoredKey(v, ty);
    JoinedEnds(a, b, ty);
    OverlapOrTouch(a, b, ty);
    ContainsIsScanned(a, v, ty);
    ContainsIsScanned(b, v, ty);
    ContainsIsScanned(r, v, ty);
    InsideEither(Start(a, ty), End(a, ty), Start(b, ty), End(b, ty), k);
  }

  lemma InsideEither(s: Bytes, e: Bytes, u: Bytes, f: Bytes, k: Bytes)
    requires AtMost(s, f) && AtMost(u, e)
    ensures AtMost(Earlier(s, u), k) && Less(k, Later(e, f)) <==>
            (AtMost(s, k) && Less(k, e)) || (AtMost(u, k) && Less(k, f))
  {
    if AtMost(e, k) {
      AtMostTransitive(u, e, k);
    }
    if AtMost(f, k) {
      AtMostTransitive(s, f, k);
    }
    if Less(u, s) && AtMost(s, k) {
      LessAtMost(u, s, k);
      LessIsStrict(u, k);
    }
    if AtMost(s, u) && AtMost(u, k) {
      AtMostTransitive(s, u, k);
    }
    if Less(e, f) && Less(k, e) {
      LessTransitive(k, e, f);
    }
    if AtMost(f, e) && Less(k, f) {
      LessAtMost(k, f, e);
    }
  }

  // ------------------------------------------------------------------- points

  /** A point holds its value and no other. */
  lemma PointExact(r: KeyRange, v: Value, ty: DataType)
    requires Typed(r, ty) && Fits(v, ty) && IsPoint(r)
    ensures Fits(PointValue(r), ty)
    ensures Contains(r, v) <==> v == PointValue(r)
  {
    hide UpperKey, StoredKey, NullKey;
    var p := PointValue(r);
    ContainsIsScanned(r, v, ty);
    ContainsIsScanned(r, p, ty);
    Ends(r, ty);
    KeyOrder(v, p, ty);
    KeyOrder(p, v, ty);
    NullIsFamilyMinimum(ty);
    PointInterval(StoredKey(v, ty), StoredKey(p, ty));
    if !r.highInclusive {
      KeyOrder(v, r.high.value, ty);
    } else if r.low.None? {
      BoundPlace(v, ty);
    }
  }

}
