/**
 Literals on the key column that are not of its type. WHERE literals are never
 converted, so the range of such a literal lies in the literal's own family of
 keys while the filter converts when it compares. For every key type and every
 kind of literal: exactly when the scan still meets the keys the filter accepts.
 */
module MistypedLiterals {
  import opened Wrappers
  import opened Bytes
  import opened SqlValues
  import opened KeyCodec
  import opened Conditions
  import opened KeyRanges
  import opened Optimizer
  import opened OptimizerPlan

  // What the grammar can write down, apart from NULL.
  predicate Literal(v: Value) {
    v.Int? || v.Str? || v.Bool?
  }

  function RangeFor(op: CompareOp, v: Value): KeyRange
    requires IsIndexable(op)
  {
    match op
    case EQ => Point(v)
    case GT => Gt(v)
    case GE => Ge(v)
    case LT => Lt(v)
    case LE => Le(v)
  }

  // The scan of the comparison's range meets a row with key `x`.
  predicate Met(op: CompareOp, v: Value, x: Value, ty: DataType)
    requires IsIndexable(op)
  {
    Scanned(RangeFor(op, v), StoredKey(x, ty), ty)
  }

  function Where(pk: string, op: CompareOp, v: Value): Cond {
    Compare(Column(pk, pk), op, v)
  }

  // The scan meets exactly the keys on which the comparison is TRUE.
  ghost predicate PlannedRight(t: Reader, pk: string, op: CompareOp, v: Value, ty: DataType)
    requires IsIndexable(op)
  {
    forall x: Value :: Fits(x, ty) ==> (Met(op, v, x, ty) <==> Eval(t, map[pk := x], Where(pk, op, v)).True?)
  }

  lemma RangeIsPlanned(pk: string, op: CompareOp, v: Value, ty: DataType)
    requires IsIndexable(op) && !v.Null?
    ensures RangeOfCondition(Where(pk, op, v), ty) == Some([RangeFor(op, v)])
  {
  }

  // ------------------------------------------------------- what the scan meets

  lemma RangeIsTyped(op: CompareOp, v: Value)
    requires IsIndexable(op) && !v.Null?
    ensures Typed(RangeFor(op, v), TypeOf(v)) && LowKey(RangeFor(op, v)).Some?
  {
  }

  // Nothing outside the literal's family, and no NULL.
  lemma OtherFamilyIsMissed(op: CompareOp, v: Value, x: Value, ty: DataType)
    requires IsIndexable(op) && !v.Null? && Fits(x, ty) && !ty.Unknown?
    requires x.Null? || TagOf(ty) != TagOf(TypeOf(v))
    ensures !Met(op, v, x, ty)
  {
    var r, own := RangeFor(op, v), TypeOf(v);
    RangeIsTyped(op, v);
    hide RangeFor, StoredKey, Less;
    if Met(op, v, x, ty) {
      FamilyHolds(r, own, ty, StoredKey(x, ty));
      FamilyBounds(x, ty, own);
      if x.Null? {
        NullIsLeast(own, ty);
      }
    }
  }

  lemma FamilyHolds(r: KeyRange, own: DataType, ty: DataType, k: Bytes)
    requires Typed(r, own) && LowKey(r).Some? && Scanned(r, k, ty)
    ensures AtMost(NullKey(own), k) && Less(k, UpperKey(own))
    ensures Less(NullKey(own), k)
  {
    hide Less, StoredKey;
    Ends(r, own);
    assert Start(r, own) == Start(r, ty) && End(r, own) == End(r, ty);
    if IsEmpty(r) {
      AtMostLess(NullKey(own), k, NullKey(own));
      LessIsIrreflexive(NullKey(own));
    } else {
      LessAtMost(NullKey(own), LowKey(r).value, k);
      LessIsStrict(NullKey(own), k);
      if HighKey(r).Some? {
        LessTransitive(k, HighKey(r).value, UpperKey(own));
      }
    }
  }

  lemma NullIsLeast(own: DataType, ty: DataType)
    requires TagOf(own) == TagOf(ty)
    ensures !Less(NullKey(own), StoredKey(Null, ty))
  {
    LessIsIrreflexive(NullKey(own));
  }

  // ------------------------------------------------------ keys that are numbers

  // Booleans count as 0 and 1, dates and times as what they store.
  function Low(ty: DataType): int {
    if ty.Boolean? then 0 else -INT64_LIMIT
  }

  function High(ty: DataType): int {
    if ty.Boolean? then 1 else INT64_LIMIT - 1
  }

  function Numbered(ty: DataType, k: int): Value
    requires Low(ty) <= k <= High(ty)
  {
    match ty
    case Boolean => Bool(k == 1)
    case Date => Days(k)
    case Time => Clock(k)
    case DateTime => Stamp(k)
    case _ => Int(k)
  }

  predicate HasNumbers(ty: DataType) {
    !ty.Text? && !ty.Unknown?
  }

  function NumberOf(x: Value): int
    requires !x.Null? && !x.Str?
  {
    match x
    case Bool(b) => if b then 1 else 0
    case Int(n) => n
    case Days(n) => n
    case Clock(n) => n
    case Stamp(n) => n
  }

  lemma NumbersAreKeys(x: Value, ty: DataType)
    requires HasNumbers(ty) && Fits(x, ty) && !x.Null?
    ensures !x.Str? && Low(ty) <= NumberOf(x) <= High(ty) && Numbered(ty, NumberOf(x)) == x
  {
  }

  // The number a literal stands for beside a key of the type: a text is read as
  // the key's type asks, an integer beside a date is taken for its stored form.
  function StandsFor(t: Reader, v: Value, ty: DataType): Option<int> {
    match v
    case Str(s) =>
      (match ty
       case Date => t.date(s)
       case Time => t.time(s)
       case DateTime => t.dateTime(s)
       case _ => t.integer(s))
    case Int(n) => Some(n)
    case Bool(b) => if IsTemporal(ty) then None else Some(if b then 1 else 0)
    case _ => None
  }

  // Some number between the two bounds compares with `m` as `op` asks.
  predicate SomeBetween(op: CompareOp, m: int, low: int, high: int) {
    match op
    case EQ => low <= m <= high
    case GT => m < high
    case GE => m <= high
    case LT => low < m
    case LE => low <= m
    case _ => false
  }

  lemma SomeBetweenExact(op: CompareOp, m: int, low: int, high: int, k: int)
    requires IsIndexable(op) && low <= k <= high && OrderHolds(op, Sign(k, m)).True?
    ensures SomeBetween(op, m, low, high)
  {
  }

  function Witness(op: CompareOp, m: int, low: int, high: int): int {
    if op.EQ? then m else if op.GT? || op.GE? then high else low
  }

  lemma WitnessMatches(op: CompareOp, m: int, low: int, high: int)
    requires IsIndexable(op) && low <= high && SomeBetween(op, m, low, high)
    ensures var k := Witness(op, m, low, high); low <= k <= high && OrderHolds(op, Sign(k, m)).True?
  {
  }

  // The comparison as the filter evaluates it.
  lemma ComparedAsNumbers(t: Reader, pk: string, op: CompareOp, v: Value, x: Value, ty: DataType)
    requires IsIndexable(op) && Literal(v) && TypeOf(v) != ty && HasNumbers(ty) && Fits(x, ty) && !x.Null?
    ensures var m := StandsFor(t, v, ty);
            Eval(t, map[pk := x], Where(pk, op, v)).True? <==>
            !(v.Int? && IsTemporal(ty)) && m.Some? && OrderHolds(op, Sign(NumberOf(x), m.value)).True?
  {
    var m := StandsFor(t, v, ty);
    assert SqlOrder(t, x, v) == if v.Int? && IsTemporal(ty) then None else SignOf(Some(NumberOf(x)), m) by {
      if x.Days? && v.Str? && m.Some? {
        assert Sign(x.n * 86400, m.value * 86400) == Sign(x.n, m.value);
      }
    }
  }

  // An integer beside a date shares the date's family of keys.
  lemma MetAsNumber(op: CompareOp, n: Int64, x: Value, ty: DataType)
    requires IsIndexable(op) && IsTemporal(ty) && Fits(x, ty) && !x.Null?
    ensures Met(op, Int(n), x, ty) <==> OrderHolds(op, Sign(NumberOf(x), n)).True?
  {
    var r := RangeFor(op, Int(n));
    var y := Int(NumberOf(x));
    assert StoredKey(x, ty) == StoredKey(y, Integer);
    RangeIsTyped(op, Int(n));
    FactoryRanges(y, Int(n), Integer);
    ContainsIsScanned(r, y, Integer);
  }

  // What goes wrong on one key, if anything.
  lemma RightOnKey(t: Reader, pk: string, op: CompareOp, v: Value, x: Value, ty: DataType)
    requires IsIndexable(op) && Literal(v) && TypeOf(v) != ty && HasNumbers(ty) && Fits(x, ty) && !x.Null?
    ensures var m := StandsFor(t, v, ty);
            (Met(op, v, x, ty) <==> Eval(t, map[pk := x], Where(pk, op, v)).True?) <==>
            m.None? || !OrderHolds(op, Sign(NumberOf(x), m.value)).True?
  {
    ComparedAsNumbers(t, pk, op, v, x, ty);
    if v.Int? && IsTemporal(ty) {
      MetAsNumber(op, v.n, x, ty);
    } else {
      OtherFamilyIsMissed(op, v, x, ty);
    }
  }

  lemma NullIsRight(t: Reader, pk: string, op: CompareOp, v: Value, ty: DataType)
    requires IsIndexable(op) && Literal(v) && !ty.Unknown?
    ensures !Met(op, v, Null, ty) && !Eval(t, map[pk := Null], Where(pk, op, v)).True?
  {
    OtherFamilyIsMissed(op, v, Null, ty);
  }

  /**
   On integer, boolean, date and time keys a literal of another type is planned
   right iff it stands for no number that some key compares with as asked.
   */
  lemma NumberKeyExact(t: Reader, pk: string, op: CompareOp, v: Value, ty: DataType)
    requires IsIndexable(op) && Literal(v) && TypeOf(v) != ty && HasNumbers(ty)
    ensures var m := StandsFor(t, v, ty);
            PlannedRight(t, pk, op, v, ty) <==> m.None? || !SomeBetween(op, m.value, Low(ty), High(ty))
  {
    hide Met, Eval, StandsFor, OrderHolds, Where, SomeBetween;
    var m := StandsFor(t, v, ty);
    NullIsRight(t, pk, op, v, ty);
    if m.None? || !SomeBetween(op, m.value, Low(ty), High(ty)) {
      forall x: Value | Fits(x, ty)
        ensures Met(op, v, x, ty) <==> Eval(t, map[pk := x], Where(pk, op, v)).True?
      {
        if !x.Null? {
          NumbersAreKeys(x, ty);
          RightOnKey(t, pk, op, v, x, ty);
          if m.Some? && OrderHolds(op, Sign(NumberOf(x), m.value)).True? {
            SomeBetweenExact(op, m.value, Low(ty), High(ty), NumberOf(x));
          }
        }
      }
    } else {
      WitnessMatches(op, m.value, Low(ty), High(ty));
      var k := Witness(op, m.value, Low(ty), High(ty));
      var x := Numbered(ty, k);
      assert Fits(x, ty) && !x.Null? && NumberOf(x) == k;
      RightOnKey(t, pk, op, v, x, ty);
    }
  }

  // -------------------------------------------------------------- keys of text

  /**
   On text keys an integer or boolean literal is planned right iff no text reads
   as a number that compares with it as asked.
   */
  lemma TextKeyExact(t: Reader, pk: string, op: CompareOp, v: Value)
    requires IsIndexable(op) && (v.Int? || v.Bool?)
    ensures PlannedRight(t, pk, op, v, Text) <==>
            forall s: Bytes :: t.integer(s).Some? ==> !OrderHolds(op, Sign(t.integer(s).value, NumberOf(v))).True?
  {
    hide Met, Eval, OrderHolds, Where;
    NullIsRight(t, pk, op, v, Text);
    if PlannedRight(t, pk, op, v, Text) {
      forall s: Bytes | t.integer(s).Some?
        ensures !OrderHolds(op, Sign(t.integer(s).value, NumberOf(v))).True?
      {
        RightOnText(t, pk, op, v, s);
      }
    } else {
      var x: Value :| Fits(x, Text) && !(Met(op, v, x, Text) <==> Eval(t, map[pk := x], Where(pk, op, v)).True?);
      RightOnText(t, pk, op, v, x.s);
    }
  }

  lemma RightOnText(t: Reader, pk: string, op: CompareOp, v: Value, s: Bytes)
    requires IsIndexable(op) && (v.Int? || v.Bool?)
    ensures !Met(op, v, Str(s), Text)
    ensures Eval(t, map[pk := Str(s)], Where(pk, op, v)).True? <==>
            t.integer(s).Some? && OrderHolds(op, Sign(t.integer(s).value, NumberOf(v))).True?
  {
    hide Met, SqlOrder, NumberOf;
    OtherFamilyIsMissed(op, v, Str(s), Text);
    TextAsNumber(t, v, s);
  }

  lemma TextAsNumber(t: Reader, v: Value, s: Bytes)
    requires v.Int? || v.Bool?
    ensures SqlOrder(t, Str(s), v) == SignOf(t.integer(s), Some(NumberOf(v)))
  {
  }
}
