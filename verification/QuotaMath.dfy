/** Saturating quota conversions (common/quota_math.go, lines 60-117). */
module QuotaMath {
  import opened Options

  const MAX_QUOTA := 0x7FFF_FFFF
  const MIN_QUOTA := -0x8000_0000

  /** A float64, its finite values taken as reals. */
  datatype Float = NaN | NegInf | Fin(value: real) | PosInf

  datatype Kind = Overflow | Underflow | NotANumber

  datatype Clamp = Clamp(kind: Kind, clamped: int)

  datatype Quota = Quota(quota: int, clamp: Option<Clamp>)

  /** Go's conversion from float64 to int: toward zero. */
  function Trunc(x: real): int {
    if x >= 0.0 then x.Floor else -((-x).Floor)
  }

  /** `math.Round` and `decimal.Round(0)`: halves away from zero. */
  function RoundAway(x: real): real {
    if x >= 0.0 then (x + 0.5).Floor as real else -((-x + 0.5).Floor as real)
  }

  function Round(v: Float): Float {
    match v
    case Fin(x) => Fin(RoundAway(x))
    case _ => v
  }

  /** `saturateQuota` */
  function Saturate(v: Float): Quota {
    match v
    case NaN => Quota(0, Some(Clamp(NotANumber, 0)))
    case PosInf => Quota(MAX_QUOTA, Some(Clamp(Overflow, MAX_QUOTA)))
    case NegInf => Quota(MIN_QUOTA, Some(Clamp(Underflow, MIN_QUOTA)))
    case Fin(x) =>
      if x >= MAX_QUOTA as real then Quota(MAX_QUOTA, Some(Clamp(Overflow, MAX_QUOTA)))
      else if x <= MIN_QUOTA as real then Quota(MIN_QUOTA, Some(Clamp(Underflow, MIN_QUOTA)))
      else Quota(Trunc(x), None)
  }

  function FromFloat(v: Float): Quota { Saturate(v) }

  function FromRounded(v: Float): Quota { Saturate(Round(v)) }

  function FromDecimal(d: real): Quota { Saturate(Fin(RoundAway(d))) }

  /** The order of the floats that are numbers. */
  predicate AtMost(a: Float, b: Float) {
    || a.NegInf? || b.PosInf?
    || (a.Fin? && b.Fin? && a.value <= b.value)
  }

  // ---------- Rounding ----------

  lemma TruncMonotone(a: real, b: real)
    requires a <= b
    ensures Trunc(a) <= Trunc(b)
  {
  }

  lemma FloorMonotone(a: real, b: real)
    requires a <= b
    ensures a.Floor <= b.Floor
  {
  }

  lemma RoundMonotone(a: real, b: real)
    requires a <= b
    ensures RoundAway(a) <= RoundAway(b)
  {
    if a >= 0.0 {
      FloorMonotone(a + 0.5, b + 0.5);
    } else if b < 0.0 {
      FloorMonotone(-b + 0.5, -a + 0.5);
    } else {
      FloorMonotone(0.0, -a + 0.5);
      FloorMonotone(0.0, b + 0.5);
    }
  }

  /** Truncating gives the integer next to the value on the side of zero. */
  lemma TruncIsTowardZero(x: real)
    ensures x >= 0.0 ==> 0 <= Trunc(x) && Trunc(x) as real <= x < Trunc(x) as real + 1.0
    ensures x <= 0.0 ==> Trunc(x) <= 0 && Trunc(x) as real - 1.0 < x <= Trunc(x) as real
  {
  }

  lemma TruncOfInteger(n: int)
    ensures Trunc(n as real) == n
  {
  }

  /** Rounding gives an integer within one half; on a tie, the one further from zero. */
  lemma RoundingIsNearest(x: real)
    ensures RoundAway(x) == Trunc(RoundAway(x)) as real
    ensures x >= 0.0 ==> RoundAway(x) - 0.5 <= x < RoundAway(x) + 0.5
    ensures x < 0.0 ==> RoundAway(x) - 0.5 < x <= RoundAway(x) + 0.5
  {
    var n := if x >= 0.0 then (x + 0.5).Floor else -((-x + 0.5).Floor);
    assert RoundAway(x) == n as real;
    TruncOfInteger(n);
  }

  // ---------- The conversions ----------

  /** Every conversion lands in the range of int32, and reports a clamp exactly for NaN and for
      values that, after its own rounding, are at or beyond a bound; the clamp records the
      quota used. */
  lemma SaturateIsExact(v: Float)
    ensures var q := Saturate(v);
            && MIN_QUOTA <= q.quota <= MAX_QUOTA
            && (q.clamp.None? <==> v.Fin? && MIN_QUOTA as real < v.value < MAX_QUOTA as real)
            && (q.clamp.None? ==> q.quota == Trunc(v.value))
            && (q.clamp.Some? ==> q.clamp.value.clamped == q.quota)
            && (v != NaN && AtMost(Fin(MAX_QUOTA as real), v) ==> q.quota == MAX_QUOTA)
            && (v != NaN && AtMost(v, Fin(MIN_QUOTA as real)) ==> q.quota == MIN_QUOTA)
  {
    if v.Fin? && MIN_QUOTA as real < v.value < MAX_QUOTA as real {
      TruncMonotone(MIN_QUOTA as real, v.value);
      TruncMonotone(v.value, MAX_QUOTA as real);
    }
  }

  lemma SaturateMonotone(a: Float, b: Float)
    requires a != NaN && b != NaN && AtMost(a, b)
    ensures Saturate(a).quota <= Saturate(b).quota
  {
    SaturateIsExact(a);
    SaturateIsExact(b);
    if a.Fin? && b.Fin? { TruncMonotone(a.value, b.value); }
  }

  /** All three conversions are monotone on numbers. */
  lemma ConversionsAreMonotone(a: Float, b: Float)
    requires a != NaN && b != NaN && AtMost(a, b)
    ensures FromFloat(a).quota <= FromFloat(b).quota
    ensures FromRounded(a).quota <= FromRounded(b).quota
    ensures a.Fin? && b.Fin? ==> FromDecimal(a.value).quota <= FromDecimal(b.value).quota
  {
    SaturateMonotone(a, b);
    if a.Fin? && b.Fin? { RoundMonotone(a.value, b.value); }
    SaturateMonotone(Round(a), Round(b));
  }

  /** Strictly inside the range after rounding, the rounding conversions return the rounded value. */
  lemma RoundedInsideIsExact(x: real)
    requires MIN_QUOTA as real < RoundAway(x) < MAX_QUOTA as real
    ensures FromRounded(Fin(x)) == FromDecimal(x)
    ensures FromDecimal(x).clamp.None? && FromDecimal(x).quota as real == RoundAway(x)
  {
    SaturateIsExact(Fin(RoundAway(x)));
    RoundingIsNearest(x);
  }

  /** A charge never becomes a credit: tokens and ratios that are not negative give a quota that is
      not negative, however large the product. */
  lemma ChargeIsNoCredit(tokens: nat, modelRatio: real, groupRatio: real)
    requires modelRatio >= 0.0 && groupRatio >= 0.0
    ensures FromFloat(Fin(tokens as real * modelRatio * groupRatio)).quota >= 0
  {
    assert tokens as real * modelRatio >= 0.0;
    assert tokens as real * modelRatio * groupRatio >= 0.0;
    SaturateMonotone(Fin(0.0), Fin(tokens as real * modelRatio * groupRatio));
  }
}
