/**
 The idle-eviction time derived from a configured policy, and when it is long enough.

 The formula is computed in floating point. Nothing is assumed of the result except that it is within
 a quarter of the exact value, or infinite when that value is far beyond every duration; three
 roundings of a float64 stay within far less.
 */
module RateLimitConfig {
  import opened Prelude
  import opened RateLimiter

  const MINUTE := 60 * SECOND
  const TWO_TO_63 := 0x8000_0000_0000_0000

  /** What a float64 outside the int64 range converts to on amd64; the language leaves it open. */
  const AMD64_OUT_OF_RANGE: int := -TWO_TO_63

  datatype Float = Finite(x: real) | Infinite

  /** Twice the time to refill the bucket from empty, in nanoseconds, exactly. */
  function TwiceRefill(rps: real, burst: int): real
    requires rps > 0.0
  {
    2.0 * (burst as real) / rps * (SECOND as real)
  }

  /** f is a floating-point result for the exact value. */
  predicate Computes(f: Float, exact: real) {
    match f
    case Finite(x) => 0.75 * exact <= x <= 1.25 * exact
    case Infinite => exact >= 2.0 * TWO_TO_63 as real
  }

  predicate FitsDuration(f: Float) { f.Finite? && f.x < TWO_TO_63 as real }

  /** The `idle` closure on the computed value: convert, truncating, then floor at one minute. */
  function IdleEvict(f: Float, outOfRange: int): Time {
    var d := if FitsDuration(f) then f.x.Floor else outOfRange;
    if d < MINUTE then MINUTE else d
  }

  /** The `toPolicy` closure. */
  function ToPolicy(rps: real, burst: int, f: Float, outOfRange: int): Policy {
    Policy(rps, burst, IdleEvict(f, outOfRange))
  }

  lemma RefillTime(p: Policy, d: Time)
    requires p.rps > 0.0
    ensures Gain(p, d) >= p.burst as real <==> 2.0 * (d as real) >= TwiceRefill(p.rps, p.burst)
  {
    var x := TwiceRefill(p.rps, p.burst);
    assert x * p.rps == 2.0 * (p.burst as real) * (SECOND as real) by {
      assert 2.0 * (p.burst as real) / p.rps * p.rps == 2.0 * (p.burst as real);
    }
    assert Gain(p, d) * (SECOND as real) == p.rps * (d as real);
    if 2.0 * (d as real) >= x {
      assert p.rps * (2.0 * (d as real) - x) >= 0.0;
    } else {
      assert p.rps * (x - 2.0 * (d as real)) > 0.0;
    }
  }

  lemma RefillIsPositive(rps: real, burst: int)
    requires rps > 0.0 && burst >= 1
    ensures TwiceRefill(rps, burst) > 0.0
  {
    assert 2.0 * (burst as real) / rps > 0.0;
  }

  /** Rounding, truncation and the one-minute floor leave every representable idle time long enough. */
  lemma IdleTimeRefills(rps: real, burst: int, f: Float, outOfRange: int)
    requires rps > 0.0 && burst >= 1 && Computes(f, TwiceRefill(rps, burst)) && FitsDuration(f)
    ensures Refills(ToPolicy(rps, burst, f, outOfRange))
  {
    var p := ToPolicy(rps, burst, f, outOfRange);
    RefillTime(p, p.idleEvict + 1);
    RefillIsPositive(rps, burst);
    assert (p.idleEvict + 1) as real >= f.x;
  }

  /** An idle time that does not fit a duration becomes one minute on amd64, which is too short. */
  lemma OverflowIsTooShort(rps: real, burst: int, f: Float)
    requires rps > 0.0 && burst >= 1 && Computes(f, TwiceRefill(rps, burst)) && !FitsDuration(f)
    ensures !Refills(ToPolicy(rps, burst, f, AMD64_OUT_OF_RANGE))
  {
    var p := ToPolicy(rps, burst, f, AMD64_OUT_OF_RANGE);
    RefillTime(p, p.idleEvict + 1);
  }

  /** Configuration accepts policies whose idle time overflows whatever the rounding: ten requests per
      300 years. */
  lemma SomeValidPolicyOverflows(f: Float)
    requires Computes(f, TwiceRefill(0.000000001, 10))
    ensures !FitsDuration(f)
  {
    assert 2.0 * (10 as real) / 0.000000001 * (SECOND as real) == 20_000_000_000_000_000_000.0;
  }

  /** On amd64 sweeping is invisible in every run exactly for the policies whose doubled refill time,
      as computed, fits a duration. */
  lemma SweepsAreInvisibleIff(rps: real, burst: int, f: Float)
    requires rps > 0.0 && burst >= 1 && Computes(f, TwiceRefill(rps, burst))
    ensures var p := ToPolicy(rps, burst, f, AMD64_OUT_OF_RANGE);
      (forall events :: Timely(events, 0) ==> Answers(p, map[], events, true) == Answers(p, map[], events, false))
      <==> FitsDuration(f)
  {
    EvictionIsInvisibleIff(ToPolicy(rps, burst, f, AMD64_OUT_OF_RANGE));
    if FitsDuration(f) {
      IdleTimeRefills(rps, burst, f, AMD64_OUT_OF_RANGE);
    } else {
      OverflowIsTooShort(rps, burst, f);
    }
  }

  /** And so for the window bound. */
  lemma WindowsAreBoundedIff(rps: real, burst: int, f: Float)
    requires rps > 0.0 && burst >= 1 && Computes(f, TwiceRefill(rps, burst))
    ensures var p := ToPolicy(rps, burst, f, AMD64_OUT_OF_RANGE);
      (forall events, key, lo, hi :: Timely(events, 0) && lo <= hi ==> InBound(p, events, key, lo, hi))
      <==> FitsDuration(f)
  {
    WindowBoundIff(ToPolicy(rps, burst, f, AMD64_OUT_OF_RANGE));
    if FitsDuration(f) {
      IdleTimeRefills(rps, burst, f, AMD64_OUT_OF_RANGE);
    } else {
      OverflowIsTooShort(rps, burst, f);
    }
  }
}
