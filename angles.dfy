/**
 * Angles of the watch face: the hour ("short") and minute ("long") hand
 * angles derived from a wall-clock time, and the signed circular difference
 * `angle_delta` that places the overlap fan.
 *
 * Two SDK constants are kept apart on purpose. A full turn is
 * `TrigMaxAngle` (0x10000) units, but `angle_delta` wraps by, and the fans
 * are sized from, `TrigMaxRatio` (0xffff), the full scale of the sine and
 * cosine lookups.
 */
module Angles {
  import opened CInts

  /** `TRIG_MAX_ANGLE`: one full turn. */
  const TrigMaxAngle: int := 0x1_0000
  /** `TRIG_MAX_RATIO`: full scale of the trigonometric lookups. */
  const TrigMaxRatio: int := 0xffff
  /** `TRIG_MAX_RATIO / 2`, the `half` of the source: the width of an hour or minute fan. */
  const HalfRatio: int := TrigMaxRatio / 2

  /** `tm_hour` and `tm_min` as the C library's `localtime` delivers them. */
  type Hour = h: int | 0 <= h < 24
  type Minute = m: int | 0 <= m < 60

  /** Number of the ten-minute step within twelve hours: 0 .. 71. */
  function Step(hour: Hour, minute: Minute): (k: int)
    ensures 0 <= k < 72
  {
    (hour % 12) * 6 + minute / 10
  }

  /** Angle of the hour hand; it moves in ten-minute steps, 72 to a turn. */
  function ShortAngle(hour: Hour, minute: Minute): (r: uint32)
    ensures r < TrigMaxAngle
  {
    var k := Step(hour, minute);
    ScaledBelowTurn(k, 72);
    (TrigMaxAngle * k) / (12 * 6)
  }

  /** Angle of the minute hand; 60 to a turn. */
  function LongAngle(minute: Minute): (r: uint32)
    ensures r < TrigMaxAngle
  {
    ScaledBelowTurn(minute, 60);
    TrigMaxAngle * minute / 60
  }

  /** `k` of `n` parts of a turn, for `k < n`, is a non-negative angle below a full turn. */
  lemma ScaledBelowTurn(k: int, n: int)
    requires 0 <= k < n <= TrigMaxAngle
    ensures 0 <= TrigMaxAngle * k / n < TrigMaxAngle
  {
    MulMonotone(TrigMaxAngle, k, n - 1);
    assert TrigMaxAngle * (n - 1) == n * (TrigMaxAngle - 1) + (n - TrigMaxAngle);
    QuotientBound(TrigMaxAngle * k, n, TrigMaxAngle - 1);
  }

  /** Neither product the two formulas form overflows a 32-bit signed `int`. */
  lemma AngleProductsFitInt32(hour: Hour, minute: Minute)
    ensures 0 <= TrigMaxAngle * Step(hour, minute) < 0x8000_0000
    ensures 0 <= TrigMaxAngle * minute < 0x8000_0000
  {
  }

  /** The hour angle depends only on the hour modulo 12 and the ten-minute step. */
  lemma ShortAngleStepped(h1: Hour, m1: Minute, h2: Hour, m2: Minute)
    requires h1 % 12 == h2 % 12 && m1 / 10 == m2 / 10
    ensures ShortAngle(h1, m1) == ShortAngle(h2, m2)
  {
  }

  /** Within twelve hours a later ten-minute step puts the hour hand strictly further round. */
  lemma {:induction false} ShortAngleIncreasing(h1: Hour, m1: Minute, h2: Hour, m2: Minute)
    requires Step(h1, m1) < Step(h2, m2)
    ensures ShortAngle(h1, m1) < ShortAngle(h2, m2)
  {
    var k1, k2 := Step(h1, m1), Step(h2, m2);
    assert TrigMaxAngle * k2 >= TrigMaxAngle * k1 + TrigMaxAngle;
    DivMonotone(TrigMaxAngle * k1 + TrigMaxAngle, TrigMaxAngle * k2, 72);
    assert (TrigMaxAngle * k1 + TrigMaxAngle) / 72 > (TrigMaxAngle * k1) / 72;
  }

  /** A later minute puts the minute hand strictly further round. */
  lemma {:induction false} LongAngleIncreasing(m1: Minute, m2: Minute)
    requires m1 < m2
    ensures LongAngle(m1) < LongAngle(m2)
  {
    assert TrigMaxAngle * m2 >= TrigMaxAngle * m1 + TrigMaxAngle;
    DivMonotone(TrigMaxAngle * m1 + TrigMaxAngle, TrigMaxAngle * m2, 60);
    assert (TrigMaxAngle * m1 + TrigMaxAngle) / 60 > (TrigMaxAngle * m1) / 60;
  }

  /**
   * The stepped hour hand lags a continuously swept one
   * (`TrigMaxAngle * (60 * (hour % 12) + minute) / 720`) by less than one step.
   */
  lemma {:induction false} ShortAngleLagsSweep(hour: Hour, minute: Minute)
    ensures var sweep := TrigMaxAngle * (60 * (hour % 12) + minute) / 720;
      ShortAngle(hour, minute) <= sweep < ShortAngle(hour, minute) + TrigMaxAngle / 72 + 1
  {
    var k := Step(hour, minute);
    var t := 60 * (hour % 12) + minute;
    assert 10 * k <= t < 10 * k + 10;
    assert TrigMaxAngle * k / 72 == TrigMaxAngle * (10 * k) / 720;
    DivMonotone(TrigMaxAngle * (10 * k), TrigMaxAngle * t, 720);
  }

  /** 3:00 puts the hour hand at a quarter turn and the minute hand at 12 o'clock. */
  lemma ThreeOClock()
    ensures ShortAngle(3, 0) == 16384 == TrigMaxAngle / 4 && LongAngle(0) == 0
  {
  }

  /** 6:30: the hour angle truncates 65536 * 39 / 72 down to 35498. */
  lemma HalfPastSix()
    ensures ShortAngle(6, 30) == 35498 && LongAngle(30) == 32768
  {
  }

  // ---------------------------------------------------------------------
  // Signed circular difference

  /**
   * The representative of `x` modulo `TrigMaxRatio` that lies in
   * [-HalfRatio, HalfRatio]. `TrigMaxRatio` is odd (2 * HalfRatio + 1), so
   * that closed range holds exactly one representative of every residue.
   */
  function Centered(x: int): (r: int)
    ensures -HalfRatio <= r <= HalfRatio
    ensures (r - x) % TrigMaxRatio == 0
  {
    (x + HalfRatio) % TrigMaxRatio - HalfRatio
  }

  /** No other value of the range is congruent to `x`. */
  lemma CenteredUnique(x: int, r: int)
    requires -HalfRatio <= r <= HalfRatio
    requires (r - x) % TrigMaxRatio == 0
    ensures Centered(x) == r
  {
    var c := Centered(x);
    assert (r - c) % TrigMaxRatio == 0;
  }

  /** Shifting by a whole period does not change the representative. */
  lemma CenteredPeriodic(x: int)
    ensures Centered(x + TrigMaxRatio) == Centered(x)
  {
    CenteredUnique(x + TrigMaxRatio, Centered(x));
  }

  /** Negating the argument negates the representative, at both ends of the range too. */
  lemma {:induction false} CenteredNegate(x: int)
    ensures Centered(-x) == -Centered(x)
  {
    CenteredUnique(-x, -Centered(x));
  }

  /**
   * What `angle_delta(a, b)` returns: `a - b` in unsigned 32-bit arithmetic,
   * read as a signed 32-bit value, brought into [-HalfRatio, HalfRatio] by
   * whole multiples of `TrigMaxRatio`.
   */
  function SignedDelta(a: uint32, b: uint32): (r: int32)
    ensures -HalfRatio <= r <= HalfRatio
  {
    Centered(ToInt32(a - b))
  }

  /** `angle_delta`: the two normalising loops of the source. */
  method AngleDelta(a: uint32, b: uint32) returns (delta: int32)
    ensures delta == SignedDelta(a, b)
    ensures -HalfRatio <= delta <= HalfRatio
  {
    delta := ToInt32(a - b);
    ghost var start := delta;
    var half: int32 := TrigMaxRatio / 2;
    while delta > half
      invariant Centered(delta) == Centered(start)
      decreases delta
    {
      CenteredPeriodic(delta - TrigMaxRatio);
      delta := delta - TrigMaxRatio;
    }
    while delta < -half
      invariant delta <= half
      invariant Centered(delta) == Centered(start)
      decreases -(delta as int)
    {
      CenteredPeriodic(delta);
      delta := delta + TrigMaxRatio;
    }
    CenteredUnique(delta, delta);
  }

  /** An angle differs from itself by nothing. */
  lemma SignedDeltaSelf(a: uint32)
    ensures SignedDelta(a, a) == 0
  {
  }

  /**
   * Swapping the arguments negates the difference, including at +-HalfRatio.
   * The one exclusion is a 32-bit difference of exactly 2^31, whose negation
   * does not fit in `int32`; angles below a turn never produce it.
   */
  lemma {:induction false} SignedDeltaAntisymmetric(a: uint32, b: uint32)
    requires (a - b) % 0x1_0000_0000 != 0x8000_0000
    ensures SignedDelta(a, b) == -SignedDelta(b, a)
  {
    assert ToInt32(b - a) == -ToInt32(a - b);
    CenteredNegate(ToInt32(a - b));
  }

  /** At a 32-bit difference of 2^31 both orders give the same value, so antisymmetry needs its precondition. */
  lemma SignedDeltaAtInt32Min()
    ensures SignedDelta(0x8000_0000, 0) == SignedDelta(0, 0x8000_0000) == HalfRatio
  {
  }

  /**
   * For angles below a turn the 32-bit conversion is exact, the result is
   * congruent to `a - b` modulo `TrigMaxRatio`, and each loop of
   * `angle_delta` runs at most once.
   */
  lemma SignedDeltaOfAngles(a: uint32, b: uint32)
    requires a < TrigMaxAngle && b < TrigMaxAngle
    ensures ToInt32(a - b) == a - b
    ensures (SignedDelta(a, b) - (a - b)) % TrigMaxRatio == 0
    ensures SignedDelta(a, b) == a - b - TrigMaxRatio || SignedDelta(a, b) == a - b || SignedDelta(a, b) == a - b + TrigMaxRatio
    ensures -HalfRatio <= a - b <= HalfRatio <==> SignedDelta(a, b) == a - b
  {
  }

  /** Neither loop fires at exactly +-HalfRatio: both ends of the range are reached. */
  lemma SignedDeltaEnds()
    ensures SignedDelta(HalfRatio, 0) == HalfRatio
    ensures SignedDelta(0, HalfRatio) == -HalfRatio
  {
  }
}
