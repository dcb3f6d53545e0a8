/**
 * Placement of the overlap fan: the part of the dial that both the hour fan
 * and the minute fan cover. Each of those fans starts at its hand and is
 * `HalfRatio` wide; the overlap fan is chosen by the sign of
 * `angle_delta(short_angle, long_angle)`.
 *
 * Arcs are measured here on the circle `angle_delta` works on, whose period
 * is `TrigMaxRatio`.
 */
module Overlap {
  import opened CInts
  import opened Angles

  /** The start angle and width handed to `calculate_fan_path`, both `uint32_t`. */
  datatype Fan = Fan(start: uint32, width: uint32)

  /**
   * The case split of `hands_update_proc`: strictly between -half and 0 the
   * fan starts at the minute hand and is `delta + half` wide; otherwise it
   * starts at the hour hand and is `half - delta` wide. The width never
   * exceeds a fan's width except at `delta == -half`, where it is twice that.
   */
  function OverlapFan(shortAngle: uint32, longAngle: uint32): (f: Fan)
    ensures f.start == shortAngle || f.start == longAngle
    ensures f.width <= HalfRatio
         || (SignedDelta(shortAngle, longAngle) == -HalfRatio && f.width == 2 * HalfRatio)
  {
    var delta := SignedDelta(shortAngle, longAngle);
    var half := HalfRatio;
    if -half < delta && delta < 0 then Fan(longAngle, Wrap32(delta + half))
    else Fan(shortAngle, Wrap32(half - delta))
  }

  /**
   * The overlap fan as evidently intended: the boundary `delta == -half`
   * joins the first branch, where the two fans only touch and the width is 0.
   */
  function IntendedOverlapFan(shortAngle: uint32, longAngle: uint32): (f: Fan)
    ensures f.start == shortAngle || f.start == longAngle
    ensures f.width <= HalfRatio
  {
    var delta := SignedDelta(shortAngle, longAngle);
    var half := HalfRatio;
    if -half <= delta && delta < 0 then Fan(longAngle, Wrap32(delta + half))
    else Fan(shortAngle, Wrap32(half - delta))
  }

  /** `p` lies on the arc that runs `width` units clockwise from `start`. */
  predicate OnArc(p: int, start: int, width: int)
  {
    (p - start) % TrigMaxRatio <= width
  }

  /** `p` lies on both the hour fan and the minute fan. */
  predicate OnBothFans(p: int, shortAngle: int, longAngle: int)
  {
    OnArc(p, shortAngle, HalfRatio) && OnArc(p, longAngle, HalfRatio)
  }

  /**
   * Two half-width arcs whose starts differ by `d` (later start minus
   * earlier, modulo the period) meet in the arc from the later start that is
   * `HalfRatio - d` wide.
   */
  lemma ArcsMeet(p: int, early: int, late: int, d: int)
    requires 0 <= d <= HalfRatio
    requires (late - early - d) % TrigMaxRatio == 0
    ensures OnArc(p, early, HalfRatio) && OnArc(p, late, HalfRatio) <==> OnArc(p, late, HalfRatio - d)
  {
    var x := (p - early) % TrigMaxRatio;
    var y := (p - late) % TrigMaxRatio;
    assert (y - (x - d)) % TrigMaxRatio == 0;
    if x >= d {
      assert y == x - d;
    } else {
      assert y == x - d + TrigMaxRatio;
    }
  }

  /** Both fan placements, by the sign of the delta, cover exactly the common part of the two fans. */
  lemma {:induction false} PlacementIsIntersection(shortAngle: uint32, longAngle: uint32, p: int)
    requires shortAngle < TrigMaxAngle && longAngle < TrigMaxAngle
    ensures var delta := SignedDelta(shortAngle, longAngle);
      (0 <= delta ==> (OnArc(p, shortAngle, HalfRatio - delta) <==> OnBothFans(p, shortAngle, longAngle)))
      && (delta < 0 ==> (OnArc(p, longAngle, HalfRatio + delta) <==> OnBothFans(p, shortAngle, longAngle)))
  {
    var delta := SignedDelta(shortAngle, longAngle);
    SignedDeltaOfAngles(shortAngle, longAngle);
    if 0 <= delta {
      ArcsMeet(p, longAngle, shortAngle, delta);
    } else {
      ArcsMeet(p, shortAngle, longAngle, -delta);
    }
  }

  /**
   * Except at `delta == -half`, the overlap fan the program draws covers
   * exactly the points both hand fans cover.
   */
  lemma OverlapFanIsIntersection(shortAngle: uint32, longAngle: uint32)
    requires shortAngle < TrigMaxAngle && longAngle < TrigMaxAngle
    requires SignedDelta(shortAngle, longAngle) != -HalfRatio
    ensures var f := OverlapFan(shortAngle, longAngle);
      forall p :: OnArc(p, f.start, f.width) <==> OnBothFans(p, shortAngle, longAngle)
  {
    forall p
      ensures var f := OverlapFan(shortAngle, longAngle);
        OnArc(p, f.start, f.width) <==> OnBothFans(p, shortAngle, longAngle)
    {
      PlacementIsIntersection(shortAngle, longAngle, p);
    }
  }

  /**
   * At `delta == -half` the fans only touch, yet the program's overlap fan
   * starts at the hour hand and is `2 * half` wide: the hour hand itself lies
   * on it but not on the minute fan.
   */
  lemma OverlapFanAtBoundary(shortAngle: uint32, longAngle: uint32)
    requires shortAngle < TrigMaxAngle && longAngle < TrigMaxAngle
    requires SignedDelta(shortAngle, longAngle) == -HalfRatio
    ensures OverlapFan(shortAngle, longAngle) == Fan(shortAngle, 2 * HalfRatio)
    ensures OnArc(shortAngle, shortAngle, 2 * HalfRatio) && !OnBothFans(shortAngle, shortAngle, longAngle)
  {
    SignedDeltaOfAngles(shortAngle, longAngle);
  }

  /** The intended placement covers exactly the common part of the two fans for every pair of angles. */
  lemma IntendedOverlapFanIsIntersection(shortAngle: uint32, longAngle: uint32)
    requires shortAngle < TrigMaxAngle && longAngle < TrigMaxAngle
    ensures var f := IntendedOverlapFan(shortAngle, longAngle);
      forall p :: OnArc(p, f.start, f.width) <==> OnBothFans(p, shortAngle, longAngle)
  {
    forall p
      ensures var f := IntendedOverlapFan(shortAngle, longAngle);
        OnArc(p, f.start, f.width) <==> OnBothFans(p, shortAngle, longAngle)
    {
      PlacementIsIntersection(shortAngle, longAngle, p);
    }
  }

  /**
   * The widths of the two branches: strictly inside (-half, 0) the fan starts
   * at the minute hand and is narrower than a hand fan; otherwise it starts
   * at the hour hand, is at most a hand fan wide for `delta >= 0`, and is
   * twice that at `delta == -half`.
   */
  lemma OverlapFanWidths(shortAngle: uint32, longAngle: uint32)
    ensures var d, f := SignedDelta(shortAngle, longAngle), OverlapFan(shortAngle, longAngle);
      && (-HalfRatio < d < 0 ==> f.start == longAngle && f.width == d + HalfRatio && 0 < f.width < HalfRatio)
      && (!(-HalfRatio < d < 0) ==> f.start == shortAngle && f.width == HalfRatio - d)
      && (0 <= d ==> 0 <= f.width <= HalfRatio)
      && (d == -HalfRatio ==> f.width == 2 * HalfRatio)
  {
  }

  /** At 0:00 both hands point up; the overlap fan is the whole hour fan. */
  lemma OverlapAtMidnight()
    ensures SignedDelta(ShortAngle(0, 0), LongAngle(0)) == 0
    ensures OverlapFan(ShortAngle(0, 0), LongAngle(0)) == Fan(ShortAngle(0, 0), HalfRatio)
  {
    assert ShortAngle(0, 0) == 0 && LongAngle(0) == 0;
    SignedDeltaSelf(0);
  }

  /** At 6:00 and at 7:05 the hour hand is 32768 units past the minute hand and the boundary case is hit. */
  lemma OverlapAtSixAndFivePastSeven()
    ensures SignedDelta(ShortAngle(6, 0), LongAngle(0)) == -HalfRatio
    ensures OverlapFan(ShortAngle(6, 0), LongAngle(0)) == Fan(32768, 2 * HalfRatio)
    ensures SignedDelta(ShortAngle(7, 5), LongAngle(5)) == -HalfRatio
    ensures OverlapFan(ShortAngle(7, 5), LongAngle(5)) == Fan(38229, 2 * HalfRatio)
  {
    assert ShortAngle(6, 0) == 32768 && LongAngle(0) == 0;
    assert ShortAngle(7, 5) == 38229 && LongAngle(5) == 5461;
    HalfTurnApart(32768, 0);
    HalfTurnApart(38229, 5461);
  }

  /** Angles 32768 apart are one unit more than `HalfRatio` apart, so the first loop of `angle_delta` fires once. */
  lemma HalfTurnApart(a: uint32, b: uint32)
    requires a < TrigMaxAngle && b < TrigMaxAngle && a - b == 32768
    ensures SignedDelta(a, b) == -HalfRatio
    ensures OverlapFan(a, b) == Fan(a, 2 * HalfRatio)
  {
    assert ToInt32(a - b) == 32768;
    CenteredUnique(32768, -HalfRatio);
  }

  /** Those are the only times of day that hit the boundary case. */
  lemma BoundaryTimes(hour: Hour, minute: Minute)
    ensures SignedDelta(ShortAngle(hour, minute), LongAngle(minute)) == -HalfRatio
        <==> (hour % 12 == 6 && minute == 0) || (hour % 12 == 7 && minute == 5)
  {
    if hour % 12 == 6 && minute == 0 {
      ShortAngleStepped(hour, minute, 6, 0);
      OverlapAtSixAndFivePastSeven();
    } else if hour % 12 == 7 && minute == 5 {
      ShortAngleStepped(hour, minute, 7, 5);
      OverlapAtSixAndFivePastSeven();
    } else if SignedDelta(ShortAngle(hour, minute), LongAngle(minute)) == -HalfRatio {
      BoundaryOnlyAtThoseTimes(hour, minute);
    }
  }

  lemma BoundaryOnlyAtThoseTimes(hour: Hour, minute: Minute)
    requires SignedDelta(ShortAngle(hour, minute), LongAngle(minute)) == -HalfRatio
    ensures (hour % 12 == 6 && minute == 0) || (hour % 12 == 7 && minute == 5)
  {
    var s, l := ShortAngle(hour, minute), LongAngle(minute);
    DeltaAtLowerEnd(s, l);
    BoundaryStep(hour % 12, minute / 10, minute % 10, s, l);
  }

  /** Angles below a turn reach `-HalfRatio` only from a difference of 32768 or of -32767. */
  lemma DeltaAtLowerEnd(a: uint32, b: uint32)
    requires a < TrigMaxAngle && b < TrigMaxAngle
    requires SignedDelta(a, b) == -HalfRatio
    ensures a - b == 32768 || a - b == -32767
  {
    SignedDeltaOfAngles(a, b);
  }

  /**
   * Writing the hour modulo 12 as `h` and the minute as `10 * j + u`, the
   * hour angle exceeds the minute angle by 32768 only at (6, 0, 0) and
   * (7, 0, 5), and never trails it by 32767. Multiplying by 45 / 8192 turns
   * the difference of the two truncated quotients into
   * `5 * step - 6 * minute`, to within 45 / 8192.
   */
  lemma BoundaryStep(h: int, j: int, u: int, s: int, l: int)
    requires 0 <= h < 12 && 0 <= j < 6 && 0 <= u < 10
    requires s == TrigMaxAngle * (h * 6 + j) / 72
    requires l == TrigMaxAngle * (10 * j + u) / 60
    requires s - l == 32768 || s - l == -32767
    ensures (h == 6 && j == 0 && u == 0) || (h == 7 && j == 0 && u == 5)
  {
    var k, m := h * 6 + j, 10 * j + u;
    assert 9 * s <= 8192 * k < 9 * s + 9;
    assert 15 * l <= 16384 * m < 15 * l + 15;
    assert 8192 * (5 * k - 6 * m) - 45 < 45 * (s - l) < 8192 * (5 * k - 6 * m) + 45;
    assert s - l == 32768;
    assert 5 * k - 6 * m == 180;
    assert 30 * h - 55 * j - 6 * u == 180;
  }
}
