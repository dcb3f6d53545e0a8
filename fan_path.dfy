/**
 * The five-point path a fan is drawn with (`GPathInfo`): four samples along
 * the arc, `angle / 3` apart, at a fixed radius, then the centre. One buffer
 * is made by `generate_fan_path` and refilled in place by
 * `calculate_fan_path` for each fan.
 */
module FanPath {
  import opened CInts
  import opened Angles
  import opened HandGeometry

  /** Radius of every fan, hard-coded in `calculate_fan_path`. */
  const FanRadius: int := 128
  /** Points in a fan path: the arc samples and the centre. */
  const FanPointCount: nat := 5
  /** Arc samples written by the loop of `calculate_fan_path` (`i < 4`). */
  const ArcSamples: nat := 4

  /** Angle of arc sample `i`: `(angle / 3) * i + start_angle` in unsigned 32-bit arithmetic. */
  function SampleAngle(start: uint32, width: uint32, i: nat): (r: uint32)
    ensures i == 0 ==> r == start
    ensures start + width < 0x1_0000_0000 && i < ArcSamples ==> start <= r <= start + width
  {
    var step := width / 3;
    assert i < ArcSamples ==> step * i <= width by {
      if i < ArcSamples {
        MulMonotone(step, i, 3);
      }
    }
    Wrap32(step * i + start)
  }

  /** The points `calculate_fan_path` leaves in the buffer, in order. */
  function FanPoints(trig: TrigLookup, start: uint32, width: uint32, center: Point): (ps: seq<Point>)
    ensures |ps| == FanPointCount && ps[FanPointCount - 1] == center
  {
    seq(FanPointCount, i requires 0 <= i < FanPointCount =>
      if i < ArcSamples then HandsEnd(trig, SampleAngle(start, width, i), FanRadius, center) else center)
  }

  /**
   * Where no 32-bit wrap occurs, the samples start at `start`, step by
   * `width / 3`, and the last one falls short of `start + width` by the
   * remainder of `width / 3`, less than 3 units: the four samples span the arc.
   */
  lemma SampleAnglesSpanArc(start: uint32, width: uint32)
    requires start + width < 0x1_0000_0000
    ensures SampleAngle(start, width, 0) == start
    ensures forall i :: 0 <= i < ArcSamples ==> SampleAngle(start, width, i) == start + i * (width / 3)
    ensures forall i :: 0 < i < ArcSamples ==> SampleAngle(start, width, i - 1) <= SampleAngle(start, width, i)
    ensures start + width - 2 <= SampleAngle(start, width, ArcSamples - 1) <= start + width
  {
    var step := width / 3;
    assert 0 <= step && 3 * step <= width;
    assert 2 * step == step + step && 3 * step == step + step + step;
    assert SampleAngle(start, width, 0) == start;
    assert SampleAngle(start, width, 1) == start + step;
    assert SampleAngle(start, width, 2) == start + 2 * step;
    assert SampleAngle(start, width, 3) == start + 3 * step;
    forall i | 0 <= i < ArcSamples
      ensures SampleAngle(start, width, i) == start + i * step
    {
      assert i == 0 || i == 1 || i == 2 || i == 3;
    }
  }

  /** A fan narrower than 3 units collapses: its four arc samples coincide. */
  lemma NarrowFanCollapses(trig: TrigLookup, start: uint32, width: uint32, center: Point)
    requires width < 3
    ensures var ps := FanPoints(trig, start, width, center);
      forall i :: 0 <= i < ArcSamples ==> ps[i] == ps[0]
  {
    assert width / 3 == 0;
    forall i: nat | i < ArcSamples
      ensures SampleAngle(start, width, i) == start
    {
      assert width / 3 * i == 0;
    }
  }

  /**
   * With lookups within their full scale and a centre at least `FanRadius`
   * from the edge of the 16-bit range, every point of a fan lies within
   * `FanRadius` of the centre along each axis.
   */
  lemma FanWithinRadius(trig: TrigLookup, start: uint32, width: uint32, center: Point)
    requires Bounded(trig)
    requires -0x8000 + FanRadius <= center.x < 0x8000 - FanRadius
    requires -0x8000 + FanRadius <= center.y < 0x8000 - FanRadius
    ensures var ps := FanPoints(trig, start, width, center);
      forall i :: 0 <= i < |ps| ==> Within(ps[i], center, FanRadius)
  {
    var ps := FanPoints(trig, start, width, center);
    forall i | 0 <= i < |ps|
      ensures Within(ps[i], center, FanRadius)
    {
      if i < ArcSamples {
        HandsEndWithinLength(trig, SampleAngle(start, width, i), FanRadius, center);
      }
    }
  }

  /** `GPathInfo`: a point count and the buffer of points it describes. */
  class PathInfo {
    var numPoints: nat
    var points: array<Point>

    ghost predicate Valid()
      reads this
    {
      numPoints == points.Length == FanPointCount
    }

    /** `generate_fan_path`: five points, all at the origin (the literal's omitted elements are zero). */
    constructor Generate()
      ensures Valid() && fresh(points)
      ensures points[..] == seq(FanPointCount, _ => Point(0, 0))
    {
      numPoints := FanPointCount;
      points := new Point[FanPointCount](_ => Point(0, 0));
    }

    /**
     * `calculate_fan_path`: overwrite the buffer with the fan starting at
     * `startAngle` and `angle` units wide. The count and the buffer itself
     * stay as they were; only the buffer's elements change.
     */
    method Calculate(trig: TrigLookup, startAngle: uint32, angle: uint32, center: Point)
      requires Valid()
      modifies points
      ensures Valid()
      ensures forall i :: 0 <= i < ArcSamples ==>
        points[i] == HandsEnd(trig, SampleAngle(startAngle, angle, i), FanRadius, center)
      ensures points[ArcSamples] == center
      ensures points[..] == FanPoints(trig, startAngle, angle, center)
    {
      for i := 0 to ArcSamples
        invariant forall k :: 0 <= k < i ==>
          points[k] == HandsEnd(trig, SampleAngle(startAngle, angle, k), FanRadius, center)
      {
        points[i] := HandsEnd(trig, Wrap32(angle / 3 * i + startAngle), FanRadius, center);
      }
      points[ArcSamples] := center;
    }
  }
}
