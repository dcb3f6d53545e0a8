/**
 * Projection of a hand from the centre of the face (`calculate_hands_end`):
 * fixed-point sine and cosine times the length, divided by the lookups'
 * full scale with C's truncating division, then added to the centre, all in
 * the 16- and 32-bit types of the source.
 */
module HandGeometry {
  import opened CInts
  import opened Angles

  /** `GPoint`: a screen coordinate, y growing downwards. */
  datatype Point = Point(x: int16, y: int16)

  /**
   * The SDK's `sin_lookup` and `cos_lookup`. Their tables are not part of this
   * model, so every pair of functions is admitted and properties that need
   * their range say so with `Bounded`.
   */
  datatype TrigLookup = TrigLookup(sin: int32 -> int32, cos: int32 -> int32)

  /** Both lookups stay within the full scale `TrigMaxRatio`, as the SDK's do. */
  predicate Bounded(trig: TrigLookup)
  {
    forall a: int32 ::
      -TrigMaxRatio <= trig.sin(a) <= TrigMaxRatio && -TrigMaxRatio <= trig.cos(a) <= TrigMaxRatio
  }

  /** One axis of the projection: `(int16_t)(lookup * (int32_t)length / TRIG_MAX_RATIO)`. */
  function Offset(lookup: int32, length: uint16): (d: int16)
    ensures lookup == 0 || length == 0 ==> d == 0
  {
    Scale(lookup * length)
  }

  /** The 32-bit product brought back from fixed point and cast to 16 bits. */
  function Scale(product: int): (d: int16)
    ensures -TrigMaxRatio < product < TrigMaxRatio ==> d == 0
  {
    ToInt16(TruncDiv(ToInt32(product), TrigMaxRatio))
  }

  /** `p` lies within `r` of `center` along each axis. */
  predicate Within(p: Point, center: Point, r: int)
  {
    -r <= p.x - center.x <= r && -r <= p.y - center.y <= r
  }

  /**
   * `calculate_hands_end`: the tip of a hand of `length` pixels at `angle`,
   * clockwise from 12 o'clock. A hand of length zero ends at the centre,
   * whatever the lookups return.
   */
  function HandsEnd(trig: TrigLookup, angle: uint32, length: uint16, center: Point): (tip: Point)
    ensures length == 0 ==> tip == center
  {
    var a := ToInt32(angle);
    Point(ToInt16(Offset(trig.sin(a), length) + center.x),
          ToInt16(Offset(ToInt32(-(trig.cos(a) as int)), length) + center.y))
  }

  /** A lookup of magnitude at most the full scale moves a point by at most `length`. */
  lemma OffsetBound(lookup: int32, length: uint16)
    requires -TrigMaxRatio <= lookup <= TrigMaxRatio
    requires length < 0x8000
    ensures -(length as int) <= Offset(lookup, length) <= length
  {
    var p := lookup * length;
    ProductFits(lookup, length);
    TruncDivBound(p, TrigMaxRatio, length);
  }

  /** Opposite lookups give opposite offsets when the product fits in 32 bits. */
  lemma OffsetNegate(lookup: int32, length: uint16)
    requires -TrigMaxRatio <= lookup <= TrigMaxRatio
    requires length < 0x8000
    ensures Offset(-(lookup as int), length) == -(Offset(lookup, length) as int)
  {
    var p := lookup * length;
    var m := (-(lookup as int)) * length;
    assert m == -p by { NegateProduct(lookup, length); }
    assert -TrigMaxRatio * length <= p <= TrigMaxRatio * length && -0x8000_0000 <= p < 0x8000_0000 by {
      ProductFits(lookup, length);
    }
    ScaleNegate(p, length);
    assert Offset(-(lookup as int), length) == Scale(m);
  }

  lemma ScaleNegate(p: int, length: int)
    requires 0 <= length < 0x8000
    requires -TrigMaxRatio * length <= p <= TrigMaxRatio * length
    requires -0x8000_0000 <= p < 0x8000_0000
    ensures Scale(-p) == -(Scale(p) as int)
  {
    TruncDivBound(p, TrigMaxRatio, length);
    TruncDivNegate(p, TrigMaxRatio);
  }

  /** A lookup of magnitude at most the full scale times a length below 2^15 fits in `int32`. */
  lemma ProductFits(lookup: int, length: int)
    requires -TrigMaxRatio <= lookup <= TrigMaxRatio
    requires 0 <= length < 0x8000
    ensures -TrigMaxRatio * length <= lookup * length <= TrigMaxRatio * length
    ensures -0x8000_0000 <= lookup * length < 0x8000_0000
  {
    MulMonotone(length, lookup, TrigMaxRatio);
    MulMonotone(length, -TrigMaxRatio, lookup);
    assert length * lookup == lookup * length;
    assert length * -TrigMaxRatio == -TrigMaxRatio * length;
    assert length * TrigMaxRatio == TrigMaxRatio * length;
    MulMonotone(TrigMaxRatio, length, 0x7fff);
  }

  /**
   * With lookups within the full scale, the tip lies at most `length` away
   * from the centre along each axis, provided the centre is far enough from
   * the edge of the 16-bit coordinate range for the sum not to wrap.
   */
  lemma HandsEndWithinLength(trig: TrigLookup, angle: uint32, length: uint16, center: Point)
    requires Bounded(trig)
    requires length < 0x8000
    requires -0x8000 <= center.x - (length as int) && center.x + length < 0x8000
    requires -0x8000 <= center.y - (length as int) && center.y + length < 0x8000
    ensures Within(HandsEnd(trig, angle, length, center), center, length)
  {
    var a := ToInt32(angle);
    OffsetBound(trig.sin(a), length);
    OffsetBound(ToInt32(-(trig.cos(a) as int)), length);
  }

  /**
   * Angles whose sines are opposite and whose cosines agree give tips that
   * mirror each other about the vertical through the centre: truncating
   * division rounds both sides toward the centre alike.
   */
  lemma HandsEndMirror(trig: TrigLookup, a1: uint32, a2: uint32, length: uint16, center: Point)
    requires Bounded(trig)
    requires length < 0x8000
    requires -0x8000 <= center.x - (length as int) && center.x + length < 0x8000
    requires trig.sin(ToInt32(a2)) == -(trig.sin(ToInt32(a1)) as int)
    requires trig.cos(ToInt32(a2)) == trig.cos(ToInt32(a1))
    ensures HandsEnd(trig, a2, length, center).x - center.x == center.x - HandsEnd(trig, a1, length, center).x
    ensures HandsEnd(trig, a2, length, center).y == HandsEnd(trig, a1, length, center).y
  {
    var s: int32 := trig.sin(ToInt32(a1));
    OffsetBound(s, length);
    OffsetBound(-(s as int), length);
    OffsetNegate(s, length);
  }
}
