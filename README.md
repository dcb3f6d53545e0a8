# Kaleidoscope watch face: geometry of the hands layer

This project models the geometry engine of a Pebble watch face in Dafny. The face draws
the hour ("short") and minute ("long") hands as filled half-turn fans. A third fan, in its
own colour and painted last, marks where the two fans overlap. Thin hand lines and a centre
dot are drawn on top.

The model covers, all from `src/c/main.c`:

- **Angles** (`angles.dfy`). The hour and minute angles are computed from a wall-clock time;
  the hour angle moves in ten-minute steps. `angle_delta` is a method with the source's two
  normalising loops. It is proved equal to a closed form: the representative of `a - b`
  modulo `TRIG_MAX_RATIO` that lies in `[-half, half]`.
- **Overlap placement** (`overlap.dfy`). This is the case split on the sign of the delta that
  picks the overlap fan's start and width. Lemmas relate it to the set of points both hand
  fans cover.
- **Hand projection** (`hand_geometry.dfy`). `calculate_hands_end` is modelled in the
  source's own integer types: a 32-bit product, C's truncating division, and 16-bit casts.
- **Fan paths** (`fan_path.dfy`). `GPathInfo` is a class over a five-element `array`.
  `generate_fan_path` is its constructor. `calculate_fan_path` is a method whose loop fills
  the buffer in place.
- **The redraw** (`hands_layer.dfy`). `hands_update_proc` is a method that issues draw
  calls on a graphics context. It is proved to append exactly the list the pure function
  `HandsDraws` gives: three fans, two lines, one dot, in that order.
- **C integers** (`c_ints.dfy`). Fixed-width conversions and truncating division are
  written out, because Dafny's `int` is unbounded and its `/` is Euclidean.

Two SDK constants are kept distinct:

- `TrigMaxAngle` (`TRIG_MAX_ANGLE`, 0x10000) is one full turn.
- `TrigMaxRatio` (`TRIG_MAX_RATIO`, 0xffff) is the full scale of the trigonometric lookups.

The code uses `TrigMaxRatio` as the wrap step in `angle_delta` and halves it to get the fan
width. `TrigMaxRatio` is odd (2 · 32767 + 1), so `[-32767, 32767]` holds exactly one value
of every residue. For that reason `angle_delta` is antisymmetric even at ±32767.

Points of the code that are easy to misread:

- `angle_delta` returns values in `[-half, half]`, with both ends included.
- The wrap step is `TRIG_MAX_RATIO` (65535), one less than a full turn (65536). The fans
  are 32767 units wide.
- `calculate_fan_path` writes **four** arc samples, at `start + i*(angle/3)` for
  i = 0..3, and then the centre.
- The overlap width can exceed a half turn: at `delta == -half` it is `2*half` (see
  Findings).
- `graphics_context_set_stroke_width` ignores a width of zero, so the dot's
  `set_stroke_width(context, 0)` leaves the minute hand's width (4) in the context.

The sine and cosine tables of the SDK are not part of this model. `TrigLookup` takes any
pair of functions. Properties that need the lookups to stay within `±TRIG_MAX_RATIO`
require `Bounded`. Angles are passed to the lookups unreduced, as in the source.

Overlap arcs are measured on a circle whose period is `TrigMaxRatio`, the period
`angle_delta` works with. On that circle a point `p` is on the arc from `start` of width
`w` when `(p - start) mod TrigMaxRatio <= w`.

## Model

| member | source | states |
|---|---|---|
| Angles.Step | src/c/main.c:41 | the ten-minute step index `(hour%12)*6 + minute/10` lies in 0..71 |
| Angles.ShortAngle | src/c/main.c:41 | the hour angle is below a full turn |
| Angles.LongAngle | src/c/main.c:42 | the minute angle is below a full turn |
| Angles.ScaledBelowTurn | src/c/main.c:41-42 | `k` of `n` parts of a turn, for `0 <= k < n`, gives an angle in [0, TRIG_MAX_ANGLE), which keeps both hand angles inside `uint32_t` and below a turn |
| Angles.AngleProductsFitInt32 | src/c/main.c:41-42 | both intermediate products are non-negative and below 2^31 for every hour 0..23 and minute 0..59 |
| Angles.ShortAngleStepped | src/c/main.c:41 | the hour angle depends only on `hour % 12` and `minute / 10` |
| Angles.ShortAngleIncreasing | src/c/main.c:41 | a later ten-minute step within twelve hours gives a strictly larger hour angle |
| Angles.LongAngleIncreasing | src/c/main.c:42 | a later minute gives a strictly larger minute angle |
| Angles.ShortAngleLagsSweep | src/c/main.c:41 | the stepped hour angle is at most one step (TURN/72 + 1) behind a continuously swept one, and never ahead of it |
| Angles.ThreeOClock | src/c/main.c:41-42 | 3:00 gives (16384, 0): a quarter turn and 12 o'clock |
| Angles.HalfPastSix | src/c/main.c:41-42 | 6:30 gives (35498, 32768) |
| Angles.Centered | src/c/main.c:143-145 | the closed form lies in [-half, half] and is congruent to its argument modulo TRIG_MAX_RATIO |
| Angles.CenteredUnique | src/c/main.c:143-145 | no other value in [-half, half] is congruent to the argument |
| Angles.CenteredPeriodic | src/c/main.c:144-145 | adding TRIG_MAX_RATIO, as the second loop does, leaves the representative unchanged |
| Angles.CenteredNegate | src/c/main.c:143-145 | negating the argument negates the representative, at both ends of the range too |
| Angles.SignedDelta | src/c/main.c:141-147 | angle_delta's result lies in [-half, half] for all 32-bit inputs |
| Angles.AngleDelta | src/c/main.c:141-147 | the two loops terminate for every 32-bit input, stay within int32, and return the closed form `SignedDelta` |
| Angles.SignedDeltaSelf | src/c/main.c:142 | `angle_delta(a, a) == 0` |
| Angles.SignedDeltaAntisymmetric | src/c/main.c:142-146 | `angle_delta(a, b) == -angle_delta(b, a)`, including at ±half, whenever the 32-bit difference is not 2^31 |
| Angles.SignedDeltaAtInt32Min | src/c/main.c:142 | at a 32-bit difference of 2^31 both argument orders give 32767, so antisymmetry needs that exclusion |
| Angles.SignedDeltaOfAngles | src/c/main.c:142-146 | for angles below a turn the int32 conversion is exact, the result is congruent to `a - b` modulo TRIG_MAX_RATIO, each loop fires at most once, and the result is `a - b` exactly when `a - b` lies in [-half, half] |
| Angles.SignedDeltaEnds | src/c/main.c:144-145 | neither loop fires at exactly ±half: both ends are returned |
| HandGeometry.Scale | src/c/main.c:119-120 | dividing a 32-bit product by TRIG_MAX_RATIO truncates toward zero: every product smaller than the full scale, of either sign, gives offset 0 |
| HandGeometry.Offset | src/c/main.c:119-120 | a zero lookup or a zero length gives no offset along that axis |
| HandGeometry.OffsetBound | src/c/main.c:119-120 | a lookup within ±TRIG_MAX_RATIO moves the tip by at most `length` along one axis (length below 2^15) |
| HandGeometry.ProductFits | src/c/main.c:119-120 | `lookup * length` fits in int32 when the lookup is within full scale and length is below 2^15 |
| HandGeometry.ScaleNegate | src/c/main.c:119-120 | the divide-and-cast step maps opposite products to opposite offsets |
| HandGeometry.OffsetNegate | src/c/main.c:119-120 | opposite lookups give opposite offsets |
| HandGeometry.HandsEnd | src/c/main.c:117-123 | `calculate_hands_end`: a hand of length 0 ends at the centre for every angle and every lookup |
| HandGeometry.HandsEndWithinLength | src/c/main.c:117-123 | with bounded lookups, the tip is at most `length` from the centre on each axis |
| HandGeometry.HandsEndMirror | src/c/main.c:117-123 | angles with opposite sines and equal cosines give tips mirrored about the centre's vertical; truncating division makes this hold |
| FanPath.SampleAngle | src/c/main.c:136 | sample 0 is the fan's start angle; where `start + angle` does not wrap, each of the four samples lies in `[start, start + angle]` |
| FanPath.FanPoints | src/c/main.c:134-139 | a fan path has exactly five points and its last point is the centre |
| FanPath.SampleAnglesSpanArc | src/c/main.c:135-136 | without 32-bit wrap the samples are `start + i*(angle/3)`, non-decreasing from `start`, and the fourth is within 2 units below `start + angle` |
| FanPath.NarrowFanCollapses | src/c/main.c:135-136 | a fan narrower than 3 units has all four arc samples at the same point |
| FanPath.FanWithinRadius | src/c/main.c:134-139 | with bounded lookups every point of a fan is within 128 of the centre on each axis |
| FanPath.PathInfo.Generate | src/c/main.c:125-132 | a fresh five-point buffer with every point at (0, 0) |
| FanPath.PathInfo.Calculate | src/c/main.c:134-139 | points 0..3 become the hand ends at `start + i*(angle/3)`, radius 128; point 4 becomes the centre; the count and the buffer stay the same |
| Overlap.OverlapFan | src/c/main.c:65-75 | the overlap fan starts at one of the two hands; its width is at most half, except at `delta == -half`, where it is `2*half` |
| Overlap.OverlapFanWidths | src/c/main.c:68-75 | inside (-half, 0): starts at the minute hand, width `delta + half` in (0, half); otherwise starts at the hour hand, width `half - delta`, which is in [0, half] for `delta >= 0` and `2*half` at `-half` |
| Overlap.ArcsMeet | src/c/main.c:65-75 | two half-wide arcs whose starts are `d` apart meet in the arc of width `half - d` from the later start |
| Overlap.PlacementIsIntersection | src/c/main.c:65-75 | for each sign of the delta, the arc that branch picks is exactly the common part of the two hand fans |
| Overlap.OverlapFanIsIntersection | src/c/main.c:65-75 | except at `delta == -half`, the program's overlap fan covers exactly the points both hand fans cover |
| Overlap.OverlapFanAtBoundary | src/c/main.c:68-75 | at `delta == -half`, the program's fan is `2*half` wide from the hour hand and contains a point outside the minute fan |
| Overlap.IntendedOverlapFan | src/c/main.c:65-75 | the corrected placement starts at one of the hands and is never wider than half |
| Overlap.IntendedOverlapFanIsIntersection | src/c/main.c:65-75 | the corrected placement covers exactly the common part of the two hand fans for every pair of angles |
| Overlap.OverlapAtMidnight | src/c/main.c:65-75 | at 0:00 the delta is 0 and the overlap fan is the whole hour fan: starts at the hour angle, width half |
| Overlap.OverlapAtSixAndFivePastSeven | src/c/main.c:41-75 | at 6:00 and 7:05 the delta is -half and the overlap fan is `2*half` wide |
| Overlap.HalfTurnApart | src/c/main.c:144 | angles exactly 32768 apart give delta -half, after one pass of the first loop |
| Overlap.BoundaryTimes | src/c/main.c:41-75 | the delta is -half exactly at 6:00, 7:05, 18:00 and 19:05 |
| Overlap.BoundaryOnlyAtThoseTimes | src/c/main.c:41-42 | no other hour and minute give delta -half |
| Overlap.DeltaAtLowerEnd | src/c/main.c:144-145 | for angles below a turn, delta -half comes only from a difference of 32768 or -32767 |
| Overlap.BoundaryStep | src/c/main.c:41-42 | the hour angle exceeds the minute angle by exactly 32768 only at 6:00 and 7:05, and never trails it by 32767 |
| HandsLayer.Settings | src/c/main.c:199-207 | the hand settings `init` loads: the hour hand is shorter than the minute hand and both fit inside the 128-unit fans; the hour hand's width is larger, and neither width is zero |
| HandsLayer.StrokeWidth | src/c/main.c:83 | the stroke width the context keeps fits in 8 bits |
| HandsLayer.WidthAfterSet | src/c/main.c:92 | after `graphics_context_set_stroke_width` a zero width (after the `uint8_t` conversion) leaves the width as it was, any other is stored, and a positive width never becomes zero |
| HandsLayer.HandsDraws | src/c/main.c:47-94 | a redraw is six operations: three five-point polygons closing at the centre, two lines from the centre, then a white dot of radius 1 at the centre; if the context starts with a positive width, both lines have a positive width |
| HandsLayer.SettingsLineWidths | src/c/main.c:81-89 | with the settings `init` loads, the hour line is 8 wide and the minute line 4, whatever width the context held before |
| HandsLayer.OverlapPaintedOverCommonPart | src/c/main.c:47-79 | the hour fan and the minute fan are painted first and the overlap fan after them; at every time except 6:00, 7:05, 18:00 and 19:05 the overlap fan's arc is exactly their common part |
| HandsLayer.DrawsWithinFanRadius | src/c/main.c:47-89 | with bounded lookups and hands no longer than 128, every point drawn is within 128 of the centre on each axis |
| HandsLayer.GContext.SetStrokeColor | src/c/main.c:48 | sets the stroke colour and nothing else |
| HandsLayer.GContext.SetFillColor | src/c/main.c:49 | sets the fill colour and nothing else |
| HandsLayer.GContext.SetStrokeWidth | src/c/main.c:83 | sets the stroke width, truncated to uint8, as `WidthAfterSet` gives it (a zero width is ignored), and nothing else |
| HandsLayer.GContext.FillPath | src/c/main.c:51-53 | records one filled polygon of the path's current points in the current fill colour |
| HandsLayer.GContext.DrawLine | src/c/main.c:84 | records one line in the current stroke colour and width |
| HandsLayer.GContext.FillCircle | src/c/main.c:94 | records one filled circle in the current fill colour |
| HandsLayer.DrawFan | src/c/main.c:50-53 | refills the shared buffer with `FanPoints` of the fan and fills it: appends the fan's polygon and leaves the colours and width unchanged |
| HandsLayer.PlaceOverlapFan | src/c/main.c:65-75 | computing `angle_delta` and branching on it gives the start and width of `OverlapFan` |
| HandsLayer.HandsUpdateProc | src/c/main.c:34-95 | one redraw appends exactly `HandsDraws` (from the context's width on entry) to the context and leaves it with fill white, the minute hand's stroke colour and the minute line's width; the dot's zero width is ignored |

## Findings

| source | as written | input that shows it | evidently intended | confidence | as-written member | corrected member |
|---|---|---|---|---|---|---|
| src/c/main.c:68-75 | the test `-half < delta_angle` sends `delta == -half` to the else branch, which draws a fan `half - delta = 2*half` (65534) wide from the hour hand | 6:00 (also 7:05, 18:00, 19:05): hour angle 32768, minute angle 0, `angle_delta` returns -32767; the hands' fans only touch, yet the overlap fan's samples are 32768, 54612, 76456 (≡ 10920) and 98300 (≡ 32764): 6, 10 and 2 o'clock and back to 6, so the overlap colour fills the triangle through those three points, half of the hexagon the two hand fans paint | `delta == -half` belongs to the first branch, giving an overlap of width 0 at the minute hand | high; not executed | Overlap.OverlapFanAtBoundary | Overlap.IntendedOverlapFanIsIntersection |

The redraw model (`HandsDraws`, `HandsUpdateProc`) keeps the placement as written. Those
members describe what the program draws. `IntendedOverlapFan` is the corrected placement,
and its intersection property holds for every pair of angles.

## Left out

- Window, layer and text-layer setup and teardown, the tick subscription,
  `init`/`deinit`/`main`, `update_time` and the empty `bg_update_proc` are platform
  plumbing. The hand settings that `init` assigns appear only as the function
  `HandsLayer.Settings`.
- The bottom bar (`bottombar_update_proc`: `strftime` date text and the rectangle fill) is
  formatting and I/O through SDK calls.
- `time(NULL)` and `localtime` are replaced by inputs. The hour (0..23) and minute (0..59)
  are parameters.
- `layer_get_bounds` and `grect_center_point` are replaced by the centre point, which is a
  parameter. The dot is drawn at that same centre. This assumes the layer's bounds start at
  (0, 0), so that `GPoint(w/2, h/2)` is its centre point.
- `sin_lookup` and `cos_lookup` are SDK tables that this model does not contain. Any pair of
  functions is admitted. Results that need the real range assume `Bounded`.
- `gpath_create`, `gpath_draw_filled` and `gpath_destroy` appear together as one recorded
  polygon fill. Rasterisation, colours beyond their names, and `APP_LOG` are left out.
- The storage lifetime of the compound literal behind `generate_fan_path` is not modelled.
  Its points have automatic storage, so in C the pointer dangles after the return. The
  model's buffer is a fresh five-element array.
- HandGeometry.HandsEnd: a product `lookup * length` that overflows int32 is modelled as
  two's-complement wrap-around. C leaves signed overflow undefined. With lookups within
  ±TRIG_MAX_RATIO, overflow needs a length above 32768, and the face never uses one.
- Overlap.OnArc: arcs are measured modulo TRIG_MAX_RATIO (65535), the period `angle_delta`
  uses, not modulo the 0x10000 turn the lookups use. On the real dial the overlap arc can
  differ from the exact intersection by one angle unit.
