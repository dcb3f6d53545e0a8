/**
 * The hands layer's redraw (`hands_update_proc`): three filled fans, two
 * hand lines and a centre dot, drawn in that order onto a graphics context.
 * The wall-clock time and the layer's centre are inputs; the graphics
 * context is modelled by the drawing state it keeps and the list of what has
 * been drawn on it.
 */
module HandsLayer {
  import opened CInts
  import opened Angles
  import opened HandGeometry
  import opened FanPath
  import opened Overlap

  /** The colours the layer uses. */
  datatype Color = Clear | Black | White | Orange | KellyGreen | ChromeYellow

  /** One hand's settings: line length and width, line colour, fan colour. */
  datatype HandStyle = HandStyle(length: uint16, width: uint16, stroke: Color, fill: Color)

  /** The settings `init` loads once, for the minute (long) and hour (short) hands. */
  datatype Config = Config(long: HandStyle, short: HandStyle, overlapFill: Color)

  /**
   * The values `init` assigns: the hour hand is shorter and thicker than the
   * minute hand, both fit inside the fans, and neither width is one the
   * stroke-width setter ignores.
   */
  function Settings(): (cfg: Config)
    ensures cfg.short.length < cfg.long.length <= FanRadius
    ensures 0 < StrokeWidth(cfg.long.width) < StrokeWidth(cfg.short.width)
  {
    Config(HandStyle(80, 4, Black, KellyGreen), HandStyle(48, 8, Black, Orange), ChromeYellow)
  }

  /** Radius of the centre dot. */
  const DotRadius: nat := 1

  /** One drawing operation, with the context colour and width it used. */
  datatype Draw =
    | FillPolygon(fill: Color, points: seq<Point>)
    | Line(stroke: Color, width: nat, from: Point, to: Point)
    | FillCircle(fill: Color, center: Point, radius: nat)

  /** `graphics_context_set_stroke_width` takes a `uint8_t`. */
  function StrokeWidth(width: int): (w: nat)
    ensures w < 0x100
  {
    width % 0x100
  }

  /**
   * The stroke width a context holds after `graphics_context_set_stroke_width`:
   * the SDK ignores a width of zero and keeps the one it had.
   */
  function WidthAfterSet(current: nat, w: int): (r: nat)
    ensures StrokeWidth(w) == 0 ==> r == current
    ensures StrokeWidth(w) != 0 ==> r == StrokeWidth(w)
    ensures current > 0 ==> r > 0
  {
    if StrokeWidth(w) == 0 then current else StrokeWidth(w)
  }

  /**
   * The operations one redraw performs, in order, on a context whose stroke
   * width is `width0` when the redraw begins.
   */
  function HandsDraws(trig: TrigLookup, cfg: Config, width0: nat, hour: Hour, minute: Minute, center: Point): (draws: seq<Draw>)
    ensures |draws| == 6
    ensures draws[0].FillPolygon? && draws[1].FillPolygon? && draws[2].FillPolygon?
    ensures draws[3].Line? && draws[4].Line? && draws[5].FillCircle?
    ensures |draws[0].points| == |draws[1].points| == |draws[2].points| == FanPointCount
    ensures draws[0].points[4] == draws[1].points[4] == draws[2].points[4] == center
    ensures draws[3].from == center && draws[4].from == center
    ensures draws[5] == FillCircle(White, center, DotRadius)
    ensures width0 > 0 ==> draws[3].width > 0 && draws[4].width > 0
  {
    var s, l := ShortAngle(hour, minute), LongAngle(minute);
    var o := OverlapFan(s, l);
    var w1 := WidthAfterSet(width0, cfg.short.width);
    var w2 := WidthAfterSet(w1, cfg.long.width);
    var shortFan, longFan := FanPoints(trig, s, HalfRatio, center), FanPoints(trig, l, HalfRatio, center);
    var overlapFan := FanPoints(trig, o.start, o.width, center);
    var shortTip, longTip := HandsEnd(trig, s, cfg.short.length, center), HandsEnd(trig, l, cfg.long.length, center);
    [ FillPolygon(cfg.short.fill, shortFan),
      FillPolygon(cfg.long.fill, longFan),
      FillPolygon(cfg.overlapFill, overlapFan),
      Line(cfg.short.stroke, w1, center, shortTip),
      Line(cfg.long.stroke, w2, center, longTip),
      FillCircle(White, center, DotRadius) ]
  }

  /**
   * The fans come first, hour then minute then overlap, so the overlap fan is
   * painted over both; at every time but 6:00, 7:05, 18:00 and 19:05 its arc
   * is exactly the part of the dial both hand fans cover.
   */
  lemma OverlapPaintedOverCommonPart(trig: TrigLookup, cfg: Config, width0: nat, hour: Hour, minute: Minute, center: Point)
    requires !((hour % 12 == 6 && minute == 0) || (hour % 12 == 7 && minute == 5))
    ensures var draws := HandsDraws(trig, cfg, width0, hour, minute, center);
      var s, l := ShortAngle(hour, minute), LongAngle(minute);
      var f := OverlapFan(s, l);
      && draws[0] == FillPolygon(cfg.short.fill, FanPoints(trig, s, HalfRatio, center))
      && draws[1] == FillPolygon(cfg.long.fill, FanPoints(trig, l, HalfRatio, center))
      && draws[2] == FillPolygon(cfg.overlapFill, FanPoints(trig, f.start, f.width, center))
      && forall p :: OnArc(p, f.start, f.width) <==> OnBothFans(p, s, l)
  {
    var s, l := ShortAngle(hour, minute), LongAngle(minute);
    BoundaryTimes(hour, minute);
    OverlapFanIsIntersection(s, l);
  }

  /**
   * With the settings `init` loads, the hour hand's line is 8 wide and the
   * minute hand's 4, whatever width the context held before the redraw.
   */
  lemma SettingsLineWidths(trig: TrigLookup, width0: nat, hour: Hour, minute: Minute, center: Point)
    ensures var draws := HandsDraws(trig, Settings(), width0, hour, minute, center);
      draws[3].width == 8 && draws[4].width == 4
  {
    var cfg := Settings();
    assert WidthAfterSet(width0, cfg.short.width) == 8;
    assert WidthAfterSet(8, cfg.long.width) == 4;
  }

  /**
   * With lookups within their full scale, hands no longer than a fan's radius
   * and a centre far enough from the edge of the 16-bit range, everything the
   * redraw draws lies within `FanRadius` of the centre along each axis.
   */
  lemma DrawsWithinFanRadius(trig: TrigLookup, cfg: Config, width0: nat, hour: Hour, minute: Minute, center: Point)
    requires Bounded(trig)
    requires cfg.short.length <= FanRadius && cfg.long.length <= FanRadius
    requires -0x8000 + FanRadius <= center.x < 0x8000 - FanRadius
    requires -0x8000 + FanRadius <= center.y < 0x8000 - FanRadius
    ensures var draws := HandsDraws(trig, cfg, width0, hour, minute, center);
      && (forall i, j :: 0 <= i < 3 && 0 <= j < |draws[i].points| ==> Within(draws[i].points[j], center, FanRadius))
      && Within(draws[3].to, center, FanRadius) && Within(draws[4].to, center, FanRadius)
  {
    var s, l := ShortAngle(hour, minute), LongAngle(minute);
    var f := OverlapFan(s, l);
    FanWithinRadius(trig, s, HalfRatio, center);
    FanWithinRadius(trig, l, HalfRatio, center);
    FanWithinRadius(trig, f.start, f.width, center);
    HandsEndWithinLength(trig, s, cfg.short.length, center);
    HandsEndWithinLength(trig, l, cfg.long.length, center);
  }

  /** The drawing state of a `GContext` and everything drawn on it so far. */
  class GContext {
    var strokeColor: Color
    var fillColor: Color
    var strokeWidth: nat
    var drawn: seq<Draw>

    /** `graphics_context_set_stroke_color` */
    method SetStrokeColor(c: Color)
      modifies this
      ensures strokeColor == c
      ensures fillColor == old(fillColor) && strokeWidth == old(strokeWidth) && drawn == old(drawn)
    {
      strokeColor := c;
    }

    /** `graphics_context_set_fill_color` */
    method SetFillColor(c: Color)
      modifies this
      ensures fillColor == c
      ensures strokeColor == old(strokeColor) && strokeWidth == old(strokeWidth) && drawn == old(drawn)
    {
      fillColor := c;
    }

    /**
     * `graphics_context_set_stroke_width`, whose parameter is a `uint8_t`; a
     * width of zero is ignored.
     */
    method SetStrokeWidth(w: int)
      modifies this
      ensures strokeWidth == WidthAfterSet(old(strokeWidth), w)
      ensures strokeColor == old(strokeColor) && fillColor == old(fillColor) && drawn == old(drawn)
    {
      if StrokeWidth(w) != 0 {
        strokeWidth := StrokeWidth(w);
      }
    }

    /** `gpath_create`, `gpath_draw_filled` and `gpath_destroy` on a path: fills its current points. */
    method FillPath(path: PathInfo)
      modifies this
      ensures drawn == old(drawn) + [FillPolygon(fillColor, path.points[..])]
      ensures strokeColor == old(strokeColor) && fillColor == old(fillColor) && strokeWidth == old(strokeWidth)
    {
      drawn := drawn + [FillPolygon(fillColor, path.points[..])];
    }

    /** `graphics_draw_line` */
    method DrawLine(from: Point, to: Point)
      modifies this
      ensures drawn == old(drawn) + [Line(strokeColor, strokeWidth, from, to)]
      ensures strokeColor == old(strokeColor) && fillColor == old(fillColor) && strokeWidth == old(strokeWidth)
    {
      drawn := drawn + [Line(strokeColor, strokeWidth, from, to)];
    }

    /** `graphics_fill_circle` */
    method FillCircle(c: Point, radius: nat)
      modifies this
      ensures drawn == old(drawn) + [Draw.FillCircle(fillColor, c, radius)]
      ensures strokeColor == old(strokeColor) && fillColor == old(fillColor) && strokeWidth == old(strokeWidth)
    {
      drawn := drawn + [Draw.FillCircle(fillColor, c, radius)];
    }
  }

  /**
   * One fan of `hands_update_proc`: `calculate_fan_path` into the shared
   * buffer, then `gpath_create`, `gpath_draw_filled` and `gpath_destroy`.
   */
  method DrawFan(ctx: GContext, pathInfo: PathInfo, trig: TrigLookup, start: uint32, width: uint32, center: Point)
    requires pathInfo.Valid()
    modifies ctx, pathInfo.points
    ensures pathInfo.Valid()
    ensures pathInfo.points[..] == FanPoints(trig, start, width, center)
    ensures ctx.drawn == old(ctx.drawn) + [FillPolygon(ctx.fillColor, FanPoints(trig, start, width, center))]
    ensures ctx.strokeColor == old(ctx.strokeColor) && ctx.fillColor == old(ctx.fillColor)
    ensures ctx.strokeWidth == old(ctx.strokeWidth)
  {
    pathInfo.Calculate(trig, start, width, center);
    ctx.FillPath(pathInfo);
  }

  /**
   * The overlap fan's placement as `hands_update_proc` computes it, with
   * `angle_delta` and the case split on its sign.
   */
  method PlaceOverlapFan(shortAngle: uint32, longAngle: uint32) returns (start: uint32, width: uint32)
    ensures Fan(start, width) == OverlapFan(shortAngle, longAngle)
  {
    var deltaAngle := AngleDelta(shortAngle, longAngle);
    var half: int32 := TrigMaxRatio / 2;
    if -half < deltaAngle && deltaAngle < 0 {
      start, width := longAngle, Wrap32(deltaAngle + half);
    } else {
      start, width := shortAngle, Wrap32(half - deltaAngle);
    }
  }

  /**
   * `hands_update_proc`: one redraw. It appends exactly `HandsDraws` to what
   * the context has drawn and leaves the context with the minute hand's
   * stroke colour and line width (the dot's zero width is ignored) and the
   * dot's white fill.
   */
  method HandsUpdateProc(ctx: GContext, trig: TrigLookup, cfg: Config, hour: Hour, minute: Minute, center: Point)
    modifies ctx
    ensures ctx.drawn == old(ctx.drawn) + HandsDraws(trig, cfg, old(ctx.strokeWidth), hour, minute, center)
    ensures ctx.strokeColor == cfg.long.stroke && ctx.fillColor == White
    ensures ctx.strokeWidth == HandsDraws(trig, cfg, old(ctx.strokeWidth), hour, minute, center)[4].width
  {
    var shortAngle := ShortAngle(hour, minute);
    var longAngle := LongAngle(minute);
    var pathInfo := new PathInfo.Generate();

    // Short fan
    ctx.SetStrokeColor(Clear);
    ctx.SetFillColor(cfg.short.fill);
    DrawFan(ctx, pathInfo, trig, shortAngle, TrigMaxRatio / 2, center);

    // Long fan
    ctx.SetFillColor(cfg.long.fill);
    DrawFan(ctx, pathInfo, trig, longAngle, TrigMaxRatio / 2, center);

    // Overlap fan
    ctx.SetFillColor(cfg.overlapFill);
    var overlapStart, overlapWidth := PlaceOverlapFan(shortAngle, longAngle);
    DrawFan(ctx, pathInfo, trig, overlapStart, overlapWidth, center);

    // Short hand
    ctx.SetStrokeColor(cfg.short.stroke);
    ctx.SetStrokeWidth(cfg.short.width);
    ctx.DrawLine(center, HandsEnd(trig, shortAngle, cfg.short.length, center));

    // Long hand
    ctx.SetStrokeColor(cfg.long.stroke);
    ctx.SetStrokeWidth(cfg.long.width);
    ctx.DrawLine(center, HandsEnd(trig, longAngle, cfg.long.length, center));

    // Dot
    ctx.SetStrokeWidth(0);
    ctx.SetFillColor(White);
    ctx.FillCircle(center, DotRadius);
    AppendEach(old(ctx.drawn), HandsDraws(trig, cfg, old(ctx.strokeWidth), hour, minute, center));
  }

  /** Appending six draws one at a time appends the list of them. */
  lemma AppendEach(before: seq<Draw>, draws: seq<Draw>)
    requires |draws| == 6
    ensures before + [draws[0]] + [draws[1]] + [draws[2]] + [draws[3]] + [draws[4]] + [draws[5]]
         == before + draws
  {
    assert draws == [draws[0], draws[1], draws[2], draws[3], draws[4], draws[5]];
  }
}
