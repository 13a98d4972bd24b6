/** The stepped connector: one logical edge between two points becomes either
    one straight segment (when the two ends are within a pixel of each other on
    the cross axis) or three axis-aligned segments meeting on a midline. All
    inputs are rounded to whole pixels before anything else is computed. */
module SteppedLine {
  import opened Wrappers
  import opened JsNumbers

  /** One straight segment handed to the segment primitive: from (x0, y0) to (x1, y1). */
  datatype Segment = Segment(x0: real, y0: real, x1: real, y1: real)

  datatype Orientation = Horizontal | Vertical

  const DEFAULT_BORDER_WIDTH: real := 1.0

  function Min(a: int, b: int): int { if a <= b then a else b }

  function Max(a: int, b: int): int { if a <= b then b else a }

  predicate IsIntegral(r: real) {
    r == r.Floor as real
  }

  /** `borderWidth || defaultBorderWidth`: an absent width, and a width of 0
      (which is falsy), both become 1; any other width is kept, negative ones
      included. */
  function BorderWidth(borderWidth: Option<real>): (bw: real)
    ensures bw != 0.0
    ensures borderWidth.Some? && borderWidth.value != 0.0 ==> bw == borderWidth.value
    ensures borderWidth.None? || borderWidth.value == 0.0 ==> bw == DEFAULT_BORDER_WIDTH
  {
    if borderWidth.None? || borderWidth.value == 0.0 then DEFAULT_BORDER_WIDTH else borderWidth.value
  }

  /** The orientation property defaults to "h"; every other value is vertical. */
  function OrientationOf(orientation: Option<string>): (o: Orientation)
    ensures o == Horizontal <==> orientation == None || orientation == Some("h")
  {
    var name := if orientation.None? then "h" else orientation.value;
    if name == "h" then Horizontal else Vertical
  }

  /** `Math.abs(d) <= 1`: the two ends are aligned on the cross axis. */
  predicate Collapsed(d: int) {
    -1 <= d <= 1
  }

  /** `m` is a whole pixel and the upper middle of `a` and `b`. */
  predicate IsMidline(m: real, a: int, b: int) {
    IsIntegral(m) && (2 * m.Floor == a + b || 2 * m.Floor == a + b + 1)
  }

  /** Vertical orientation: from the start along y to the midline, from the end
      along y to the midline, and along the midline across both x positions,
      extended by `off` on the low side. */
  predicate IsVerticalStep(segs: seq<Segment>, rx0: int, ry0: int, rx1: int, ry1: int, off: real) {
    |segs| == 3 &&
    var m := segs[2].y0;
    IsMidline(m, ry0, ry1) &&
    segs[0] == Segment(rx0 as real, ry0 as real, rx0 as real, m) &&
    segs[1] == Segment(rx1 as real, ry1 as real, rx1 as real, m) &&
    segs[2] == Segment(Min(rx0, rx1) as real - off, m, Max(rx0, rx1) as real, m)
  }

  /** Horizontal orientation: the same shape with the axes exchanged. */
  predicate IsHorizontalStep(segs: seq<Segment>, rx0: int, ry0: int, rx1: int, ry1: int, off: real) {
    |segs| == 3 &&
    var m := segs[2].x0;
    IsMidline(m, rx0, rx1) &&
    segs[0] == Segment(rx0 as real, ry0 as real, m, ry0 as real) &&
    segs[1] == Segment(rx1 as real, ry1 as real, m, ry1 as real) &&
    segs[2] == Segment(m, Min(ry0, ry1) as real - off, m, Max(ry0, ry1) as real)
  }

  /** `renderVertical`. The border-width offset is applied only when moving
      right (dx > 0). */
  function RenderVertical(x0: real, y0: real, x1: real, y1: real, borderWidth: Option<real>): (segs: seq<Segment>)
    ensures var rx0, ry0, rx1, ry1 := Round(x0), Round(y0), Round(x1), Round(y1);
      if Collapsed(rx1 - rx0) then
        segs == [Segment(rx0 as real, ry0 as real, rx0 as real, ry1 as real)]
      else
        IsVerticalStep(segs, rx0, ry0, rx1, ry1, if rx1 - rx0 > 0 then BorderWidth(borderWidth) else 0.0)
  {
    var rx0, ry0, rx1, ry1 := Round(x0), Round(y0), Round(x1), Round(y1);
    var dx := rx1 - rx0;
    if Collapsed(dx) then
      [Segment(rx0 as real, ry0 as real, rx0 as real, ry1 as real)]
    else
      var bw := BorderWidth(borderWidth);
      var y2 := Round((ry0 + ry1) as real / 2.0);
      RoundHalf(ry0, ry1);
      var xOffset := if dx > 0 then bw else 0.0;
      var minX := Min(rx0, rx1) as real - xOffset;
      var maxX := Max(rx0, rx1) as real;
      [ Segment(rx0 as real, ry0 as real, rx0 as real, y2 as real),
        Segment(rx1 as real, ry1 as real, rx1 as real, y2 as real),
        Segment(minX, y2 as real, maxX, y2 as real) ]
  }

  /** `renderHorizontal`. The border-width offset is applied only when moving
      up (dy < 0). */
  function RenderHorizontal(x0: real, y0: real, x1: real, y1: real, borderWidth: Option<real>): (segs: seq<Segment>)
    ensures var rx0, ry0, rx1, ry1 := Round(x0), Round(y0), Round(x1), Round(y1);
      if Collapsed(ry1 - ry0) then
        segs == [Segment(rx0 as real, ry0 as real, rx1 as real, ry0 as real)]
      else
        IsHorizontalStep(segs, rx0, ry0, rx1, ry1, if ry1 - ry0 < 0 then BorderWidth(borderWidth) else 0.0)
  {
    var rx0, ry0, rx1, ry1 := Round(x0), Round(y0), Round(x1), Round(y1);
    var dy := ry1 - ry0;
    if Collapsed(dy) then
      [Segment(rx0 as real, ry0 as real, rx1 as real, ry0 as real)]
    else
      var bw := BorderWidth(borderWidth);
      var x2 := Round((rx0 + rx1) as real / 2.0);
      RoundHalf(rx0, rx1);
      var yOffset := if dy < 0 then bw else 0.0;
      var minY := Min(ry0, ry1) as real - yOffset;
      var maxY := Max(ry0, ry1) as real;
      [ Segment(rx0 as real, ry0 as real, x2 as real, ry0 as real),
        Segment(rx1 as real, ry1 as real, x2 as real, ry1 as real),
        Segment(x2 as real, minY, x2 as real, maxY) ]
  }

  /** The `SteppedLine` component: one or three segments; the first starts at
      the rounded start point and runs along the chosen orientation. */
  function Render(x0: real, y0: real, x1: real, y1: real, orientation: Option<string>, borderWidth: Option<real>): (segs: seq<Segment>)
    ensures |segs| == 1 || |segs| == 3
    ensures segs[0].x0 == Round(x0) as real && segs[0].y0 == Round(y0) as real
    ensures OrientationOf(orientation) == Horizontal ==> segs[0].y1 == segs[0].y0
    ensures OrientationOf(orientation) == Vertical ==> segs[0].x1 == segs[0].x0
  {
    if OrientationOf(orientation) == Horizontal then RenderHorizontal(x0, y0, x1, y1, borderWidth)
    else RenderVertical(x0, y0, x1, y1, borderWidth)
  }

  predicate InBox(s: Segment, left: real, top: real, right: real, bottom: real) {
    left <= s.x0 <= right && left <= s.x1 <= right && top <= s.y0 <= bottom && top <= s.y1 <= bottom
  }

  predicate OnPixels(s: Segment) {
    IsIntegral(s.x0) && IsIntegral(s.y0) && IsIntegral(s.x1) && IsIntegral(s.y1)
  }

  predicate NonNegativeWidth(borderWidth: Option<real>) {
    borderWidth.None? || borderWidth.value >= 0.0
  }

  predicate IntegralWidth(borderWidth: Option<real>) {
    borderWidth.None? || IsIntegral(borderWidth.value)
  }

  /** In a vertical step path both outer segments end on the midline inside the
      span of the connecting segment, so the three segments join without a gap,
      provided the border width is not negative. */
  lemma VerticalJointsMeet(x0: real, y0: real, x1: real, y1: real, borderWidth: Option<real>)
    requires NonNegativeWidth(borderWidth)
    ensures var segs := RenderVertical(x0, y0, x1, y1, borderWidth);
      |segs| == 3 ==>
        segs[0].y1 == segs[1].y1 == segs[2].y0 == segs[2].y1 &&
        segs[2].x0 <= segs[0].x1 <= segs[2].x1 &&
        segs[2].x0 <= segs[1].x1 <= segs[2].x1
  {
  }

  /** The horizontal counterpart of `VerticalJointsMeet`. */
  lemma HorizontalJointsMeet(x0: real, y0: real, x1: real, y1: real, borderWidth: Option<real>)
    requires NonNegativeWidth(borderWidth)
    ensures var segs := RenderHorizontal(x0, y0, x1, y1, borderWidth);
      |segs| == 3 ==>
        segs[0].x1 == segs[1].x1 == segs[2].x0 == segs[2].x1 &&
        segs[2].y0 <= segs[0].y1 <= segs[2].y1 &&
        segs[2].y0 <= segs[1].y1 <= segs[2].y1
  {
  }

  /** A negative border width is truthy, so it is used as the offset, and the
      connecting segment then stops short of the start's vertical segment. */
  lemma NegativeWidthLeavesGap()
    ensures var segs := RenderVertical(0.0, 0.0, 10.0, 10.0, Some(-3.0));
      |segs| == 3 && segs[2].x0 == 3.0 && segs[0].x1 == 0.0 && segs[0].x1 < segs[2].x0
  {
  }

  /** The vertical path stays inside the bounding box of the rounded end points,
      widened by the border width on the left when moving right. */
  lemma VerticalBoundingBox(x0: real, y0: real, x1: real, y1: real, borderWidth: Option<real>)
    requires NonNegativeWidth(borderWidth)
    ensures var rx0, ry0, rx1, ry1 := Round(x0), Round(y0), Round(x1), Round(y1);
      var off := if rx1 - rx0 > 1 then BorderWidth(borderWidth) else 0.0;
      var segs := RenderVertical(x0, y0, x1, y1, borderWidth);
      forall i :: 0 <= i < |segs| ==>
        InBox(segs[i], Min(rx0, rx1) as real - off, Min(ry0, ry1) as real, Max(rx0, rx1) as real, Max(ry0, ry1) as real)
  {
    var ry0, ry1 := Round(y0), Round(y1);
    RoundHalf(ry0, ry1);
  }

  /** The horizontal path stays inside the bounding box of the rounded end
      points, widened by the border width at the top when moving up. */
  lemma HorizontalBoundingBox(x0: real, y0: real, x1: real, y1: real, borderWidth: Option<real>)
    requires NonNegativeWidth(borderWidth)
    ensures var rx0, ry0, rx1, ry1 := Round(x0), Round(y0), Round(x1), Round(y1);
      var off := if ry1 - ry0 < -1 then BorderWidth(borderWidth) else 0.0;
      var segs := RenderHorizontal(x0, y0, x1, y1, borderWidth);
      forall i :: 0 <= i < |segs| ==>
        InBox(segs[i], Min(rx0, rx1) as real, Min(ry0, ry1) as real - off, Max(rx0, rx1) as real, Max(ry0, ry1) as real)
  {
    var rx0, rx1 := Round(x0), Round(x1);
    RoundHalf(rx0, rx1);
  }

  /** Every coordinate of a vertical path is a whole pixel when the border width is. */
  lemma VerticalOnPixels(x0: real, y0: real, x1: real, y1: real, borderWidth: Option<real>)
    requires IntegralWidth(borderWidth)
    ensures var segs := RenderVertical(x0, y0, x1, y1, borderWidth);
      forall i :: 0 <= i < |segs| ==> OnPixels(segs[i])
  {
    var segs := RenderVertical(x0, y0, x1, y1, borderWidth);
    if |segs| == 3 {
      var rx0, rx1 := Round(x0), Round(x1);
      var off := if rx1 - rx0 > 0 then BorderWidth(borderWidth) else 0.0;
      assert IsIntegral(off);
      assert segs[2].x0 == (Min(rx0, rx1) - off.Floor) as real;
    }
  }

  /** Every coordinate of a horizontal path is a whole pixel when the border width is. */
  lemma HorizontalOnPixels(x0: real, y0: real, x1: real, y1: real, borderWidth: Option<real>)
    requires IntegralWidth(borderWidth)
    ensures var segs := RenderHorizontal(x0, y0, x1, y1, borderWidth);
      forall i :: 0 <= i < |segs| ==> OnPixels(segs[i])
  {
    var segs := RenderHorizontal(x0, y0, x1, y1, borderWidth);
    if |segs| == 3 {
      var ry0, ry1 := Round(y0), Round(y1);
      var off := if ry1 - ry0 < 0 then BorderWidth(borderWidth) else 0.0;
      assert IsIntegral(off);
      assert segs[2].y0 == (Min(ry0, ry1) - off.Floor) as real;
    }
  }

  /** Only the rounded inputs matter: rounding first changes nothing. */
  lemma RoundedInputsOnly(x0: real, y0: real, x1: real, y1: real, borderWidth: Option<real>)
    ensures var rx0, ry0, rx1, ry1 := Round(x0) as real, Round(y0) as real, Round(x1) as real, Round(y1) as real;
      RenderVertical(rx0, ry0, rx1, ry1, borderWidth) == RenderVertical(x0, y0, x1, y1, borderWidth) &&
      RenderHorizontal(rx0, ry0, rx1, ry1, borderWidth) == RenderHorizontal(x0, y0, x1, y1, borderWidth)
  {
    RoundOfInt(Round(x0));
    RoundOfInt(Round(y0));
    RoundOfInt(Round(x1));
    RoundOfInt(Round(y1));
  }

  /** The vertical path starts at the rounded start point; it ends at the rounded
      end point, or, when collapsed, on the start's column at most one pixel
      away from it. */
  lemma VerticalEndpoints(x0: real, y0: real, x1: real, y1: real, borderWidth: Option<real>)
    ensures var rx0, ry0, rx1, ry1 := Round(x0), Round(y0), Round(x1), Round(y1);
      var segs := RenderVertical(x0, y0, x1, y1, borderWidth);
      segs[0].x0 == rx0 as real && segs[0].y0 == ry0 as real &&
      (|segs| == 3 ==> segs[1].x0 == rx1 as real && segs[1].y0 == ry1 as real) &&
      (|segs| == 1 ==> segs[0].y1 == ry1 as real && -1.0 <= segs[0].x1 - rx1 as real <= 1.0)
  {
  }

  /** The horizontal counterpart of `VerticalEndpoints`. */
  lemma HorizontalEndpoints(x0: real, y0: real, x1: real, y1: real, borderWidth: Option<real>)
    ensures var rx0, ry0, rx1, ry1 := Round(x0), Round(y0), Round(x1), Round(y1);
      var segs := RenderHorizontal(x0, y0, x1, y1, borderWidth);
      segs[0].x0 == rx0 as real && segs[0].y0 == ry0 as real &&
      (|segs| == 3 ==> segs[1].x0 == rx1 as real && segs[1].y0 == ry1 as real) &&
      (|segs| == 1 ==> segs[0].x1 == rx1 as real && -1.0 <= segs[0].y1 - ry1 as real <= 1.0)
  {
  }

  /** No orientation, or "h", means horizontal; any other value means vertical. */
  lemma OrientationDefault(x0: real, y0: real, x1: real, y1: real, o: string, borderWidth: Option<real>)
    ensures Render(x0, y0, x1, y1, None, borderWidth) == RenderHorizontal(x0, y0, x1, y1, borderWidth)
    ensures Render(x0, y0, x1, y1, Some("h"), borderWidth) == RenderHorizontal(x0, y0, x1, y1, borderWidth)
    ensures o != "h" ==> Render(x0, y0, x1, y1, Some(o), borderWidth) == RenderVertical(x0, y0, x1, y1, borderWidth)
  {
  }

  /** A vertical step from (0, 0) to (100, 100) with border width 2, and the
      collapsed case from (10, 0) to (11, 100). */
  lemma VerticalExamples()
    ensures RenderVertical(0.0, 0.0, 100.0, 100.0, Some(2.0)) ==
      [Segment(0.0, 0.0, 0.0, 50.0), Segment(100.0, 100.0, 100.0, 50.0), Segment(-2.0, 50.0, 100.0, 50.0)]
    ensures RenderVertical(10.0, 0.0, 11.0, 100.0, None) == [Segment(10.0, 0.0, 10.0, 100.0)]
  {
  }

  /** From (10, 20) to (20, 30) with border width 1 both orientations give three
      segments. */
  lemma ThreeSegmentExamples()
    ensures |Render(10.0, 20.0, 20.0, 30.0, Some("v"), Some(1.0))| == 3
    ensures |Render(10.0, 20.0, 20.0, 30.0, Some("h"), Some(1.0))| == 3
  {
  }
}
