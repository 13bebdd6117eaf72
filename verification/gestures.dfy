/**
 * The press / drag / release handlers of the rectangle and circle tools.
 * Both tools share one controller state: the drag corners, the `isDrawing`
 * flag and the circle under construction. The three fill choices are one
 * `FillPattern` parameter rather than three copies of the handlers. A
 * release returns what is stroked onto the canvas; the previews drawn on
 * the overlay canvas while dragging are not modelled.
 */
module Gestures {
  import opened Wrappers
  import opened Numeric
  import opened Raster
  import opened Geometry
  import opened CircleShapes
  import opened Patterns

  datatype DrawState = DrawState(startX: real, startY: real, endX: real, endY: real,
                                 isDrawing: bool, currentCircle: Option<CircleShape>)

  /** Java's field defaults when the controller is created. */
  const INITIAL: DrawState := DrawState(0.0, 0.0, 0.0, 0.0, false, None)

  // ---------------------------------------------------------------- rectangle

  function RectPress(s: DrawState, x: real, y: real): (s': DrawState)
    ensures s'.isDrawing
    ensures s'.startX == s'.endX == x && s'.startY == s'.endY == y
    ensures s'.currentCircle == s.currentCircle
  {
    s.(startX := x, startY := y, endX := x, endY := y, isDrawing := true)
  }

  /** A drag moves the end corner, but only while a rectangle is being drawn. */
  function RectDrag(s: DrawState, x: real, y: real): (s': DrawState)
    ensures s.isDrawing ==> s' == s.(endX := x, endY := y)
    ensures !s.isDrawing ==> s' == s
  {
    if s.isDrawing then s.(endX := x, endY := y) else s
  }

  /** What a rectangle release strokes: the outline, then the hatch lines. */
  datatype RectDrawing = RectDrawing(outline: Rect, hatch: seq<Segment>)

  /** Horizontal hatching: full-width lines at the rows `HorizontalLinePositions` picks. */
  function HorizontalHatch(x1: real, y1: real, x2: real, y2: real): (r: seq<Segment>)
    ensures var ys := HorizontalLinePositions(y1, y2);
      && |r| == |ys|
      && forall k :: 0 <= k < |r| ==> r[k] == Segment(x1, ys[k], x2, ys[k])
  {
    var ys := HorizontalLinePositions(y1, y2);
    seq(|ys|, k requires 0 <= k < |ys| => Segment(x1, ys[k], x2, ys[k]))
  }

  /** Vertical hatching: full-height lines at the columns `VerticalLinePositions` picks. */
  function VerticalHatch(x1: real, y1: real, x2: real, y2: real): (r: seq<Segment>)
    ensures var xs := VerticalLinePositions(x1, x2);
      && |r| == |xs|
      && forall k :: 0 <= k < |r| ==> r[k] == Segment(xs[k], y1, xs[k], y2)
  {
    var xs := VerticalLinePositions(x1, x2);
    seq(|xs|, k requires 0 <= k < |xs| => Segment(xs[k], y1, xs[k], y2))
  }

  /**
   * The hatch lines of a released rectangle. Horizontal hatching is given the
   * raw drag corners; vertical hatching is given the normalised corners.
   */
  function RectHatch(pattern: FillPattern, s: DrawState): seq<Segment> {
    match pattern
    case NoFill => []
    case Horizontal => HorizontalHatch(s.startX, s.startY, s.endX, s.endY)
    case Vertical =>
      var r := FromCorners(s.startX, s.startY, s.endX, s.endY);
      VerticalHatch(r.x, r.y, r.Right(), r.Bottom())
  }

  /** Releasing the mouse ends the gesture and strokes the rectangle, if one was being drawn. */
  function RectRelease(s: DrawState, pattern: FillPattern): (res: (DrawState, Option<RectDrawing>))
    ensures !s.isDrawing ==> res == (s, None)
    ensures s.isDrawing ==> && res.0 == s.(isDrawing := false)
                            && res.1.Some?
                            && res.1.value.outline == FromCorners(s.startX, s.startY, s.endX, s.endY)
                            && res.1.value.hatch == RectHatch(pattern, s)
  {
    if s.isDrawing then
      (s.(isDrawing := false),
       Some(RectDrawing(FromCorners(s.startX, s.startY, s.endX, s.endY), RectHatch(pattern, s))))
    else
      (s, None)
  }

  /**
   * Every hatch line lies inside the outline: both its ends are in the
   * rectangle, horizontal lines are horizontal and span its full width,
   * and vertical lines are vertical and span its full height.
   */
  lemma HatchInsideOutline(s: DrawState, pattern: FillPattern)
    ensures var r := FromCorners(s.startX, s.startY, s.endX, s.endY);
      forall seg :: seg in RectHatch(pattern, s) ==>
        && r.Contains(seg.x1, seg.y1) && r.Contains(seg.x2, seg.y2)
        && (pattern == Horizontal ==> seg.y1 == seg.y2 && Abs(seg.x2 - seg.x1) == r.width)
        && (pattern == Vertical ==> seg.x1 == seg.x2 && Abs(seg.y2 - seg.y1) == r.height)
  {
    var r := FromCorners(s.startX, s.startY, s.endX, s.endY);
    var hatch := RectHatch(pattern, s);
    forall seg | seg in hatch
      ensures && r.Contains(seg.x1, seg.y1) && r.Contains(seg.x2, seg.y2)
              && (pattern == Horizontal ==> seg.y1 == seg.y2 && Abs(seg.x2 - seg.x1) == r.width)
              && (pattern == Vertical ==> seg.x1 == seg.x2 && Abs(seg.y2 - seg.y1) == r.height)
    {
      var k :| 0 <= k < |hatch| && hatch[k] == seg;
      if pattern == Horizontal {
        var ys := HorizontalLinePositions(s.startY, s.endY);
        assert seg == Segment(s.startX, ys[k], s.endX, ys[k]);
      } else if pattern == Vertical {
        var xs := VerticalLinePositions(r.x, r.Right());
        assert seg == Segment(xs[k], r.y, xs[k], r.Bottom());
      }
    }
  }

  /** A click without a drag strokes a zero-size rectangle at the click and no hatch lines. */
  lemma ClickWithoutDragDrawsAPoint(s: DrawState, x: real, y: real, pattern: FillPattern)
    ensures var res := RectRelease(RectPress(s, x, y), pattern);
      && res.1.Some?
      && res.1.value.outline == Rect(x, y, 0.0, 0.0)
      && res.1.value.hatch == []
  {
    var s' := RectPress(s, x, y);
    if pattern == Vertical {
      assert VerticalLinePositions(x, x) == [];
    }
  }

  // ------------------------------------------------------------------- circle

  /** A press starts a circle of radius 0 at the press point. */
  function CirclePress(s: DrawState, x: real, y: real, color: RGB, pattern: FillPattern): (s': DrawState)
    ensures s'.isDrawing && s'.currentCircle == Some(CircleShape(x, y, 0.0, color, pattern))
    // The rectangle tool's fields are left alone.
    ensures s' == s.(isDrawing := true, currentCircle := Some(CircleShape(x, y, 0.0, color, pattern)))
  {
    s.(isDrawing := true, currentCircle := Some(CircleShape(x, y, 0.0, color, pattern)))
  }

  /** A drag resizes the circle to the Chebyshev distance from its centre to the mouse. */
  function CircleDrag(s: DrawState, x: real, y: real): (s': DrawState)
    ensures s.isDrawing && s.currentCircle.Some? ==>
              var c := s.currentCircle.value;
              s' == s.(currentCircle := Some(SetRadius(c, DragRadius(c.centerX, c.centerY, x, y))))
    ensures !(s.isDrawing && s.currentCircle.Some?) ==> s' == s
  {
    if s.isDrawing && s.currentCircle.Some? then
      var c := s.currentCircle.value;
      s.(currentCircle := Some(SetRadius(c, DragRadius(c.centerX, c.centerY, x, y))))
    else
      s
  }

  /** What a circle release strokes: the outline circle and the hatch pixels. */
  datatype CircleDrawing = CircleDrawing(circle: CircleShape, hatch: seq<Point>)

  /** The state after a circle release: drawing stops and the radius is clamped at 0. */
  function CircleReleaseState(s: DrawState): (s': DrawState)
    ensures s.isDrawing && s.currentCircle.Some? ==>
              && !s'.isDrawing && s'.currentCircle.Some?
              && s'.currentCircle.value == SetRadius(s.currentCircle.value, Max(0.0, s.currentCircle.value.radius))
    // Nothing else changes, the rectangle tool's fields included.
    ensures s.isDrawing && s.currentCircle.Some? ==>
              var c := s.currentCircle.value;
              s' == s.(isDrawing := false, currentCircle := Some(SetRadius(c, Max(0.0, c.radius))))
    ensures !(s.isDrawing && s.currentCircle.Some?) ==> s' == s
  {
    if s.isDrawing && s.currentCircle.Some? then
      var c := s.currentCircle.value;
      s.(isDrawing := false, currentCircle := Some(SetRadius(c, Max(0.0, c.radius))))
    else
      s
  }

  /**
   * What a circle release strokes. `snapshot` is the canvas as it looks once
   * the outline is drawn; the hatching reads it to skip pixels that already
   * have the line colour.
   */
  function CircleRelease(s: DrawState, snapshot: Image): (d: Option<CircleDrawing>)
    requires snapshot.Valid()
    ensures d.Some? <==> s.isDrawing && s.currentCircle.Some?
    ensures d.Some? ==> && d.value.circle == CircleReleaseState(s).currentCircle.value
                        && d.value.circle.radius >= 0.0
    ensures d.Some? ==> var c := d.value.circle;
              forall p :: p in d.value.hatch <==>
                HatchPixel(snapshot, c.centerX, c.centerY, c.radius, c.color, c.fillType, p)
  {
    if s.isDrawing && s.currentCircle.Some? then
      var c := CircleReleaseState(s).currentCircle.value;
      Some(CircleDrawing(c, CircleHatch(snapshot, c.centerX, c.centerY, c.radius, c.color, c.fillType)))
    else
      None
  }

  // ---------------------------------------------------------------- sequences

  /** The mouse events the two tools react to; the snapshot only matters for the drawing. */
  datatype Event =
    | RectPressed(x: real, y: real)
    | RectDragged(x: real, y: real)
    | RectReleased(pattern: FillPattern)
    | CirclePressed(x: real, y: real, color: RGB, pattern: FillPattern)
    | CircleDragged(x: real, y: real)
    | CircleReleased

  function Step(s: DrawState, e: Event): DrawState {
    match e
    case RectPressed(x, y) => RectPress(s, x, y)
    case RectDragged(x, y) => RectDrag(s, x, y)
    case RectReleased(pattern) => RectRelease(s, pattern).0
    case CirclePressed(x, y, color, pattern) => CirclePress(s, x, y, color, pattern)
    case CircleDragged(x, y) => CircleDrag(s, x, y)
    case CircleReleased => CircleReleaseState(s)
  }

  function Run(s: DrawState, events: seq<Event>): DrawState
    decreases |events|
  {
    if |events| == 0 then s else Run(Step(s, events[0]), events[1..])
  }

  /** No circle under construction has a negative radius. */
  predicate RadiusNonNegative(s: DrawState) {
    s.currentCircle.Some? ==> s.currentCircle.value.radius >= 0.0
  }

  /**
   * From the initial state, whatever events arrive, the circle's radius is
   * never negative, so the clamp at release never changes it.
   */
  lemma {:induction false} ReleaseClampNeverFires(events: seq<Event>)
    ensures RadiusNonNegative(Run(INITIAL, events))
    ensures var s := Run(INITIAL, events);
      s.currentCircle.Some? ==> Max(0.0, s.currentCircle.value.radius) == s.currentCircle.value.radius
  {
    RunKeepsRadiusNonNegative(INITIAL, events);
  }

  lemma {:induction false} RunKeepsRadiusNonNegative(s: DrawState, events: seq<Event>)
    requires RadiusNonNegative(s)
    ensures RadiusNonNegative(Run(s, events))
    decreases |events|
  {
    if |events| > 0 {
      RunKeepsRadiusNonNegative(Step(s, events[0]), events[1..]);
    }
  }
}
