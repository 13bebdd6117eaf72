/**
 * The zoom-selection tool. Picking it installs press, release and drag
 * handlers; a primary-button drag selects a rectangle, and the release
 * snapshots the canvas and draws the middle two thirds of the selection
 * blown up to fill the whole selection. Any release removes all three
 * handlers, so the tool acts once per activation.
 */
module Resize {
  import opened Wrappers
  import opened Numeric
  import opened Raster
  import opened Geometry

  /** Only the primary button starts and ends a selection. */
  datatype Button = Primary | OtherButton

  /** The zoom factor. */
  const SCALE: real := 1.5

  /**
   * The controller's fields, plus `installed`: whether the tool's three mouse
   * handlers are currently attached to the canvas.
   */
  datatype ZoomState = ZoomState(startX: real, startY: real, endX: real, endY: real,
                                 isSelecting: bool, shouldEnlarge: bool,
                                 originalImage: Option<Image>, installed: bool)

  /** Java's field defaults, before the tool is first picked. */
  const INITIAL: ZoomState := ZoomState(0.0, 0.0, 0.0, 0.0, false, false, None, false)

  /**
   * A `drawImage` call: either the `src` part of the snapshot stretched onto
   * `dst`, or the whole snapshot drawn over the whole canvas.
   */
  datatype DrawCall =
    | DrawRegion(src: Rect, dst: Rect)
    | DrawWhole

  // ------------------------------------------------------------------ geometry

  /**
   * The selection: the rectangle spanned by the press point and the current
   * end point, whichever way the drag went.
   */
  function Selection(s: ZoomState): (r: Rect)
    ensures {r.x, r.Right()} == {s.startX, s.endX} && {r.y, r.Bottom()} == {s.startY, s.endY}
    ensures r.x <= s.startX && r.x <= s.endX && r.y <= s.startY && r.y <= s.endY
    ensures r.width >= 0.0 && r.height >= 0.0
    ensures r.Contains(s.startX, s.startY) && r.Contains(s.endX, s.endY)
  {
    FromCorners(s.startX, s.startY, s.endX, s.endY)
  }

  /**
   * The part of the selection that is enlarged onto it: each side divided by
   * the zoom factor, with the left and top edges moved so the centre stays.
   */
  function EnlargeSource(sel: Rect): (src: Rect)
    ensures src.width * SCALE == sel.width && src.height * SCALE == sel.height
    // Same centre as the selection.
    ensures src.x + src.width / 2.0 == sel.x + sel.width / 2.0
    ensures src.y + src.height / 2.0 == sel.y + sel.height / 2.0
    // A selection of non-negative size contains its source.
    ensures sel.width >= 0.0 && sel.height >= 0.0 ==> sel.Encloses(src) && src.width <= sel.width
  {
    var scaledWidth := sel.width / SCALE;
    var scaledHeight := sel.height / SCALE;
    Rect(sel.x - (scaledWidth - sel.width) / 2.0, sel.y - (scaledHeight - sel.height) / 2.0,
         scaledWidth, scaledHeight)
  }

  /**
   * `redrawCanvas`: nothing while no snapshot is held; otherwise the enlarged
   * source onto the selection, or the whole snapshot when not enlarging.
   */
  function Redraw(s: ZoomState): (d: Option<DrawCall>)
    ensures d.None? <==> s.originalImage.None?
    ensures d.Some? && s.shouldEnlarge ==> d.value == DrawRegion(EnlargeSource(Selection(s)), Selection(s))
    ensures d.Some? && !s.shouldEnlarge ==> d.value == DrawWhole
  {
    if s.originalImage.None? then None
    else if s.shouldEnlarge then Some(DrawRegion(EnlargeSource(Selection(s)), Selection(s)))
    else Some(DrawWhole)
  }

  // ------------------------------------------------------------------ handlers

  /** Picking the tool attaches the handlers; the fields keep their old values. */
  function Install(s: ZoomState): (s': ZoomState)
    ensures s'.installed
    ensures s' == s.(installed := true)
  {
    s.(installed := true)
  }

  /** The press handler: drop the snapshot, and start a selection on a primary press. */
  function Press(s: ZoomState, button: Button, x: real, y: real): (s': ZoomState)
    ensures !s.installed ==> s' == s
    ensures s.installed ==> s'.originalImage.None? && s'.installed
    ensures s.installed && button == Primary ==>
              && s'.startX == x && s'.startY == y
              && s'.isSelecting && !s'.shouldEnlarge
              && s'.endX == s.endX && s'.endY == s.endY
    ensures s.installed && button != Primary ==> s' == s.(originalImage := None)
  {
    if !s.installed then s
    else
      var s1 := s.(originalImage := None);
      if button == Primary then s1.(startX := x, startY := y, isSelecting := true, shouldEnlarge := false)
      else s1
  }

  /**
   * The release handler: a primary release ends the selection, takes the
   * snapshot and redraws; every release detaches all three handlers.
   */
  function Release(s: ZoomState, button: Button, x: real, y: real, snapshot: Image): (res: (ZoomState, Option<DrawCall>))
    ensures !s.installed ==> res == (s, None)
    ensures s.installed ==> !res.0.installed
    ensures s.installed && button == Primary ==>
              && res.0.endX == x && res.0.endY == y
              && res.0.startX == s.startX && res.0.startY == s.startY
              && !res.0.isSelecting && res.0.shouldEnlarge
              && res.0.originalImage == Some(snapshot)
              && res.1 == Some(DrawRegion(EnlargeSource(Selection(res.0)), Selection(res.0)))
    ensures s.installed && button != Primary ==> res == (s.(installed := false), None)
  {
    if !s.installed then (s, None)
    else if button == Primary then
      var s1 := s.(endX := x, endY := y, isSelecting := false, shouldEnlarge := true,
                   originalImage := Some(snapshot));
      (s1.(installed := false), Redraw(s1))
    else
      (s.(installed := false), None)
  }

  /** The drag handler: while selecting, move the end point and redraw. */
  function Drag(s: ZoomState, x: real, y: real): (res: (ZoomState, Option<DrawCall>))
    ensures !(s.installed && s.isSelecting) ==> res == (s, None)
    ensures s.installed && s.isSelecting ==>
              && res.0 == s.(endX := x, endY := y)
              && res.1 == Redraw(res.0)
  {
    if s.installed && s.isSelecting then
      var s1 := s.(endX := x, endY := y);
      (s1, Redraw(s1))
    else
      (s, None)
  }

  // ------------------------------------------------------------------- traces

  datatype ZoomEvent =
    | Picked
    | Pressed(button: Button, x: real, y: real)
    | Released(button: Button, x: real, y: real, snapshot: Image)
    | Dragged(x: real, y: real)

  /** One event: the next state and the `drawImage` call it makes, if any. */
  function Step(s: ZoomState, e: ZoomEvent): (ZoomState, Option<DrawCall>) {
    match e
    case Picked => (Install(s), None)
    case Pressed(button, x, y) => (Press(s, button, x, y), None)
    case Released(button, x, y, snapshot) => Release(s, button, x, y, snapshot)
    case Dragged(x, y) => Drag(s, x, y)
  }

  /** The state after a sequence of events, and every `drawImage` call made on the way. */
  function Run(s: ZoomState, events: seq<ZoomEvent>): (ZoomState, seq<DrawCall>)
    decreases |events|
  {
    if |events| == 0 then (s, [])
    else
      var (s1, d) := Step(s, events[0]);
      var (s2, ds) := Run(s1, events[1..]);
      (s2, (if d.Some? then [d.value] else []) + ds)
  }

  /** A sequence of drag events. */
  function RunDrags(s: ZoomState, moves: seq<(real, real)>): (ZoomState, seq<DrawCall>)
    decreases |moves|
  {
    if |moves| == 0 then (s, [])
    else
      var (s1, d) := Drag(s, moves[0].0, moves[0].1);
      var (s2, ds) := RunDrags(s1, moves[1..]);
      (s2, (if d.Some? then [d.value] else []) + ds)
  }

  /**
   * After a press, dragging draws nothing: the press dropped the snapshot and
   * a drag never takes one.
   */
  lemma DragsAfterPressDrawNothing(s: ZoomState, button: Button, x: real, y: real, moves: seq<(real, real)>)
    ensures RunDrags(Press(s, button, x, y), moves).1 == []
  {
    DragsWithoutSnapshotDrawNothing(Press(s, button, x, y), moves);
  }

  lemma {:induction false} DragsWithoutSnapshotDrawNothing(s: ZoomState, moves: seq<(real, real)>)
    requires !s.installed || s.originalImage.None?
    ensures RunDrags(s, moves).1 == []
    decreases |moves|
  {
    if |moves| > 0 {
      DragsWithoutSnapshotDrawNothing(Drag(s, moves[0].0, moves[0].1).0, moves[1..]);
    }
  }

  /**
   * The tool is one-shot: once a release has detached the handlers, presses,
   * drags and releases change nothing and draw nothing until it is picked again.
   */
  lemma {:induction false} DetachedToolIgnoresMouse(s: ZoomState, events: seq<ZoomEvent>)
    requires !s.installed
    requires forall k :: 0 <= k < |events| ==> !events[k].Picked?
    ensures Run(s, events) == (s, [])
    decreases |events|
  {
    if |events| > 0 {
      assert Step(s, events[0]) == (s, None);
      DetachedToolIgnoresMouse(s, events[1..]);
      assert Run(s, events[1..]) == (s, []);
      assert Run(s, events).0 == s;
      assert Run(s, events).1 == [];
    }
  }

  /** Any release, primary or not, detaches the tool. */
  lemma ReleaseEndsTheTool(s: ZoomState, button: Button, x: real, y: real, snapshot: Image,
                           events: seq<ZoomEvent>)
    requires forall k :: 0 <= k < |events| ==> !events[k].Picked?
    ensures var s1 := Release(s, button, x, y, snapshot).0;
      !s1.installed && Run(s1, events) == (s1, [])
  {
    var s1 := Release(s, button, x, y, snapshot).0;
    DetachedToolIgnoresMouse(s1, events);
  }

  /** A held snapshot always comes with `shouldEnlarge` set and no selection in progress. */
  predicate SnapshotMeansEnlarge(s: ZoomState) {
    s.originalImage.Some? ==> s.shouldEnlarge && !s.isSelecting
  }

  /**
   * Every state reachable from the initial one holds the invariant, so every
   * `drawImage` call the tool makes is the enlarged region: the whole-canvas
   * branch of `redrawCanvas` is never taken.
   */
  lemma {:induction false} OnlyEnlargedRegionsAreDrawn(events: seq<ZoomEvent>)
    ensures SnapshotMeansEnlarge(Run(INITIAL, events).0)
    ensures forall k :: 0 <= k < |Run(INITIAL, events).1| ==> Run(INITIAL, events).1[k].DrawRegion?
  {
    RunKeepsSnapshotMeansEnlarge(INITIAL, events);
  }

  lemma {:induction false} RunKeepsSnapshotMeansEnlarge(s: ZoomState, events: seq<ZoomEvent>)
    requires SnapshotMeansEnlarge(s)
    ensures SnapshotMeansEnlarge(Run(s, events).0)
    ensures forall k :: 0 <= k < |Run(s, events).1| ==> Run(s, events).1[k].DrawRegion?
    decreases |events|
  {
    if |events| > 0 {
      var (s1, d) := Step(s, events[0]);
      assert SnapshotMeansEnlarge(s1);
      assert d.Some? ==> d.value.DrawRegion?;
      RunKeepsSnapshotMeansEnlarge(s1, events[1..]);
    }
  }
}
