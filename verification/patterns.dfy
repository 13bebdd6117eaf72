/**
 * The rasterisation rules of the rectangle and circle tools: where hatch
 * lines go inside a rectangle, how big a dragged circle is, which pixels
 * count as inside a circle, and which pixels the circle hatching paints.
 * Doubles are modelled as reals, so the step-by-25 loops accumulate no
 * rounding error here.
 */
module Patterns {
  import opened Numeric
  import opened Raster
  import opened Geometry

  /** `start, start + 25, ...` for as long as the value stays below `limit`. */
  function StepsBelow(start: real, limit: real): (r: seq<real>)
    ensures forall k :: 0 <= k < |r| ==> r[k] == start + LINE_SPACING * k as real
    ensures forall k :: 0 <= k < |r| ==> r[k] < limit
    ensures start + LINE_SPACING * |r| as real >= limit
    decreases if start < limit then (limit - start).Floor + 1 else 0
  {
    if start < limit then [start] + StepsBelow(start + LINE_SPACING, limit) else []
  }

  /** `start, start - 25, ...` for as long as the value stays above `limit`. */
  function StepsAbove(start: real, limit: real): (r: seq<real>)
    ensures forall k :: 0 <= k < |r| ==> r[k] == start - LINE_SPACING * k as real
    ensures forall k :: 0 <= k < |r| ==> r[k] > limit
    ensures start - LINE_SPACING * |r| as real <= limit
    decreases if start > limit then (start - limit).Floor + 1 else 0
  {
    if start > limit then [start] + StepsAbove(start - LINE_SPACING, limit) else []
  }

  /**
   * The y positions of the horizontal hatch lines of a rectangle dragged
   * from row `y1` to row `y2`: they start at the drag's own start row and
   * step by 25 toward `y2`, stopping before it.
   */
  function HorizontalLinePositions(y1: real, y2: real): (r: seq<real>)
    ensures forall k :: 0 <= k < |r| ==>
              r[k] == if y1 > y2 then y1 - LINE_SPACING * k as real else y1 + LINE_SPACING * k as real
    ensures forall k :: 0 <= k < |r| ==> Min(y1, y2) <= r[k] <= Max(y1, y2) && r[k] != y2
    ensures y1 == y2 ==> r == []
    ensures y1 != y2 ==> |r| > 0 && r[0] == y1
    // No line is missing: one more step would reach or pass `y2`.
    ensures y1 > y2 ==> y1 - LINE_SPACING * |r| as real <= y2
    ensures y1 <= y2 ==> y1 + LINE_SPACING * |r| as real >= y2
  {
    if y1 > y2 then StepsAbove(y1, y2) else StepsBelow(y1, y2)
  }

  /** Consecutive horizontal hatch lines are exactly one spacing apart. */
  lemma HorizontalLinesEvenlySpaced(y1: real, y2: real)
    ensures var r := HorizontalLinePositions(y1, y2);
      forall k :: 0 <= k < |r| - 1 ==> Abs(r[k + 1] - r[k]) == LINE_SPACING
  {
    var r := HorizontalLinePositions(y1, y2);
    forall k | 0 <= k < |r| - 1
      ensures Abs(r[k + 1] - r[k]) == LINE_SPACING
    {
      assert (k + 1) as real == k as real + 1.0;
    }
  }

  /**
   * The x positions of the vertical hatch lines between columns `x1` and
   * `x2`: half a spacing in from the left edge, then every 25, strictly left
   * of the right edge. The source has one loop per corner order.
   */
  function VerticalLinePositions(x1: real, x2: real): (r: seq<real>)
    ensures forall k :: 0 <= k < |r| ==> r[k] == Min(x1, x2) + LINE_SPACING / 2.0 + LINE_SPACING * k as real
    ensures forall k :: 0 <= k < |r| ==> Min(x1, x2) < r[k] < Max(x1, x2)
    ensures Min(x1, x2) + LINE_SPACING / 2.0 + LINE_SPACING * |r| as real >= Max(x1, x2)
  {
    if x1 > x2 then StepsBelow(x2 + LINE_SPACING / 2.0, x1)
    else StepsBelow(x1 + LINE_SPACING / 2.0, x2)
  }

  /** Both loops of the vertical hatching draw the same lines, so the corner order does not matter. */
  lemma VerticalLinesIgnoreCornerOrder(x1: real, x2: real)
    ensures VerticalLinePositions(x1, x2) == VerticalLinePositions(x2, x1)
  {
  }

  /** Dragging a circle: the radius is the larger of the two axis offsets (a Chebyshev radius). */
  function DragRadius(centerX: real, centerY: real, mouseX: real, mouseY: real): (r: real)
    ensures r >= 0.0
    // The mouse lies on the border of the square of half-side `r` around the centre.
    ensures Abs(mouseX - centerX) <= r && Abs(mouseY - centerY) <= r
    ensures r == Abs(mouseX - centerX) || r == Abs(mouseY - centerY)
  {
    Max(Abs(mouseX - centerX), Abs(mouseY - centerY))
  }

  /** Squared Euclidean distance between a pixel and a real centre. */
  function DistanceSquared(x: int, y: int, centerX: real, centerY: real): (d: real)
    ensures d >= 0.0
  {
    var dx := x as real - centerX;
    var dy := y as real - centerY;
    dx * dx + dy * dy
  }

  /**
   * The inside-circle test. The source compares `Math.sqrt(dx^2 + dy^2)`
   * with the radius; `SqrtComparison` shows this squared form gives the same
   * answer for the exact square root.
   */
  predicate InsideCircle(x: int, y: int, centerX: real, centerY: real, radius: real) {
    0.0 <= radius && DistanceSquared(x, y, centerX, centerY) <= radius * radius
  }

  /** For `d` the square root of `v`, `d <= r` exactly when `r >= 0` and `v <= r * r`. */
  lemma SqrtComparison(d: real, v: real, r: real)
    requires d >= 0.0 && d * d == v
    ensures d <= r <==> 0.0 <= r && v <= r * r
  {
    if d <= r {
      ProductNonNegative(d, r - d);
      ProductNonNegative(r, r - d);
      assert d * (r - d) == d * r - d * d;
      assert r * (r - d) == r * r - r * d;
    } else if 0.0 <= r {
      ProductNonNegative(r, d - r);
      ProductPositive(d, d - r);
      assert r * (d - r) == r * d - r * r;
      assert d * (d - r) == d * d - d * r;
    }
  }

  /** The inside test agrees with the source's square-root test. */
  lemma InsideCircleMatchesSqrt(x: int, y: int, centerX: real, centerY: real, radius: real, d: real)
    requires d >= 0.0 && d * d == DistanceSquared(x, y, centerX, centerY)
    ensures InsideCircle(x, y, centerX, centerY, radius) <==> d <= radius
  {
    SqrtComparison(d, DistanceSquared(x, y, centerX, centerY), radius);
  }

  /** The row (horizontal hatching) or column (vertical hatching) is on the 25-pixel grid. */
  predicate OnHatchLine(pattern: FillPattern, x: int, y: int) {
    match pattern
    case Horizontal => y % 25 == 0
    case Vertical => x % 25 == 0
    case NoFill => false
  }

  /**
   * A pixel the circle hatching paints: on the canvas, inside the circle, on
   * a hatch line, and not already of the line colour in the snapshot.
   */
  predicate HatchPixel(snapshot: Image, centerX: real, centerY: real, radius: real, lineColor: RGB,
                       pattern: FillPattern, p: Point)
  {
    && snapshot.Valid()
    && snapshot.InBounds(p.x, p.y)
    && InsideCircle(p.x, p.y, centerX, centerY, radius)
    && OnHatchLine(pattern, p.x, p.y)
    && snapshot.At(p.x, p.y) != lineColor
  }

  /** Row-major order: the order in which the scan visits pixels. */
  predicate ScanBefore(p: Point, q: Point) {
    p.y < q.y || (p.y == q.y && p.x < q.x)
  }

  /** The inner loop: columns `x ..` of row `y`. */
  function ScanRow(snapshot: Image, centerX: real, centerY: real, radius: real, lineColor: RGB,
                   pattern: FillPattern, y: int, x: nat): (r: seq<Point>)
    requires snapshot.Valid()
    ensures forall p :: p in r <==>
              p.y == y && x <= p.x && HatchPixel(snapshot, centerX, centerY, radius, lineColor, pattern, p)
    ensures forall i, j :: 0 <= i < j < |r| ==> r[i].y == r[j].y && r[i].x < r[j].x
    ensures forall i :: 0 <= i < |r| ==> x <= r[i].x
    decreases snapshot.width - x
  {
    if x >= snapshot.width then []
    else
      var p := Point(x, y);
      var rest := ScanRow(snapshot, centerX, centerY, radius, lineColor, pattern, y, x + 1);
      if HatchPixel(snapshot, centerX, centerY, radius, lineColor, pattern, p) then [p] + rest else rest
  }

  /** The outer loop: rows `y ..`. */
  function ScanRows(snapshot: Image, centerX: real, centerY: real, radius: real, lineColor: RGB,
                    pattern: FillPattern, y: nat): (r: seq<Point>)
    requires snapshot.Valid()
    ensures forall p :: p in r <==>
              y <= p.y && HatchPixel(snapshot, centerX, centerY, radius, lineColor, pattern, p)
    ensures forall i, j :: 0 <= i < j < |r| ==> ScanBefore(r[i], r[j])
    ensures forall i :: 0 <= i < |r| ==> y <= r[i].y
    decreases snapshot.height - y
  {
    if y >= snapshot.height then []
    else
      var row := ScanRow(snapshot, centerX, centerY, radius, lineColor, pattern, y, 0);
      var rest := ScanRows(snapshot, centerX, centerY, radius, lineColor, pattern, y + 1);
      assert forall i :: 0 <= i < |row| ==> row[i].y == y by {
        forall i | 0 <= i < |row| ensures row[i].y == y {
          assert row[i] in row;
        }
      }
      row + rest
  }

  /**
   * The pixels `drawHorizontalLinesInsideCircle` / `drawVerticalLinesInsideCircle`
   * stroke, in the order they are stroked; `snapshot` is the canvas as it
   * looks once the outline is drawn.
   */
  function CircleHatch(snapshot: Image, centerX: real, centerY: real, radius: real, lineColor: RGB,
                       pattern: FillPattern): (r: seq<Point>)
    requires snapshot.Valid()
    ensures forall p :: p in r <==> HatchPixel(snapshot, centerX, centerY, radius, lineColor, pattern, p)
    // Each pixel is stroked once, in row-major order.
    ensures forall i, j :: 0 <= i < j < |r| ==> ScanBefore(r[i], r[j])
    ensures pattern == NoFill ==> r == []
  {
    if pattern == NoFill then [] else ScanRows(snapshot, centerX, centerY, radius, lineColor, pattern, 0)
  }

  /** Hatch pixels lie within the circle's bounding square. */
  lemma HatchPixelsNearCentre(snapshot: Image, centerX: real, centerY: real, radius: real, lineColor: RGB,
                              pattern: FillPattern, p: Point)
    requires HatchPixel(snapshot, centerX, centerY, radius, lineColor, pattern, p)
    ensures Abs(p.x as real - centerX) <= radius && Abs(p.y as real - centerY) <= radius
  {
    var dx, dy := p.x as real - centerX, p.y as real - centerY;
    var ax, ay := Abs(dx), Abs(dy);
    assert ax * ax == dx * dx && ay * ay == dy * dy;
    ProductNonNegative(ax, ax);
    ProductNonNegative(ay, ay);
    assert dx * dx + dy * dy <= radius * radius;
    SqrtComparison(ax, dx * dx, radius);
    SqrtComparison(ay, dy * dy, radius);
  }
}
