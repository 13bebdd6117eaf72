/**
 * Shape vocabulary: axis-aligned rectangles spanned by two drag corners (as
 * the rectangle tool and the zoom-selection tool both compute them), line
 * segments, and the fill patterns of the rectangle and circle tools.
 */
module Geometry {
  import opened Numeric

  /** The three fill choices offered when a rectangle or circle tool is picked. */
  datatype FillPattern = NoFill | Horizontal | Vertical

  /** The distance between neighbouring hatch lines. */
  const LINE_SPACING: real := 25.0

  /** A `strokeLine(x1, y1, x2, y2)` call. */
  datatype Segment = Segment(x1: real, y1: real, x2: real, y2: real)

  datatype Rect = Rect(x: real, y: real, width: real, height: real) {

    function Right(): real { x + width }
    function Bottom(): real { y + height }

    predicate Contains(px: real, py: real) {
      x <= px <= Right() && y <= py <= Bottom()
    }

    /** `inner` lies inside this rectangle. */
    predicate Encloses(inner: Rect) {
      && x <= inner.x && inner.Right() <= Right()
      && y <= inner.y && inner.Bottom() <= Bottom()
    }
  }

  /**
   * `x = min(x1, x2)`, `width = |x2 - x1|`, and the same for y: the rectangle
   * whose opposite corners are the two drag points.
   */
  function FromCorners(x1: real, y1: real, x2: real, y2: real): (r: Rect)
    ensures r.width >= 0.0 && r.height >= 0.0
    ensures {r.x, r.Right()} == {x1, x2}
    ensures {r.y, r.Bottom()} == {y1, y2}
    ensures r.Contains(x1, y1) && r.Contains(x2, y2)
  {
    Rect(Min(x1, x2), Min(y1, y2), Abs(x2 - x1), Abs(y2 - y1))
  }

  /** The rectangle does not depend on which corner the drag started from. */
  lemma FromCornersIsSymmetric(x1: real, y1: real, x2: real, y2: real)
    ensures FromCorners(x1, y1, x2, y2) == FromCorners(x2, y2, x1, y1)
    ensures FromCorners(x1, y1, x2, y2) == FromCorners(x1, y2, x2, y1)
  {
  }

  /**
   * The min/max form used before vertical hatching (left, top, right, bottom)
   * describes the same rectangle as the min/abs form.
   */
  lemma MinMaxFormAgrees(x1: real, y1: real, x2: real, y2: real)
    ensures var r := FromCorners(x1, y1, x2, y2);
      && r.x == Min(x1, x2) && r.Right() == Max(x1, x2)
      && r.y == Min(y1, y2) && r.Bottom() == Max(y1, y2)
  {
  }
}
