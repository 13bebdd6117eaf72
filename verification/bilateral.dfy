/**
 * The bilateral filter: every pixel at least `HALF` away from each border
 * becomes the weighted average of the 7 x 7 window around it, where a
 * neighbour's weight falls off with its colour distance and its spatial
 * distance from the centre. Border pixels are copied.
 *
 * The source's weight is `exp(-colour/2s^2 - space/2s^2)` in doubles; here it
 * is any function of the two squared distances that is positive and equals 1
 * at distance 0, and all sums are exact reals.
 */
module Bilateral {
  import opened Numeric
  import opened Raster
  import opened Averages

  /** The window is `DIAMETER` pixels across; `HALF` is Java's `diameter / 2`. */
  const DIAMETER: nat := 7
  const HALF: nat := DIAMETER / 2

  /** Squared distance between two colours in RGB space. */
  function ColorDistanceSquared(c1: RGB, c2: RGB): (d: int)
    ensures d >= 0
    ensures d == 0 <==> c1 == c2
  {
    var dr, dg, db := c1.red - c2.red, c1.green - c2.green, c1.blue - c2.blue;
    SquareIsZeroOnlyAtZero(dr);
    SquareIsZeroOnlyAtZero(dg);
    SquareIsZeroOnlyAtZero(db);
    dr * dr + dg * dg + db * db
  }

  /** Squared distance between two pixel positions. */
  function SpaceDistanceSquared(x1: int, y1: int, x2: int, y2: int): (d: int)
    ensures d >= 0
    ensures d == 0 <==> x1 == x2 && y1 == y2
  {
    var dx, dy := x1 - x2, y1 - y2;
    SquareIsZeroOnlyAtZero(dx);
    SquareIsZeroOnlyAtZero(dy);
    dx * dx + dy * dy
  }

  lemma SquareIsZeroOnlyAtZero(v: int)
    ensures v * v >= 0
    ensures v * v == 0 <==> v == 0
  {
    if v < 0 {
      assert v * v == (-v) * (-v);
    }
  }

  /** Neither distance depends on which of the two pixels is the centre. */
  lemma DistancesAreSymmetric(c1: RGB, c2: RGB, x1: int, y1: int, x2: int, y2: int)
    ensures ColorDistanceSquared(c1, c2) == ColorDistanceSquared(c2, c1)
    ensures SpaceDistanceSquared(x1, y1, x2, y2) == SpaceDistanceSquared(x2, y2, x1, y1)
  {
  }

  /**
   * The weight of a neighbour from its squared colour distance and squared
   * spatial distance: positive, and 1 for a neighbour at distance 0.
   */
  ghost predicate ValidWeight(weight: (int, int) -> real) {
    && weight(0, 0) == 1.0
    && forall dc: int, ds: int :: 0 <= dc && 0 <= ds ==> weight(dc, ds) > 0.0
  }

  /** A pixel the filter recomputes: the whole window around it is on the image. */
  predicate Interior(img: Image, x: int, y: int) {
    HALF <= x < img.width - HALF && HALF <= y < img.height - HALF
  }

  /** The window around `(x, y)` in visiting order: row offset outer, column offset inner. */
  function Window(x: int, y: int): (r: seq<Point>)
    ensures |r| == DIAMETER * DIAMETER
    ensures r[HALF * DIAMETER + HALF] == Point(x, y)
    ensures forall p :: p in r <==> x - HALF <= p.x <= x + HALF && y - HALF <= p.y <= y + HALF
  {
    var w := seq(DIAMETER * DIAMETER, k requires 0 <= k < DIAMETER * DIAMETER =>
                   Point(x + k % DIAMETER - HALF, y + k / DIAMETER - HALF));
    assert forall p: Point :: x - HALF <= p.x <= x + HALF && y - HALF <= p.y <= y + HALF ==> p in w by {
      forall p: Point | x - HALF <= p.x <= x + HALF && y - HALF <= p.y <= y + HALF
        ensures p in w
      {
        var i, j := p.y - y + HALF, p.x - x + HALF;
        var k := i * DIAMETER + j;
        assert k % DIAMETER == j && k / DIAMETER == i;
        assert w[k] == p;
      }
    }
    assert (HALF * DIAMETER + HALF) % DIAMETER == HALF && (HALF * DIAMETER + HALF) / DIAMETER == HALF;
    w
  }

  /** Every neighbour of an interior pixel is on the image. */
  lemma WindowInBounds(img: Image, x: int, y: int)
    requires Interior(img, x, y)
    ensures forall p :: p in Window(x, y) ==> img.InBounds(p.x, p.y)
    ensures AllInBounds(img, Window(x, y))
    ensures Point(x, y) in Window(x, y)
  {
    var win := Window(x, y);
    forall k | 0 <= k < |win| ensures img.InBounds(win[k].x, win[k].y) {
      assert win[k] in win;
    }
  }

  predicate AllInBounds(img: Image, pts: seq<Point>) {
    forall k :: 0 <= k < |pts| ==> img.InBounds(pts[k].x, pts[k].y)
  }

  /** The weight the centre `(x, y)` gives its neighbour `p`. */
  function PixelWeight(img: Image, weight: (int, int) -> real, x: int, y: int, p: Point): (w: real)
    requires img.Valid() && ValidWeight(weight) && img.InBounds(x, y) && img.InBounds(p.x, p.y)
    ensures w > 0.0
    ensures p == Point(x, y) ==> w == 1.0
  {
    weight(ColorDistanceSquared(img.At(x, y), img.At(p.x, p.y)), SpaceDistanceSquared(x, y, p.x, p.y))
  }

  /** The weights of the neighbours `pts`, in visiting order. */
  function Weights(img: Image, weight: (int, int) -> real, x: int, y: int, pts: seq<Point>): (ws: seq<real>)
    requires img.Valid() && ValidWeight(weight) && img.InBounds(x, y) && AllInBounds(img, pts)
    ensures |ws| == |pts| && AllPositive(ws)
    ensures forall k :: 0 <= k < |pts| && pts[k] == Point(x, y) ==> ws[k] == 1.0
  {
    seq(|pts|, k requires 0 <= k < |pts| => PixelWeight(img, weight, x, y, pts[k]))
  }

  /** One channel of the neighbours `pts`, in visiting order. */
  function Values(img: Image, ch: Channel, pts: seq<Point>): (vs: seq<real>)
    requires img.Valid() && AllInBounds(img, pts)
    ensures |vs| == |pts|
    ensures forall k :: 0 <= k < |pts| ==> vs[k] == ChannelOf(img.At(pts[k].x, pts[k].y), ch) as real
  {
    seq(|pts|, k requires 0 <= k < |pts| => ChannelOf(img.At(pts[k].x, pts[k].y), ch) as real)
  }

  /** The weights of the window around `(x, y)` in visiting order; they add up to at least 1. */
  function WindowWeights(img: Image, weight: (int, int) -> real, x: int, y: int): (ws: seq<real>)
    requires img.Valid() && ValidWeight(weight) && Interior(img, x, y)
    ensures |ws| == DIAMETER * DIAMETER && AllPositive(ws)
    ensures Total(ws) >= 1.0
  {
    WindowInBounds(img, x, y);
    var ws := Weights(img, weight, x, y, Window(x, y));
    TotalAtLeastEach(ws, HALF * DIAMETER + HALF);
    ws
  }

  /** One channel of the window around `(x, y)` in visiting order. */
  function WindowValues(img: Image, ch: Channel, x: int, y: int): (vs: seq<real>)
    requires img.Valid() && Interior(img, x, y)
    ensures |vs| == DIAMETER * DIAMETER
  {
    WindowInBounds(img, x, y);
    Values(img, ch, Window(x, y))
  }

  /** Every channel value of the window around `(x, y)` is in `lo .. hi`. */
  predicate WindowBetween(img: Image, x: int, y: int, ch: Channel, lo: int, hi: int)
    requires img.Valid() && Interior(img, x, y)
  {
    forall p :: p in Window(x, y) ==> lo <= ChannelOf(img.At(p.x, p.y), ch) <= hi
  }

  lemma WindowValuesBetween(img: Image, x: int, y: int, ch: Channel, lo: int, hi: int)
    requires img.Valid() && Interior(img, x, y) && WindowBetween(img, x, y, ch, lo, hi)
    ensures AllBetween(WindowValues(img, ch, x, y), lo as real, hi as real)
  {
    var win := Window(x, y);
    WindowInBounds(img, x, y);
    var vs := WindowValues(img, ch, x, y);
    forall k | 0 <= k < |vs| ensures lo as real <= vs[k] <= hi as real {
      assert win[k] in win;
    }
  }

  /** Channel values of a valid image are in `0 .. 255`. */
  lemma WindowInRange(img: Image, x: int, y: int, ch: Channel)
    requires img.Valid() && Interior(img, x, y)
    ensures WindowBetween(img, x, y, ch, 0, 255)
  {
    forall p | p in Window(x, y) ensures 0 <= ChannelOf(img.At(p.x, p.y), ch) <= 255 {
      assert ValidColor(img.At(p.x, p.y));
    }
  }

  /**
   * One output channel of an interior pixel: the weighted channel sum over
   * the window divided by the weight sum, truncated by Java's `(int)` cast.
   */
  function FilteredChannel(img: Image, weight: (int, int) -> real, x: int, y: int, ch: Channel): int
    requires img.Valid() && ValidWeight(weight) && Interior(img, x, y)
  {
    var ws := WindowWeights(img, weight, x, y);
    TruncatedQuotient(Dot(ws, WindowValues(img, ch, x, y)), Total(ws))
  }

  /**
   * An output channel lies between the smallest and the largest value of that
   * channel in the window, and so within `0 .. 255`: `new Color(r, g, b)`
   * never sees an out-of-range component.
   */
  lemma FilteredChannelWithinWindow(img: Image, weight: (int, int) -> real, x: int, y: int, ch: Channel,
                                    lo: int, hi: int)
    requires img.Valid() && ValidWeight(weight) && Interior(img, x, y)
    requires WindowBetween(img, x, y, ch, lo, hi)
    ensures lo <= FilteredChannel(img, weight, x, y, ch) <= hi
    ensures IsChannelValue(FilteredChannel(img, weight, x, y, ch))
  {
    WindowInRange(img, x, y, ch);
    // Intersect the given bounds with 0 .. 255, which every window satisfies.
    var lo', hi' := if lo < 0 then 0 else lo, if hi > 255 then 255 else hi;
    assert WindowBetween(img, x, y, ch, lo', hi');
    WindowValuesBetween(img, x, y, ch, lo', hi');
    AverageBounds(WindowWeights(img, weight, x, y), WindowValues(img, ch, x, y), lo', hi');
  }

  /** The colour `applyFilter` writes at an interior pixel. */
  function FilteredPixel(img: Image, weight: (int, int) -> real, x: int, y: int): (c: RGB)
    requires img.Valid() && ValidWeight(weight) && Interior(img, x, y)
    ensures ValidColor(c)
  {
    WindowInRange(img, x, y, Red);
    WindowInRange(img, x, y, Green);
    WindowInRange(img, x, y, Blue);
    FilteredChannelWithinWindow(img, weight, x, y, Red, 0, 255);
    FilteredChannelWithinWindow(img, weight, x, y, Green, 0, 255);
    FilteredChannelWithinWindow(img, weight, x, y, Blue, 0, 255);
    RGB(FilteredChannel(img, weight, x, y, Red), FilteredChannel(img, weight, x, y, Green),
        FilteredChannel(img, weight, x, y, Blue))
  }

  /** The colour of `(x, y)` in the output: recomputed inside, copied at the border. */
  function OutputPixel(img: Image, weight: (int, int) -> real, x: int, y: int): (c: RGB)
    requires img.Valid() && ValidWeight(weight) && img.InBounds(x, y)
    ensures ValidColor(c)
  {
    if Interior(img, x, y) then FilteredPixel(img, weight, x, y) else img.At(x, y)
  }

  /**
   * `applyFilter`: a fresh image of the same size in which every pixel is
   * computed from the input alone. Because no output pixel is read back,
   * the result is the same whatever order the pixels are visited in.
   */
  function Filter(img: Image, weight: (int, int) -> real): (r: Image)
    requires img.Valid() && ValidWeight(weight)
    ensures r.Valid() && SameSize(r, img)
    ensures forall x, y :: img.InBounds(x, y) && !Interior(img, x, y) ==> r.At(x, y) == img.At(x, y)
    ensures forall x, y :: Interior(img, x, y) ==> r.At(x, y) == FilteredPixel(img, weight, x, y)
  {
    Image(img.width, img.height,
          seq(img.height, y requires 0 <= y < img.height =>
            seq(img.width, x requires 0 <= x < img.width => OutputPixel(img, weight, x, y))))
  }

  /** An image narrower or shorter than the window has no interior pixel and comes back unchanged. */
  lemma SmallImageUnchanged(img: Image, weight: (int, int) -> real)
    requires img.Valid() && ValidWeight(weight)
    requires img.width < DIAMETER || img.height < DIAMETER
    ensures Filter(img, weight) == img
  {
    var r := Filter(img, weight);
    forall x, y | img.InBounds(x, y) ensures r.At(x, y) == img.At(x, y) {
      assert !Interior(img, x, y);
    }
    Extensionality(r, img);
  }

  /** A window of one colour reproduces that colour: the filter keeps flat regions flat. */
  lemma UniformWindowKept(img: Image, weight: (int, int) -> real, x: int, y: int)
    requires img.Valid() && ValidWeight(weight) && Interior(img, x, y)
    requires forall p :: p in Window(x, y) ==> img.At(p.x, p.y) == img.At(x, y)
    ensures FilteredPixel(img, weight, x, y) == img.At(x, y)
  {
    var c := img.At(x, y);
    FilteredChannelWithinWindow(img, weight, x, y, Red, c.red, c.red);
    FilteredChannelWithinWindow(img, weight, x, y, Green, c.green, c.green);
    FilteredChannelWithinWindow(img, weight, x, y, Blue, c.blue, c.blue);
  }

  /**
   * The menu's filter command runs the filter twice, the second time on the
   * first pass's output. The size is kept, the border is still the input's
   * border, and images smaller than the window are unchanged.
   */
  function FilterTwice(img: Image, weight: (int, int) -> real): (r: Image)
    requires img.Valid() && ValidWeight(weight)
    ensures r.Valid() && SameSize(r, img)
    ensures forall x, y :: img.InBounds(x, y) && !Interior(img, x, y) ==> r.At(x, y) == img.At(x, y)
    ensures img.width < DIAMETER || img.height < DIAMETER ==> r == img
  {
    var once := Filter(img, weight);
    if img.width < DIAMETER || img.height < DIAMETER then
      SmallImageUnchanged(img, weight);
      SmallImageUnchanged(once, weight);
      Filter(once, weight)
    else
      Filter(once, weight)
  }

  /** Row-major progress of `applyFilter`: the pixels before `(x, y)` are done. */
  predicate Done(x: int, y: int, px: int, py: int) {
    py < y || (py == y && px < x)
  }

  /**
   * `out` is the input with the interior pixels before `(x, y)` filtered:
   * the state of `applyFilter`'s output image at that point of the scan.
   */
  ghost predicate FilteredUpTo(img: Image, weight: (int, int) -> real, out: Image, x: int, y: int)
    requires img.Valid() && ValidWeight(weight)
  {
    && out.Valid() && SameSize(out, img)
    && forall px, py :: img.InBounds(px, py) ==>
         out.At(px, py) == if Interior(img, px, py) && Done(x, y, px, py)
                           then FilteredPixel(img, weight, px, py) else img.At(px, py)
  }

  /**
   * `applyFilter` as written: start from a copy of the input and overwrite
   * the interior pixels row by row, reading only the input. The result is
   * `Filter`, whose pixels do not depend on one another, so the visiting
   * order does not matter.
   */
  method ApplyFilter(img: Image, weight: (int, int) -> real) returns (out: Image)
    requires img.Valid() && ValidWeight(weight)
    ensures out == Filter(img, weight)
  {
    out := img;
    if img.width < DIAMETER || img.height < DIAMETER {
      SmallImageUnchanged(img, weight);
      return;
    }
    var y := HALF;
    while y < img.height - HALF
      invariant HALF <= y <= img.height - HALF
      invariant FilteredUpTo(img, weight, out, HALF, y)
    {
      var x := HALF;
      while x < img.width - HALF
        invariant HALF <= x <= img.width - HALF
        invariant FilteredUpTo(img, weight, out, x, y)
      {
        var c := FilteredPixel(img, weight, x, y);
        out := out.Put(x, y, c);
        x := x + 1;
      }
      NextRow(img, weight, out, y);
      y := y + 1;
    }
    var r := Filter(img, weight);
    forall px, py | img.InBounds(px, py) ensures out.At(px, py) == r.At(px, py) {
      assert !Interior(img, px, py) || Done(HALF, y, px, py);
    }
    Extensionality(out, r);
  }

  /** Finishing row `y` is the same as being at the start of row `y + 1`. */
  lemma NextRow(img: Image, weight: (int, int) -> real, out: Image, y: int)
    requires img.Valid() && ValidWeight(weight) && img.width >= DIAMETER
    requires FilteredUpTo(img, weight, out, img.width - HALF, y)
    ensures FilteredUpTo(img, weight, out, HALF, y + 1)
  {
    forall px, py | img.InBounds(px, py) && Interior(img, px, py)
      ensures Done(img.width - HALF, y, px, py) <==> Done(HALF, y + 1, px, py)
    {
    }
  }
}
