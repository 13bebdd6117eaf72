/**
 * The pixel buffer shared by every engine: a width, a height and a
 * row-major grid of 8-bit RGB samples.
 */
module Raster {

  /** A pixel coordinate: column `x`, row `y`. */
  datatype Point = Point(x: int, y: int)

  datatype RGB = RGB(red: int, green: int, blue: int)

  predicate IsChannelValue(v: int) {
    0 <= v <= 255
  }

  predicate ValidColor(c: RGB) {
    IsChannelValue(c.red) && IsChannelValue(c.green) && IsChannelValue(c.blue)
  }

  /** `Color.WHITE` and `Color.WHITESMOKE`, the two blank-canvas colours. */
  const WHITE: RGB := RGB(255, 255, 255)
  const WHITESMOKE: RGB := RGB(245, 245, 245)

  datatype Channel = Red | Green | Blue

  function ChannelOf(c: RGB, ch: Channel): int {
    match ch
    case Red => c.red
    case Green => c.green
    case Blue => c.blue
  }

  /** `rows[y][x]` is the colour of the pixel at column `x`, row `y`. */
  datatype Image = Image(width: nat, height: nat, rows: seq<seq<RGB>>) {

    predicate Valid() {
      && |rows| == height
      && (forall y :: 0 <= y < |rows| ==> |rows[y]| == width)
      && (forall y, x :: 0 <= y < |rows| && 0 <= x < |rows[y]| ==> ValidColor(rows[y][x]))
    }

    predicate InBounds(x: int, y: int) {
      0 <= x < width && 0 <= y < height
    }

    function At(x: int, y: int): (c: RGB)
      requires Valid() && InBounds(x, y)
      ensures ValidColor(c)
    {
      rows[y][x]
    }

    /** Writes one pixel, as `PixelWriter.setColor` does. */
    function Put(x: int, y: int, c: RGB): (r: Image)
      requires Valid() && InBounds(x, y) && ValidColor(c)
      ensures r.Valid() && r.width == width && r.height == height
      ensures r.At(x, y) == c
      ensures forall px, py :: InBounds(px, py) && (px != x || py != y) ==> r.At(px, py) == At(px, py)
    {
      Image(width, height, rows[y := rows[y][x := c]])
    }
  }

  predicate SameSize(a: Image, b: Image) {
    a.width == b.width && a.height == b.height
  }

  /** Two valid buffers of one size that agree on every pixel are equal. */
  lemma {:induction false} Extensionality(a: Image, b: Image)
    requires a.Valid() && b.Valid() && SameSize(a, b)
    requires forall x, y :: a.InBounds(x, y) ==> a.At(x, y) == b.At(x, y)
    ensures a == b
  {
    assert |a.rows| == |b.rows|;
    forall y | 0 <= y < |a.rows|
      ensures a.rows[y] == b.rows[y]
    {
      assert |a.rows[y]| == |b.rows[y]|;
      forall x | 0 <= x < |a.rows[y]|
        ensures a.rows[y][x] == b.rows[y][x]
      {
        assert a.At(x, y) == b.At(x, y);
      }
    }
  }
}
