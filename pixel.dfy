/**
  `convert_lng_lat_to_pixel`: a geographic position inside a raster's bounds mapped to a
  pixel, counted from the top-right corner (x grows leftward, y downward).
 */
module PixelMapping {
  import opened Wrappers

  /** The raster's `bounds`, in CRS units. */
  datatype Bounds = Bounds(left: real, bottom: real, right: real, top: real)

  /** The pair `(xpos, ypos)`. */
  datatype Pixel = Pixel(x: int, y: int)

  datatype PixelError =
    | OutsideBounds  // 'Invalid lat/lng'
    | ZeroDivision   // ZeroDivisionError of a zero-width or zero-height bounds

  /** Bounds with a positive extent on both axes. */
  predicate Spans(b: Bounds) {
    b.right > b.left && b.top > b.bottom
  }

  function Abs(x: real): real {
    if x < 0.0 then -x else x
  }

  /** Python's `int()` on a float: truncation toward zero. */
  function Trunc(x: real): (n: int)
    ensures Abs(n as real) <= Abs(x) < Abs(n as real) + 1.0
    ensures n != 0 ==> (n > 0 <==> x > 0.0)
  {
    if x >= 0.0 then x.Floor else -((-x).Floor)
  }

  /** One axis before truncation: the offset from the far edge times the pixels per CRS unit (`xres`, `yres`). */
  function Scaled(offset: real, extent: real, pixels: nat): real
    requires extent != 0.0
  {
    var res := pixels as real / extent;
    offset * res
  }

  /** One axis: the scaled offset, truncated. */
  function AxisIndex(offset: real, extent: real, pixels: nat): int
    requires extent != 0.0
  {
    Trunc(Scaled(offset, extent, pixels))
  }

  /** `convert_lng_lat_to_pixel(satdata, lng, lat)` for a raster of `width` by `height` pixels. */
  function LngLatToPixel(b: Bounds, width: nat, height: nat, lng: real, lat: real): Result<Pixel, PixelError> {
    if lng > b.right || lng < b.left then Failure(OutsideBounds)
    else if lat > b.top || lat < b.bottom then Failure(OutsideBounds)
    else
      var widthUnits := Abs(b.right - b.left);
      var heightUnits := Abs(b.top - b.bottom);
      if widthUnits == 0.0 then Failure(ZeroDivision)
      else if heightUnits == 0.0 then Failure(ZeroDivision)
      else Success(Pixel(AxisIndex(b.right - lng, widthUnits, width), AxisIndex(b.top - lat, heightUnits, height)))
  }

  /** Inside the bounds, on both axes. */
  predicate Inside(b: Bounds, lng: real, lat: real) {
    b.left <= lng <= b.right && b.bottom <= lat <= b.top
  }

  /** 'Invalid lat/lng' is raised exactly for a position outside the closed bounds. */
  lemma OutsideBoundsIff(b: Bounds, width: nat, height: nat, lng: real, lat: real)
    ensures LngLatToPixel(b, width, height, lng, lat) == Failure(OutsideBounds) <==> !Inside(b, lng, lat)
  {
  }

  /** Division by zero happens exactly for an inside position of bounds with no extent on an axis. */
  lemma ZeroDivisionIff(b: Bounds, width: nat, height: nat, lng: real, lat: real)
    ensures LngLatToPixel(b, width, height, lng, lat) == Failure(ZeroDivision)
        <==> Inside(b, lng, lat) && !Spans(b)
  {
  }

  /** The scaled offset runs from 0 at the far edge to `n` at the near one, and grows with the offset. */
  lemma ScaledWithin(d: real, e: real, n: nat)
    requires 0.0 <= d <= e && 0.0 < e
    ensures 0.0 <= Scaled(d, e, n) <= n as real
    ensures d == e ==> Scaled(d, e, n) == n as real
    ensures d < e && 0 < n ==> Scaled(d, e, n) < n as real
  {
    var q := n as real / e;
    assert q * e == n as real;
    assert 0.0 <= q;
    assert d * q <= e * q;
    if d < e && 0 < n {
      assert d * q < e * q;
    }
  }

  /** A larger offset never scales to less. */
  lemma ScaledMonotone(d1: real, d2: real, e: real, n: nat)
    requires d1 <= d2 && 0.0 < e
    ensures Scaled(d1, e, n) <= Scaled(d2, e, n)
  {
    var q := n as real / e;
    assert 0.0 <= q;
    assert d1 * q <= d2 * q;
  }

  /** One axis of the mapping lands in `0..n`; it is the index of the unit-wide span holding the scaled offset. */
  lemma AxisInRange(d: real, e: real, n: nat)
    requires 0.0 <= d <= e && 0.0 < e
    ensures var p := AxisIndex(d, e, n);
      && 0 <= p <= n
      && p as real <= Scaled(d, e, n) < p as real + 1.0
      && (d == e ==> p == n)
      && (0 < n && p == n ==> d == e)
  {
    ScaledWithin(d, e, n);
  }

  /** The pixel of an inside position of bounds that span both axes, one axis at a time. */
  lemma PixelAxes(b: Bounds, width: nat, height: nat, lng: real, lat: real)
    requires Spans(b) && Inside(b, lng, lat)
    ensures LngLatToPixel(b, width, height, lng, lat)
         == Success(Pixel(AxisIndex(b.right - lng, b.right - b.left, width),
                          AxisIndex(b.top - lat, b.top - b.bottom, height)))
  {
    assert Abs(b.right - b.left) == b.right - b.left;
    assert Abs(b.top - b.bottom) == b.top - b.bottom;
  }

  /**
    For bounds that span both axes, every inside position maps into `0 <= x <= width`,
    `0 <= y <= height`; `x` is the column, counted from the right, whose span holds `lng`
    (`x <= (right - lng) * xres < x + 1`), and likewise `y` from the top; the left edge gives
    exactly `width` and the bottom edge exactly `height`, one past the last pixel.
   */
  lemma PixelInRange(b: Bounds, width: nat, height: nat, lng: real, lat: real)
    requires Spans(b) && Inside(b, lng, lat)
    ensures LngLatToPixel(b, width, height, lng, lat).Success?
    ensures var p := LngLatToPixel(b, width, height, lng, lat).value;
      0 <= p.x <= width && 0 <= p.y <= height
    ensures var p := LngLatToPixel(b, width, height, lng, lat).value;
      var xs := Scaled(b.right - lng, b.right - b.left, width);
      p.x as real <= xs < p.x as real + 1.0
    ensures var p := LngLatToPixel(b, width, height, lng, lat).value;
      var ys := Scaled(b.top - lat, b.top - b.bottom, height);
      p.y as real <= ys < p.y as real + 1.0
    ensures var p := LngLatToPixel(b, width, height, lng, lat).value;
      (lng == b.left ==> p.x == width) && (0 < width && p.x == width ==> lng == b.left)
    ensures var p := LngLatToPixel(b, width, height, lng, lat).value;
      (lat == b.bottom ==> p.y == height) && (0 < height && p.y == height ==> lat == b.bottom)
  {
    PixelAxes(b, width, height, lng, lat);
    AxisInRange(b.right - lng, b.right - b.left, width);
    AxisInRange(b.top - lat, b.top - b.bottom, height);
  }

  /** The top-right corner is pixel `(0, 0)`. */
  lemma TopRightIsOrigin(b: Bounds, width: nat, height: nat)
    requires Spans(b)
    ensures LngLatToPixel(b, width, height, b.right, b.top) == Success(Pixel(0, 0))
  {
    PixelAxes(b, width, height, b.right, b.top);
  }

  /** Moving east never increases `x`: the column index grows leftward. */
  lemma ColumnGrowsWestward(b: Bounds, width: nat, height: nat, lng1: real, lng2: real, lat: real)
    requires Spans(b) && Inside(b, lng1, lat) && Inside(b, lng2, lat)
    requires lng1 <= lng2
    ensures LngLatToPixel(b, width, height, lng1, lat).value.x >= LngLatToPixel(b, width, height, lng2, lat).value.x
  {
    var e := b.right - b.left;
    PixelAxes(b, width, height, lng1, lat);
    PixelAxes(b, width, height, lng2, lat);
    AxisInRange(b.right - lng1, e, width);
    AxisInRange(b.right - lng2, e, width);
    ScaledMonotone(b.right - lng2, b.right - lng1, e, width);
  }
}
