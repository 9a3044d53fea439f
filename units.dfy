/** Conversion between the physics engine's metric space (y up, origin at the
    bottom-left of the viewport) and the renderer's pixel space (y down, origin
    at the top-left), at a fixed ratio of 40 pixels per metric unit.

    Metric quantities are exact reals; the float rounding of the C++ code is
    not modelled. A conversion to pixels truncates toward zero, as a C++
    `static_cast<int>` of a floating-point value does. */
module Units {

  /** Size of the viewport, in pixels. */
  const Width: int := 800
  const Height: int := 600

  /** Pixels per metric unit. */
  const PixelsPerMetric: real := 40.0

  /** A point (or a vector) in metric space. */
  datatype Vec2 = Vec2(x: real, y: real)

  /** A point in pixel space. */
  datatype PixelPoint = PixelPoint(x: int, y: int)

  /** The integer part of `x`: `x` rounded toward zero. */
  function Trunc(x: real): (r: int)
    ensures x >= 0.0 ==> 0 <= r && r as real <= x < r as real + 1.0
    ensures x < 0.0 ==> r <= 0 && r as real - 1.0 < x <= r as real
  {
    if x >= 0.0 then x.Floor else -((-x).Floor)
  }

  /** A metric length in pixels, truncated toward zero. */
  function PixelFromMetric(m: real): (r: int)
    ensures m >= 0.0 ==> 0 <= r && r as real <= m * PixelsPerMetric < r as real + 1.0
    ensures m < 0.0 ==> r <= 0 && r as real - 1.0 < m * PixelsPerMetric <= r as real
  {
    Trunc(m * PixelsPerMetric)
  }

  /** A pixel length in metric units. */
  function MetricFromPixel(p: int): (r: real)
    ensures r * PixelsPerMetric == p as real
  {
    p as real / PixelsPerMetric
  }

  /** The metric point of pixel (x, y); the y axis is flipped against the
      viewport height. */
  function MetricPositionFromPixel(x: int, y: int): (v: Vec2)
    ensures v.x * PixelsPerMetric == x as real
    ensures v.y * PixelsPerMetric == (Height - y) as real
  {
    Vec2(MetricFromPixel(x), MetricFromPixel(Height - y))
  }

  /** The pixel point of a metric point; the y axis is flipped back. */
  function PixelPositionFromMetric(v: Vec2): (p: PixelPoint)
    ensures p.x == Trunc(v.x * PixelsPerMetric)
    ensures Height - p.y == Trunc(v.y * PixelsPerMetric)
  {
    PixelPoint(PixelFromMetric(v.x), Height - PixelFromMetric(v.y))
  }

  /** Pixel -> metric -> pixel is exact for every integer pixel length. */
  lemma PixelRoundTrip(p: int)
    ensures PixelFromMetric(MetricFromPixel(p)) == p
  {
    assert MetricFromPixel(p) * PixelsPerMetric == p as real;
  }

  /** Pixel point -> metric point -> pixel point returns the original pair:
      the two y flips cancel. */
  lemma {:induction false} PositionRoundTrip(x: int, y: int)
    ensures PixelPositionFromMetric(MetricPositionFromPixel(x, y)) == PixelPoint(x, y)
  {
    PixelRoundTrip(x);
    PixelRoundTrip(Height - y);
  }

  /** Metric point -> pixel point -> metric point moves each coordinate toward
      zero by less than one pixel (1/40 of a metric unit). */
  lemma MetricRoundTrip(v: Vec2)
    ensures var w := MetricPositionFromPixel(PixelPositionFromMetric(v).x, PixelPositionFromMetric(v).y);
      TowardZeroWithinOnePixel(v.x, w.x) && TowardZeroWithinOnePixel(v.y, w.y)
  {
    var p := PixelPositionFromMetric(v);
    var w := MetricPositionFromPixel(p.x, p.y);
    assert w.y * PixelsPerMetric == Trunc(v.y * PixelsPerMetric) as real;
  }

  /** `w` lies between 0 and `m` (inclusive) and less than one pixel from `m`. */
  ghost predicate TowardZeroWithinOnePixel(m: real, w: real) {
    && (m >= 0.0 ==> 0.0 <= w <= m && (m - w) * PixelsPerMetric < 1.0)
    && (m < 0.0 ==> m <= w <= 0.0 && (w - m) * PixelsPerMetric < 1.0)
  }
}
