/** What the debug-draw callbacks compute before handing a shape to the
    rasteriser: the pixel vertices of a polygon, narrowed to 16-bit signed
    integers, and the 8-bit colour of a shape. */
module Draw {
  import opened Units

  /** The value an `int` takes when stored in a 16-bit signed integer
      (`Sint16`): reduced modulo 2^16 into [-32768, 32767]. */
  function ToSint16(x: int): (r: int)
    ensures -32768 <= r <= 32767
    ensures (r - x) % 65536 == 0
  {
    (x + 32768) % 65536 - 32768
  }

  /** A value already in 16-bit range is stored unchanged. */
  lemma ToSint16InRange(x: int)
    requires -32768 <= x <= 32767
    ensures ToSint16(x) == x
  {
  }

  /** `buildGraphicVertices`: converts the first `count` metric vertices to
      pixel positions and returns the x and the y coordinates as two parallel
      sequences of 16-bit values. */
  method BuildGraphicVertices(vertices: seq<Vec2>, count: int) returns (xs: seq<int>, ys: seq<int>)
    requires 0 <= count <= |vertices|
    ensures |xs| == count && |ys| == count
    ensures forall i :: 0 <= i < count ==>
      xs[i] == ToSint16(PixelPositionFromMetric(vertices[i]).x) &&
      ys[i] == ToSint16(PixelPositionFromMetric(vertices[i]).y)
  {
    xs, ys := [], [];
    var i := 0;
    while i < count
      invariant 0 <= i <= count
      invariant |xs| == i && |ys| == i
      invariant forall j :: 0 <= j < i ==>
        xs[j] == ToSint16(PixelPositionFromMetric(vertices[j]).x) &&
        ys[j] == ToSint16(PixelPositionFromMetric(vertices[j]).y)
    {
      var p := PixelPositionFromMetric(vertices[i]);
      xs := xs + [ToSint16(p.x)];
      ys := ys + [ToSint16(p.y)];
      i := i + 1;
    }
  }

  /** For vertices whose pixel coordinates fit 16 bits, the narrowed vertices
      are exactly the pixel positions, and each maps back to within one pixel
      of the original metric vertex. */
  lemma VerticesFaithful(vertices: seq<Vec2>, xs: seq<int>, ys: seq<int>, i: int)
    requires |xs| == |ys| == |vertices| && 0 <= i < |vertices|
    requires xs[i] == ToSint16(PixelPositionFromMetric(vertices[i]).x)
    requires ys[i] == ToSint16(PixelPositionFromMetric(vertices[i]).y)
    requires -32768 <= PixelPositionFromMetric(vertices[i]).x <= 32767
    requires -32768 <= PixelPositionFromMetric(vertices[i]).y <= 32767
    ensures PixelPoint(xs[i], ys[i]) == PixelPositionFromMetric(vertices[i])
    ensures var back := MetricPositionFromPixel(xs[i], ys[i]);
      TowardZeroWithinOnePixel(vertices[i].x, back.x) && TowardZeroWithinOnePixel(vertices[i].y, back.y)
  {
    ToSint16InRange(PixelPositionFromMetric(vertices[i]).x);
    ToSint16InRange(PixelPositionFromMetric(vertices[i]).y);
    MetricRoundTrip(vertices[i]);
  }

  /** A colour as the physics engine gives it: components nominally in [0, 1]. */
  datatype EngineColor = EngineColor(r: real, g: real, b: real, a: real)

  /** A colour as the rasteriser takes it: one byte per channel. */
  datatype PixelColor = PixelColor(r: int, g: int, b: int, a: int)

  /** One channel: the component scaled to 255 and truncated toward zero. */
  function Channel(c: real): (v: int)
    ensures 0.0 <= c <= 1.0 ==> 0 <= v <= 255 && v as real <= c * 255.0 < v as real + 1.0
  {
    Trunc(c * 255.0)
  }

  /** `convertColor` as written: the blue channel is taken from the green
      component. */
  function ConvertColor(c: EngineColor): (p: PixelColor)
    ensures p.b == p.g
    ensures p.r == Channel(c.r) && p.g == Channel(c.g) && p.a == Channel(c.a)
  {
    PixelColor(Channel(c.r), Channel(c.g), Channel(c.g), Channel(c.a))
  }

  /** The conversion as evidently intended: each channel from its own
      component. */
  function ConvertColorFixed(c: EngineColor): (p: PixelColor)
    ensures p.r == Channel(c.r) && p.g == Channel(c.g) && p.b == Channel(c.b) && p.a == Channel(c.a)
  {
    PixelColor(Channel(c.r), Channel(c.g), Channel(c.b), Channel(c.a))
  }

  /** The two conversions agree exactly when the blue and green components
      give the same byte; so pure blue is drawn black. */
  lemma ConvertColorDropsBlue(c: EngineColor)
    ensures ConvertColor(c) == ConvertColorFixed(c) <==> Channel(c.b) == Channel(c.g)
    ensures c == EngineColor(0.0, 0.0, 1.0, 1.0) ==>
      ConvertColor(c) == PixelColor(0, 0, 0, 255) && ConvertColorFixed(c) == PixelColor(0, 0, 255, 255)
  {
  }

  /** A byte colour as engine components, each byte divided by 255. */
  function EngineOf(p: PixelColor): (c: EngineColor)
    ensures c.b * 255.0 == p.b as real && c.g * 255.0 == p.g as real
  {
    EngineColor(p.r as real / 255.0, p.g as real / 255.0, p.b as real / 255.0, p.a as real / 255.0)
  }

  predicate IsByteColor(p: PixelColor) {
    0 <= p.r <= 255 && 0 <= p.g <= 255 && 0 <= p.b <= 255 && 0 <= p.a <= 255
  }

  /** The fixed conversion gives back every byte colour; the conversion as
      written gives it back only when its blue and green bytes are equal. */
  lemma ColorRoundTrip(p: PixelColor)
    requires IsByteColor(p)
    ensures ConvertColorFixed(EngineOf(p)) == p
    ensures ConvertColor(EngineOf(p)) == p <==> p.b == p.g
  {
    var c := EngineOf(p);
    assert Channel(c.r) == p.r && Channel(c.g) == p.g && Channel(c.b) == p.b && Channel(c.a) == p.a;
  }
}
