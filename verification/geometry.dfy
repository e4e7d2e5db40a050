/**
 Pixel geometry of the colour wheel.

 The wheel is a square of side `size` pixels. A pointer position is turned
 into a pixel offset from the wheel's bounding-rectangle origin, and that
 offset is divided by `size` before it reaches the hue/saturation helper.
 In the other direction the handle is placed by scaling normalised
 coordinates back up by `size`. Everything here is exact real arithmetic.
 */
module Geometry {

  /** A point or vector in the plane: client coordinates, rectangle origins,
      pixel offsets and normalised coordinates all use this shape. */
  datatype Point = Point(x: real, y: real) {

    function Plus(other: Point): Point {
      Point(x + other.x, y + other.y)
    }

    function Times(k: real): Point {
      Point(k * x, k * y)
    }
  }

  /** The CSS placement of the wheel's handle, in pixels from the wheel's
      top-left corner. */
  datatype HandleStyle = HandleStyle(top: real, left: real)

  /** Pixel offset of a client position from a rectangle origin. */
  function Offset(client: Point, origin: Point): (d: Point)
    ensures origin.Plus(d) == client
  {
    Point(client.x - origin.x, client.y - origin.y)
  }

  /** Divides a pixel offset by the wheel size: the result, scaled back by
      `size`, is the offset again, so it is the unique such point. */
  function Normalize(offset: Point, size: real): (p: Point)
    requires size > 0.0
    ensures p.x * size == offset.x && p.y * size == offset.y
  {
    Point(offset.x / size, offset.y / size)
  }

  /** The normalised coordinates handed to the hue/saturation helper for a
      pointer at `client` over a wheel whose rectangle starts at `origin`. */
  function WheelCoordinates(client: Point, origin: Point, size: real): (p: Point)
    requires size > 0.0
    ensures origin.Plus(p.Times(size)) == client
  {
    Normalize(Offset(client, origin), size)
  }

  /** Handle placement for normalised coordinates `p`: `top` follows `y`
      and `left` follows `x`, both scaled by the wheel size. */
  function Handle(p: Point, size: real): (h: HandleStyle)
    requires size > 0.0
    ensures Normalize(Point(h.left, h.top), size) == p
  {
    HandleStyle(p.y * size, p.x * size)
  }

  /** Placing the handle at a normalised point and reading it back as a
      pointer offset gives that point again, and conversely. */
  lemma HandleRoundTrip(p: Point, offset: Point, size: real)
    requires size > 0.0
    ensures Normalize(Point(Handle(p, size).left, Handle(p, size).top), size) == p
    ensures var q := Normalize(offset, size); Point(Handle(q, size).left, Handle(q, size).top) == offset
  {
  }

  /** The rectangle origin maps to (0, 0), the opposite corner
      origin + (size, size) maps to (1, 1), and the middle of the right
      edge maps to (1, 0.5). */
  lemma WheelCorners(origin: Point, size: real)
    requires size > 0.0
    ensures WheelCoordinates(origin, origin, size) == Point(0.0, 0.0)
    ensures WheelCoordinates(origin.Plus(Point(size, size)), origin, size) == Point(1.0, 1.0)
    ensures WheelCoordinates(origin.Plus(Point(size, size / 2.0)), origin, size) == Point(1.0, 0.5)
  {
  }

  /** Normalisation is linear in the offset. */
  lemma NormalizeLinear(a: Point, b: Point, k: real, size: real)
    requires size > 0.0
    ensures Normalize(a.Plus(b), size) == Normalize(a, size).Plus(Normalize(b, size))
    ensures Normalize(a.Times(k), size) == Normalize(a, size).Times(k)
  {
  }

  /** Dividing by a positive size preserves order. */
  lemma DivideMonotone(u: real, v: real, size: real)
    requires size > 0.0 && u <= v
    ensures u / size <= v / size
  {
    var p := u / size;
    var q := v / size;
    assert p * size == u && q * size == v;
    assert (q - p) * size == v - u;
  }

  /** Normalisation preserves the order of each coordinate. */
  lemma NormalizeMonotone(a: Point, b: Point, size: real)
    requires size > 0.0
    ensures a.x <= b.x ==> Normalize(a, size).x <= Normalize(b, size).x
    ensures a.y <= b.y ==> Normalize(a, size).y <= Normalize(b, size).y
  {
    assert Normalize(a, size) == Point(a.x / size, a.y / size);
    assert Normalize(b, size) == Point(b.x / size, b.y / size);
    if a.x <= b.x {
      DivideMonotone(a.x, b.x, size);
    }
    if a.y <= b.y {
      DivideMonotone(a.y, b.y, size);
    }
  }

  /** Offsets inside the wheel's square land in the unit square. */
  lemma NormalizeUnitSquare(a: Point, size: real)
    requires size > 0.0
    requires 0.0 <= a.x <= size && 0.0 <= a.y <= size
    ensures 0.0 <= Normalize(a, size).x <= 1.0 && 0.0 <= Normalize(a, size).y <= 1.0
  {
    assert Normalize(a, size) == Point(a.x / size, a.y / size);
    DivideMonotone(0.0, a.x, size);
    DivideMonotone(a.x, size, size);
    DivideMonotone(0.0, a.y, size);
    DivideMonotone(a.y, size, size);
  }
}
