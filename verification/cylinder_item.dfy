/**
 The capsule a brush movement leaves behind: `CylinderItem`, which appears three
 times with the same geometry (dl_markup/CylinderItem.py, dl_markup/BrushTool.py
 and dl_markup/scene.py). It is drawn as two circles of the brush radius around
 the segment's endpoints and the quadrilateral joining them.

 `QVector2D.normalize` needs a square root, so the normalised direction of the
 segment is an input here rather than something computed.
 */
module CylinderItem {
  import opened Wrappers
  import opened Geometry

  /** `CylinderItem(begin, end, radius, pen, brush)`; pen and brush default to `None`. */
  datatype Cylinder = Cylinder(begin: Point, end: Point, radius: real, pen: Option<Color>, brush: Option<Color>)

  datatype Outline = Ellipse(bounds: Rect) | Polygon(corners: seq<Point>)

  /** A child graphics item: its outline plus the pen and brush it was given. */
  datatype Part = Part(outline: Outline, pen: Option<Color>, brush: Option<Color>)

  /** The three children built by `__create_parts`. */
  datatype Parts = Parts(ellipse1: Part, ellipse2: Part, polygon: Part)

  /** The same segment drawn from the other end. */
  function Reversed(c: Cylinder): Cylinder {
    c.(begin := c.end, end := c.begin)
  }

  /** The `QRectF` a `QGraphicsEllipseItem` of the given radius about `center` is built with. */
  function CircleRect(center: Point, radius: real): (r: Rect)
    ensures Center(r) == center
    ensures r.w == r.h == 2.0 * radius
  {
    Rect(center.x - radius, center.y - radius, 2.0 * radius, 2.0 * radius)
  }

  /** `norm_vec`: the direction turned a quarter turn counter-clockwise. */
  function Normal(dir: Point): Point {
    Point(-dir.y, dir.x)
  }

  /** The quadrilateral's corners, `B + rN, E + rN, E - rN, B - rN`. */
  function Corners(c: Cylinder, dir: Point): seq<Point> {
    var offset := Scale(c.radius, Normal(dir));
    [Add(c.begin, offset), Add(c.end, offset), Sub(c.end, offset), Sub(c.begin, offset)]
  }

  /**
   `__create_parts`: one circle about each endpoint and the quadrilateral whose
   short sides are centred on the endpoints, across the segment; all three
   share the item's pen and brush.
   */
  function CreateParts(c: Cylinder, dir: Point): (r: Parts)
    ensures r.ellipse1.outline == Ellipse(CircleRect(c.begin, c.radius))
    ensures r.ellipse2.outline == Ellipse(CircleRect(c.end, c.radius))
    ensures r.polygon.outline.Polygon? && |r.polygon.outline.corners| == 4
    ensures var q := r.polygon.outline.corners;
      && Midpoint(q[0], q[3]) == c.begin
      && Midpoint(q[1], q[2]) == c.end
      && Sub(q[1], q[0]) == Sub(c.end, c.begin)
      && Sub(q[2], q[3]) == Sub(c.end, c.begin)
      && Sub(q[0], q[3]) == Scale(2.0 * c.radius, Normal(dir))
    ensures forall p :: p in [r.ellipse1, r.ellipse2, r.polygon] ==> p.pen == c.pen && p.brush == c.brush
  {
    Parts(
      Part(Ellipse(CircleRect(c.begin, c.radius)), c.pen, c.brush),
      Part(Ellipse(CircleRect(c.end, c.radius)), c.pen, c.brush),
      Part(Polygon(Corners(c, dir)), c.pen, c.brush))
  }

  /**
   `boundingRect` exactly as the source builds it: the minima of the four
   x and y extremes, then their maxima, passed to `QRectF(x, y, w, h)` where
   Qt expects a width and a height.
   */
  function BoundingRectAsWritten(c: Cylinder): (r: Rect)
    ensures c.radius >= 0.0 ==>
      && r.x == Min(c.begin.x, c.end.x) - c.radius
      && r.y == Min(c.begin.y, c.end.y) - c.radius
      && r.w == Max(c.begin.x, c.end.x) + c.radius
      && r.h == Max(c.begin.y, c.end.y) + c.radius
  {
    var (b, e, rad) := (c.begin, c.end, c.radius);
    Rect(Min4(b.x - rad, b.x + rad, e.x - rad, e.x + rad),
         Min4(b.y - rad, b.y + rad, e.y - rad, e.y + rad),
         Max4(b.x - rad, b.x + rad, e.x - rad, e.x + rad),
         Max4(b.y - rad, b.y + rad, e.y - rad, e.y + rad))
  }

  /**
   The box the code evidently intends: the same extremes, with the spans as
   width and height.
   */
  function BoundingRect(c: Cylinder): (r: Rect)
    ensures c.radius >= 0.0 ==>
      && ContainsRect(r, CircleRect(c.begin, c.radius))
      && ContainsRect(r, CircleRect(c.end, c.radius))
    ensures c.radius >= 0.0 ==>
      && r.x == Min(CircleRect(c.begin, c.radius).x, CircleRect(c.end, c.radius).x)
      && r.y == Min(CircleRect(c.begin, c.radius).y, CircleRect(c.end, c.radius).y)
      && Right(r) == Max(Right(CircleRect(c.begin, c.radius)), Right(CircleRect(c.end, c.radius)))
      && Bottom(r) == Max(Bottom(CircleRect(c.begin, c.radius)), Bottom(CircleRect(c.end, c.radius)))
  {
    var (b, e, rad) := (c.begin, c.end, c.radius);
    var x := Min4(b.x - rad, b.x + rad, e.x - rad, e.x + rad);
    var y := Min4(b.y - rad, b.y + rad, e.y - rad, e.y + rad);
    Rect(x, y,
         Max4(b.x - rad, b.x + rad, e.x - rad, e.x + rad) - x,
         Max4(b.y - rad, b.y + rad, e.y - rad, e.y + rad) - y)
  }

  // ---------------------------------------------------------------- lemmas

  /** The source's bounding rectangle does not depend on the drawing direction, the pen or the brush. */
  lemma BoundingRectAsWrittenSymmetric(c: Cylinder, pen: Option<Color>, brush: Option<Color>)
    ensures BoundingRectAsWritten(Reversed(c)) == BoundingRectAsWritten(c)
    ensures BoundingRectAsWritten(c.(pen := pen, brush := brush)) == BoundingRectAsWritten(c)
  {
  }

  /** The corrected bounding box does not depend on the drawing direction, the pen or the brush. */
  lemma BoundingRectSymmetric(c: Cylinder, pen: Option<Color>, brush: Option<Color>)
    ensures BoundingRect(Reversed(c)) == BoundingRect(c)
    ensures BoundingRect(c.(pen := pen, brush := brush)) == BoundingRect(c)
  {
  }

  /**
   The source's rectangle misses part of the capsule: for the stroke from (0, 0)
   to (10, 0) with radius 5 it reaches x = 10 only, while the circle around the
   end reaches x = 15.
   */
  lemma BoundingRectAsWrittenMissesEnd()
    ensures var c := Cylinder(Point(0.0, 0.0), Point(10.0, 0.0), 5.0, None, None);
      && Right(BoundingRectAsWritten(c)) == 10.0
      && Right(CircleRect(c.end, c.radius)) == 15.0
      && !ContainsRect(BoundingRectAsWritten(c), CircleRect(c.end, c.radius))
  {
  }

  /** The two rectangles share their origin; the source passes the far corner where Qt expects the size. */
  lemma AsWrittenPassesFarCorner(c: Cylinder)
    ensures BoundingRectAsWritten(c).x == BoundingRect(c).x
    ensures BoundingRectAsWritten(c).y == BoundingRect(c).y
    ensures BoundingRectAsWritten(c).w == Right(BoundingRect(c))
    ensures BoundingRectAsWritten(c).h == Bottom(BoundingRect(c))
  {
  }

  /** A number whose square is at most one lies in [-1, 1]. */
  lemma UnitBound(a: real)
    requires a * a <= 1.0
    ensures -1.0 <= a <= 1.0
  {
    assert (1.0 - a) * (1.0 + a) == 1.0 - a * a;
  }

  /** Scaling a coordinate in [-1, 1] by a non-negative radius stays within the radius. */
  lemma ScaledBound(rad: real, a: real)
    requires rad >= 0.0 && -1.0 <= a <= 1.0
    ensures -rad <= rad * a <= rad
  {
    assert rad * (1.0 - a) >= 0.0;
    assert rad * (1.0 + a) >= 0.0;
  }

  /** `p` lies in the square of half-side `rad` about `q`. */
  predicate Near(p: Point, q: Point, rad: real) {
    q.x - rad <= p.x <= q.x + rad && q.y - rad <= p.y <= q.y + rad
  }

  lemma NearEndpointInBox(c: Cylinder, p: Point)
    requires c.radius >= 0.0
    requires Near(p, c.begin, c.radius) || Near(p, c.end, c.radius)
    ensures Contains(BoundingRect(c), p)
  {
  }

  /** Each corner lies within the radius of its endpoint, along both axes. */
  lemma CornersNear(c: Cylinder, dir: Point)
    requires c.radius >= 0.0
    requires dir.x * dir.x <= 1.0 && dir.y * dir.y <= 1.0
    ensures var q := Corners(c, dir);
      Near(q[0], c.begin, c.radius) && Near(q[1], c.end, c.radius) &&
      Near(q[2], c.end, c.radius) && Near(q[3], c.begin, c.radius)
  {
    UnitBound(dir.x);
    UnitBound(dir.y);
    ScaledBound(c.radius, -dir.y);
    ScaledBound(c.radius, dir.x);
  }

  /**
   The corrected box covers the whole capsule: both circles and the four corners
   of the quadrilateral, for a unit direction (or the zero vector that
   normalising a zero-length segment leaves behind).
   */
  lemma BoundingRectCoversCapsule(c: Cylinder, dir: Point)
    requires c.radius >= 0.0
    requires dir.x * dir.x + dir.y * dir.y <= 1.0
    ensures ContainsRect(BoundingRect(c), CircleRect(c.begin, c.radius))
    ensures ContainsRect(BoundingRect(c), CircleRect(c.end, c.radius))
    ensures forall i :: 0 <= i < 4 ==> Contains(BoundingRect(c), Corners(c, dir)[i])
  {
    assert dir.x * dir.x >= 0.0 && dir.y * dir.y >= 0.0;
    CornersNear(c, dir);
    var q := Corners(c, dir);
    NearEndpointInBox(c, q[0]);
    NearEndpointInBox(c, q[1]);
    NearEndpointInBox(c, q[2]);
    NearEndpointInBox(c, q[3]);
  }
}
