/**
 Plane geometry shared by the drawing tools: `QPointF`, `QRectF` and `QColor`
 over exact reals and integers.
 */
module Geometry {

  /** A scene point, `QPointF(x, y)`, also used as a 2-D vector. */
  datatype Point = Point(x: real, y: real)

  /** `QRectF(x, y, w, h)`: the origin followed by width and height. */
  datatype Rect = Rect(x: real, y: real, w: real, h: real)

  /** `QColor(r, g, b)`. */
  datatype Color = Rgb(r: int, g: int, b: int)

  const Black := Rgb(0, 0, 0)
  const Green := Rgb(0, 255, 0)

  function Add(p: Point, q: Point): Point {
    Point(p.x + q.x, p.y + q.y)
  }

  function Sub(p: Point, q: Point): Point {
    Point(p.x - q.x, p.y - q.y)
  }

  function Scale(k: real, p: Point): Point {
    Point(k * p.x, k * p.y)
  }

  function Midpoint(p: Point, q: Point): Point {
    Point((p.x + q.x) / 2.0, (p.y + q.y) / 2.0)
  }

  function Min(a: real, b: real): real {
    if a <= b then a else b
  }

  function Max(a: real, b: real): real {
    if a >= b then a else b
  }

  /** Python's `min` over a four-element list. */
  function Min4(a: real, b: real, c: real, d: real): real {
    Min(Min(Min(a, b), c), d)
  }

  /** Python's `max` over a four-element list. */
  function Max4(a: real, b: real, c: real, d: real): real {
    Max(Max(Max(a, b), c), d)
  }

  function Right(r: Rect): real {
    r.x + r.w
  }

  function Bottom(r: Rect): real {
    r.y + r.h
  }

  function Center(r: Rect): Point {
    Point(r.x + r.w / 2.0, r.y + r.h / 2.0)
  }

  /** A point lies in the closed rectangle `r` (width and height non-negative). */
  predicate Contains(r: Rect, p: Point) {
    r.x <= p.x <= Right(r) && r.y <= p.y <= Bottom(r)
  }

  /** Rectangle `inner` lies inside rectangle `outer`. */
  predicate ContainsRect(outer: Rect, inner: Rect) {
    outer.x <= inner.x && Right(inner) <= Right(outer) &&
    outer.y <= inner.y && Bottom(inner) <= Bottom(outer)
  }
}
