/** Points and rectangles of kernel/graphics.hpp. */
module Geometry {
  import opened Basics

  datatype Point = Point(x: int, y: int) {

    function Plus(q: Point): Point
    {
      Point(x + q.x, y + q.y)
    }

    function Minus(q: Point): Point
    {
      Point(x - q.x, y - q.y)
    }
  }

  datatype Rect = Rect(pos: Point, size: Point) {

    predicate Contains(p: Point)
    {
      pos.x <= p.x < pos.x + size.x && pos.y <= p.y < pos.y + size.y
    }

    predicate Proper()
    {
      size.x >= 0 && size.y >= 0
    }
  }

  function ElementMax(p: Point, q: Point): Point
  {
    Point(Max(p.x, q.x), Max(p.y, q.y))
  }

  function ElementMin(p: Point, q: Point): Point
  {
    Point(Min(p.x, q.x), Min(p.y, q.y))
  }

  /** operator& on rectangles: the points in both, whatever the signs of the sizes. */
  function Intersection(a: Rect, b: Rect): (r: Rect)
    ensures forall p: Point :: r.Contains(p) <==> a.Contains(p) && b.Contains(p)
    ensures a.Proper() && b.Proper() ==> r.Proper()
  {
    var aEnd, bEnd := a.pos.Plus(a.size), b.pos.Plus(b.size);
    if aEnd.x < b.pos.x || aEnd.y < b.pos.y || bEnd.x < a.pos.x || bEnd.y < a.pos.y then
      Rect(Point(0, 0), Point(0, 0))
    else
      var pos := ElementMax(a.pos, b.pos);
      Rect(pos, ElementMin(aEnd, bEnd).Minus(pos))
  }
}
