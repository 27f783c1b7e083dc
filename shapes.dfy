/** The editor's shape predicates (shapes.js): containment of a point in a rectangle or a
    circle and the overlap tests between them. A rectangle is given by its centre and its
    half-width and half-height. */
module Shapes {
  import opened Geometry

  /** `distSq(x, y, x2, y2)`. */
  function DistSq(x: real, y: real, x2: real, y2: real): (r: real)
    ensures r >= 0.0
  {
    var dx, dy := x2 - x, y2 - y;
    SquareNonNeg(dx, dx * dx);
    SquareNonNeg(dy, dy * dy);
    dx * dx + dy * dy
  }

  /** The squared distance is the same measured from either end and vanishes exactly
      between equal points. */
  lemma DistSqSymmetricZero(x: real, y: real, x2: real, y2: real)
    ensures DistSq(x, y, x2, y2) == DistSq(x2, y2, x, y)
    ensures DistSq(x, y, x2, y2) == 0.0 <==> x == x2 && y == y2
  {
    assert (x2 - x) * (x2 - x) == (x - x2) * (x - x2);
    assert (y2 - y) * (y2 - y) == (y - y2) * (y - y2);
    if DistSq(x, y, x2, y2) == 0.0 {
      SquaresZero(x2 - x, y2 - y, DistSq(x, y, x2, y2));
    }
  }

  /** `Rectangle.contains(x, y, w, h, px, py)`, four comparisons. */
  function RectContains(x: real, y: real, w: real, h: real, px: real, py: real): (b: bool)
    ensures b <==> Abs(px - x) <= w && Abs(py - y) <= h
  {
    px >= x - w && px <= x + w && py >= y - h && py <= y + h
  }

  /** `Circle.contains(x, y, r, px, py)`. */
  function CircleContains(x: real, y: real, r: real, px: real, py: real): bool
  {
    DistSq(x, y, px, py) <= r * r
  }

  datatype Shape =
    | Rectangle(pos: Vec, w: real, h: real)
    | Circle(pos: Vec, r: real)
    | Plain(pos: Vec)
  {
    /** `contains(point)`, which tests the point's position. */
    predicate Contains(point: Vec)
      requires !Plain?
    {
      match this
      case Rectangle(p, w, h) => RectContains(p.x, p.y, w, h, point.x, point.y)
      case Circle(p, r) => CircleContains(p.x, p.y, r, point.x, point.y)
    }

    /** `intersectsRect(x, y, w, h)`. For a rectangle: the closed overlap test. For a
        circle: the source's corner test, in which the ternary takes the whole `||`
        chain as its condition. */
    predicate IntersectsRect(x: real, y: real, w: real, h: real)
      requires !Plain?
    {
      match this
      case Rectangle(p, w0, h0) =>
        !(x - w > p.x + w0 || x + w < p.x - w0 || y - h > p.y + h0 || y + h < p.y - h0)
      case Circle(p, r) =>
        var xDist, yDist := Abs(p.x - x), Abs(p.y - y);
        if xDist <= w || yDist <= h || (xDist > r + w || yDist > r + h) then false
        else (xDist - w) * (xDist - w) + (yDist - h) * (yDist - h) <= r * r
    }

    /** `intersectsCircle(x, y, r)`. For a circle: the distance test. For a rectangle:
        the same corner test as the circle's `intersectsRect`, with the same precedence. */
    predicate IntersectsCircle(x: real, y: real, r: real)
      requires !Plain?
    {
      match this
      case Rectangle(p, w, h) =>
        var xDist, yDist := Abs(p.x - x), Abs(p.y - y);
        if xDist <= w || yDist <= h || (xDist > r + w || yDist > r + h) then false
        else (xDist - w) * (xDist - w) + (yDist - h) * (yDist - h) <= r * r
      case Circle(p, r0) => DistSq(p.x, p.y, x, y) <= (r0 + r) * (r0 + r)
    }

    /** The `area` getter. */
    function Area(): (a: real)
      requires !Plain?
      ensures Rectangle? && w >= 0.0 && h >= 0.0 ==> a >= 0.0
      ensures Circle? ==> a >= 0.0
    {
      match this
      case Rectangle(_, w, h) =>
        var a := w * h * 4.0;
        assert w >= 0.0 && h >= 0.0 ==> a >= 0.0 by {
          if w >= 0.0 && h >= 0.0 { MulNonNeg(2.0 * w, 2.0 * h, a); }
        }
        a
      case Circle(_, r) =>
        SquareNonNeg(r, r * r);
        Pi * (r * r)
    }
  }

  /** `Shape.doIntersect(a, b)`: dispatch on the kind of `b`; for a plain shape there is no
      answer (and `a` is never asked). */
  function DoIntersect(a: Shape, b: Shape): (r: Option<bool>)
    requires b.Plain? || !a.Plain?
    ensures r.None? <==> b.Plain?
  {
    match b
    case Rectangle(p, w, h) => Some(a.IntersectsRect(p.x, p.y, w, h))
    case Circle(p, r) => Some(a.IntersectsCircle(p.x, p.y, r))
    case Plain(_) => None
  }

  /** Two rectangles overlap exactly when their centres are no further apart on each axis
      than the sum of their half-extents; so the test does not depend on which is asked. */
  lemma RectOverlap(a: Shape, b: Shape)
    requires a.Rectangle? && b.Rectangle?
    ensures a.IntersectsRect(b.pos.x, b.pos.y, b.w, b.h)
        <==> Abs(b.pos.x - a.pos.x) <= a.w + b.w && Abs(b.pos.y - a.pos.y) <= a.h + b.h
    ensures DoIntersect(a, b) == DoIntersect(b, a)
  {
  }

  /** Two circles overlap when the distance of their centres is at most the sum of their
      radii, whichever of them is asked. */
  lemma CircleOverlapSymmetric(a: Shape, b: Shape)
    requires a.Circle? && b.Circle?
    ensures DoIntersect(a, b) == DoIntersect(b, a)
  {
    DistSqSymmetricZero(a.pos.x, a.pos.y, b.pos.x, b.pos.y);
    assert (a.r + b.r) * (a.r + b.r) == (b.r + a.r) * (b.r + a.r);
  }

  /** Containment is overlap with a degenerate shape at the point: a rectangle of zero
      extent, or a circle of zero radius. */
  lemma ContainsIsDegenerateOverlap(s: Shape, point: Vec)
    requires !s.Plain?
    ensures s.Rectangle? ==> (s.Contains(point) <==> s.IntersectsRect(point.x, point.y, 0.0, 0.0))
    ensures s.Circle? ==> (s.Contains(point) <==> s.IntersectsCircle(point.x, point.y, 0.0))
  {
  }

  /** Because of the operator precedence, the circle-rectangle test is false whenever the
      circle's centre lies within the rectangle's horizontal or vertical band, including a
      centre inside the rectangle itself. */
  lemma CircleRectBandsMiss(c: Shape, x: real, y: real, w: real, h: real)
    requires c.Circle?
    requires Abs(c.pos.x - x) <= w || Abs(c.pos.y - y) <= h
    ensures !c.IntersectsRect(x, y, w, h)
    ensures !Rectangle(Vec(x, y), w, h).IntersectsCircle(c.pos.x, c.pos.y, c.r)
  {
  }

  /** What the circle-rectangle test does decide, for a radius that is not negative: the
      centre lies outside both bands and the rectangle's nearest corner is within the
      circle (the "too far" guard never changes the answer). Asked of the rectangle, the
      test gives the same answer. */
  lemma CircleRectCorner(c: Shape, x: real, y: real, w: real, h: real)
    requires c.Circle? && c.r >= 0.0
    ensures c.IntersectsRect(x, y, w, h) <==>
      var xDist, yDist := Abs(c.pos.x - x), Abs(c.pos.y - y);
      xDist > w && yDist > h &&
      (xDist - w) * (xDist - w) + (yDist - h) * (yDist - h) <= c.r * c.r
    ensures c.IntersectsRect(x, y, w, h) == Rectangle(Vec(x, y), w, h).IntersectsCircle(c.pos.x, c.pos.y, c.r)
  {
    var xDist, yDist := Abs(c.pos.x - x), Abs(c.pos.y - y);
    assert Abs(x - c.pos.x) == xDist && Abs(y - c.pos.y) == yDist;
    var r := c.r;
    if xDist > w && yDist > h {
      var dx, dy := xDist - w, yDist - h;
      var sx, sy, rr := dx * dx, dy * dy, r * r;
      SquareNonNeg(dx, sx);
      SquareNonNeg(dy, sy);
      if dx > r {
        SquareLess(r, dx, rr, sx);
      }
      if dy > r {
        SquareLess(r, dy, rr, sy);
      }
    }
  }

  /** Squaring keeps a strict order between non-negative numbers. */
  lemma SquareLess(a: real, b: real, sa: real, sb: real)
    requires 0.0 <= a < b && sa == a * a && sb == b * b
    ensures sa < sb
  {
    MulPos(b - a, b + a, (b - a) * (b + a));
    assert (b - a) * (b + a) == sb - sa;
  }

  /** A rectangle's area is the product of its full width and height. */
  lemma RectangleArea(p: Vec, w: real, h: real)
    ensures Rectangle(p, w, h).Area() == (2.0 * w) * (2.0 * h)
  {
  }
}
