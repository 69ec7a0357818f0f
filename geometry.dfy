/**
  Axis-aligned rectangles in the (x1, y1, x2, y2) form that the detector, the
  box manager and both overlap metrics pass around, and the arithmetic they
  share: extents, areas, intersections, point containment and Python's int().
 */
module Geometry {

  /** A rectangle given by two opposite corners: the tuple (x1, y1, x2, y2). */
  datatype Rect = Rect(x1: real, y1: real, x2: real, y2: real)

  /** The same tuple after every coordinate went through int(). */
  datatype IntRect = IntRect(x1: int, y1: int, x2: int, y2: int)

  /** One row of the detector's output: a box, its confidence and its class id. */
  datatype Detection = Detection(x1: real, y1: real, x2: real, y2: real, conf: real, cls: real) {
    /** The slice box[:4]. */
    function Box(): Rect {
      Rect(x1, y1, x2, y2)
    }
  }

  /** Corners in order, possibly with zero width or height. */
  predicate WellFormed(r: Rect) {
    r.x1 <= r.x2 && r.y1 <= r.y2
  }

  /** Corners strictly in order: the form every BoundingBox is kept in. */
  predicate Normalized(r: Rect) {
    r.x1 < r.x2 && r.y1 < r.y2
  }

  function Width(r: Rect): real {
    r.x2 - r.x1
  }

  function Height(r: Rect): real {
    r.y2 - r.y1
  }

  /** (x2 - x1) * (y2 - y1), as every area in the source is computed. */
  function Area(r: Rect): (a: real)
    ensures WellFormed(r) ==> a >= 0.0
    ensures Normalized(r) ==> a > 0.0
  {
    Width(r) * Height(r)
  }

  /** Python's built-in max and min on two numbers. */
  function Max(a: real, b: real): real {
    if b > a then b else a
  }

  function Min(a: real, b: real): real {
    if b < a then b else a
  }

  function Abs(a: real): (r: real)
    ensures r >= 0.0 && (r == a || r == -a)
  {
    if a < 0.0 then -a else a
  }

  /** Width of the overlap of a and b, clamped at zero. */
  function InterWidth(a: Rect, b: Rect): real {
    Max(0.0, Min(a.x2, b.x2) - Max(a.x1, b.x1))
  }

  /** Height of the overlap of a and b, clamped at zero. */
  function InterHeight(a: Rect, b: Rect): real {
    Max(0.0, Min(a.y2, b.y2) - Max(a.y1, b.y1))
  }

  /** Area of the overlap of a and b: zero when they are disjoint or only touch. */
  function IntersectionArea(a: Rect, b: Rect): (r: real)
    ensures r >= 0.0
    ensures r > 0.0 <==> InterWidth(a, b) > 0.0 && InterHeight(a, b) > 0.0
  {
    InterWidth(a, b) * InterHeight(a, b)
  }

  /** a <= b and c <= d over non-negative reals give a * c <= b * d. */
  lemma MulMonotone(a: real, b: real, c: real, d: real)
    requires 0.0 <= a <= b && 0.0 <= c <= d
    ensures a * c <= b * d
  {
    assert a * c <= b * c;
    assert b * c <= b * d;
  }

  /** The overlap is the same seen from either rectangle. */
  lemma IntersectionSymmetric(a: Rect, b: Rect)
    ensures IntersectionArea(a, b) == IntersectionArea(b, a)
  {
    assert InterWidth(a, b) == InterWidth(b, a);
    assert InterHeight(a, b) == InterHeight(b, a);
  }

  /** The overlap never exceeds the area of a rectangle with corners in order. */
  lemma IntersectionWithinArea(a: Rect, b: Rect)
    requires WellFormed(a)
    ensures IntersectionArea(a, b) <= Area(a)
  {
    assert InterWidth(a, b) <= Width(a);
    assert InterHeight(a, b) <= Height(a);
    MulMonotone(InterWidth(a, b), Width(a), InterHeight(a, b), Height(a));
  }

  /** Rectangles separated along x or y (touching included) have no overlap. */
  lemma DisjointNoIntersection(a: Rect, b: Rect)
    requires a.x2 <= b.x1 || b.x2 <= a.x1 || a.y2 <= b.y1 || b.y2 <= a.y1
    ensures IntersectionArea(a, b) == 0.0
  {
    assert InterWidth(a, b) == 0.0 || InterHeight(a, b) == 0.0;
  }

  /** a lies inside b. */
  predicate Inside(a: Rect, b: Rect) {
    b.x1 <= a.x1 && a.x2 <= b.x2 && b.y1 <= a.y1 && a.y2 <= b.y2
  }

  /** A rectangle inside another overlaps it with its whole area, which is the smaller one. */
  lemma InsideIntersection(a: Rect, b: Rect)
    requires WellFormed(a) && Inside(a, b)
    ensures IntersectionArea(a, b) == Area(a) && Area(a) <= Area(b)
  {
    assert InterWidth(a, b) == Width(a);
    assert InterHeight(a, b) == Height(a);
    MulMonotone(Width(a), Width(b), Height(a), Height(b));
  }

  /** x1 - t <= x <= x2 + t and y1 - t <= y <= y2 + t: edges count as inside. */
  predicate ContainsPoint(r: Rect, x: real, y: real, tolerance: real) {
    r.x1 - tolerance <= x <= r.x2 + tolerance && r.y1 - tolerance <= y <= r.y2 + tolerance
  }

  /** A larger tolerance never loses a point. */
  lemma ContainsMonotone(r: Rect, x: real, y: real, t: real, t': real)
    requires t <= t' && ContainsPoint(r, x, y, t)
    ensures ContainsPoint(r, x, y, t')
  {
  }

  /** All four corners of a rectangle with corners in order lie in it at zero tolerance. */
  lemma CornersContained(r: Rect)
    requires WellFormed(r)
    ensures ContainsPoint(r, r.x1, r.y1, 0.0) && ContainsPoint(r, r.x2, r.y1, 0.0)
    ensures ContainsPoint(r, r.x1, r.y2, 0.0) && ContainsPoint(r, r.x2, r.y2, 0.0)
  {
  }

  /** The rectangle shifted by (dx, dy). */
  function Translate(r: Rect, dx: real, dy: real): (t: Rect)
    ensures Width(t) == Width(r) && Height(t) == Height(r)
  {
    Rect(r.x1 + dx, r.y1 + dy, r.x2 + dx, r.y2 + dy)
  }

  /** Shifting back by the opposite vector restores every coordinate. */
  lemma TranslateInverse(r: Rect, dx: real, dy: real)
    ensures Translate(Translate(r, dx, dy), -dx, -dy) == r
  {
  }

  /** Python's int() on a number: truncation toward zero. */
  function Trunc(x: real): (n: int)
    ensures x >= 0.0 ==> n == x.Floor
    ensures x >= 0.0 ==> 0 <= n && n as real <= x < n as real + 1.0
    ensures x < 0.0 ==> n <= 0 && n as real - 1.0 < x <= n as real
  {
    if x >= 0.0 then x.Floor else -((-x).Floor)
  }

  /** tuple(map(int, box)). */
  function TruncRect(r: Rect): IntRect {
    IntRect(Trunc(r.x1), Trunc(r.y1), Trunc(r.x2), Trunc(r.y2))
  }
}
