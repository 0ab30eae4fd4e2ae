/** Plane geometry and the fixed thresholds used by the board analyzer. */
module Geometry {

  /** An integer image coordinate, as read from a polygon approximation. */
  datatype Corner = Corner(x: int, y: int)

  /** A real image coordinate: a centroid, an interpolated point, a die centre. */
  datatype Point = Point(x: real, y: real)

  /** One of the two coordinates of a point or a corner. */
  datatype Axis = X | Y

  function CornerKey(c: Corner, a: Axis): int
  {
    match a
    case X => c.x
    case Y => c.y
  }

  function Coord(p: Point, a: Axis): real
  {
    match a
    case X => p.x
    case Y => p.y
  }

  function ToPoint(c: Corner): Point
  {
    Point(c.x as real, c.y as real)
  }

  /** Squared Euclidean distance; comparing it with a squared radius
      replaces comparing `Math.hypot` with the radius. */
  function Dist2(p: Point, q: Point): (d: real)
    ensures d >= 0.0
    ensures p == q ==> d == 0.0
  {
    var dx := p.x - q.x;
    var dy := p.y - q.y;
    SquarePositive(dx);
    SquarePositive(dy);
    dx * dx + dy * dy
  }

  lemma SquarePositive(r: real)
    ensures r * r >= 0.0
    ensures r != 0.0 ==> r * r > 0.0
  {
    if r < 0.0 {
      assert r * r == (-r) * (-r);
    }
  }

  /** The 50-pixel radius used both to match a checker to a point
      and to absorb a pip into a die, squared. */
  const RadiusSquared: real := 2500.0

  /** A checker blob must have an area strictly above this. */
  const CheckerMinArea: real := 100.0

  /** A pip blob must have an area strictly between these two. */
  const DotMinArea: real := 20.0
  const DotMaxArea: real := 100.0

  /** `distance < 50`, stated on squared distances. */
  predicate Near(p: Point, q: Point)
  {
    Dist2(p, q) < RadiusSquared
  }
}
