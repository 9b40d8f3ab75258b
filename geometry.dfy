/** Integer points on the board and on the abstract projection grid. */
module Geometry {
  /** A cell coordinate: `x` indexes rows, `y` indexes columns. */
  datatype Point = Point(x: int, y: int)

  /** Component-wise translation. The game adds points without defining `+`; this is its evident meaning. */
  function Add(p: Point, q: Point): Point {
    Point(p.x + q.x, p.y + q.y)
  }

  /** Component-wise difference, the inverse of `Add`. */
  function Sub(p: Point, q: Point): Point {
    Point(p.x - q.x, p.y - q.y)
  }

  /** Translating by `q` and back again returns the original point, in either order. */
  lemma AddSubRoundTrip(p: Point, q: Point)
    ensures Sub(Add(p, q), q) == p
    ensures Add(Sub(p, q), q) == p
  {
  }

  /** Translation by a fixed vector is injective. */
  lemma AddInjective(p: Point, p': Point, d: Point)
    ensures Add(p, d) == Add(p', d) <==> p == p'
  {
  }
}
