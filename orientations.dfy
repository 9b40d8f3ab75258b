/** The four orientations of a house and their cyclic order. */
module Orientations {
  /** RIGHT = 0, DOWN = 1, LEFT = 2, UP = 3. */
  datatype Orientation = Right | Down | Left | Up

  /** `len(Orientation)`. */
  const Count: int := 4

  /** The integer value of an orientation. */
  function Value(o: Orientation): (v: int)
    ensures 0 <= v < Count
  {
    match o
    case Right => 0
    case Down => 1
    case Left => 2
    case Up => 3
  }

  /** `Orientation(v)`: the orientation whose value is `v`. */
  function FromValue(v: int): (o: Orientation)
    requires 0 <= v < Count
    ensures Value(o) == v
  {
    if v == 0 then Right else if v == 1 then Down else if v == 2 then Left else Up
  }

  /** The clockwise successor: RIGHT, DOWN, LEFT, UP, then RIGHT again. */
  function Next(o: Orientation): Orientation {
    match o
    case Right => Down
    case Down => Left
    case Left => Up
    case Up => Right
  }

  /** Values and orientations are in one-to-one correspondence. */
  lemma ValueRoundTrip(o: Orientation)
    ensures FromValue(Value(o)) == o
  {
  }

  /** The successor is the orientation whose value is one more, modulo the number of orientations. */
  lemma NextIsIncrement(o: Orientation)
    ensures Next(o) == FromValue((Value(o) + 1) % Count)
  {
  }

  /** Each step changes the orientation, and four steps bring it back. */
  lemma FourStepsRestore(o: Orientation)
    ensures Next(o) != o
    ensures Next(Next(Next(Next(o)))) == o
  {
  }
}
