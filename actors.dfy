/** The actors on the board, pigs and the wolf, and the collision test between two actors. */
module Actors {
  import opened Wrappers
  import opened Geometry
  import opened Projection
  import opened Houses

  /** A pig may own a house; the wolf is a plain actor named "wolf". */
  datatype Actor =
    | Pig(position: Point, house: Option<House>, pigName: string)
    | Wolf(position: Point)
  {
    function Name(): string {
      match this
      case Pig(_, _, name) => name
      case Wolf(_) => "wolf"
    }
  }

  /** Why a pig's collision test fails instead of answering. */
  datatype CollisionError =
    | HouseOwnershipMismatch  // exactly one of two pigs owns a house
    | NoHouseAttribute        // the other actor is the wolf, which has no house to look at

  /** Every wolf is called "wolf". */
  lemma WolfIsNamedWolf(position: Point)
    ensures Wolf(position).Name() == "wolf"
  {
  }

  /** The plain actor test: two actors collide when they stand on the same cell. */
  predicate SameCell(a: Actor, b: Actor) {
    a.position == b.position
  }

  /** The plain test holds for an actor against itself and does not depend on the order. */
  lemma SameCellReflexiveSymmetric(a: Actor, b: Actor)
    ensures SameCell(a, a)
    ensures SameCell(a, b) == SameCell(b, a)
  {
  }

  /** The heap a pig's house occupies. */
  function HouseFrame(a: Actor): set<object> {
    if a.Pig? && a.house.Some? then {a.house.value, a.house.value.tiles} else {}
  }

  /** A pig's house, if any, is well formed and its projection window fits the abstract board. */
  ghost predicate Ready(a: Actor)
    reads HouseFrame(a)
  {
    a.Pig? && a.house.Some? ==> a.house.value.Valid() && WindowFits(a.house.value.anchor)
  }

  /**
   * `a * b`. The wolf uses the plain test. A pig collides with anything on its cell;
   * otherwise the other actor must be a pig, the two must agree on owning a house, and
   * then the houses' overlap decides (no houses: no collision). The overlap used is the
   * shared occupied cell, not the matrix product of `House.__mul__`. The houses are
   * looked at only when two pigs on different cells both own one.
   */
  function Collide(a: Actor, b: Actor): (r: Result<bool, CollisionError>)
    reads HouseFrame(a), HouseFrame(b)
    requires a.Pig? && b.Pig? && a.position != b.position && a.house.Some? && b.house.Some? ==> Ready(a) && Ready(b)
    ensures a.position == b.position ==> r == Ok(true)
    ensures a.Wolf? ==> r == Ok(a.position == b.position)
    ensures r.Err? <==> a.Pig? && a.position != b.position && (b.Wolf? || a.house.Some? != b.house.Some?)
    ensures r == Err(NoHouseAttribute) <==> a.Pig? && b.Wolf? && a.position != b.position
  {
    match a
    case Wolf(_) => Ok(SameCell(a, b))
    case Pig(_, house, _) =>
      if SameCell(a, b) then Ok(true)
      else if b.Wolf? then Err(NoHouseAttribute)
      else if house.Some? != b.house.Some? then Err(HouseOwnershipMismatch)
      else if house.Some? then Ok(house.value.Overlaps(b.house.value))
      else Ok(false)
  }

  /** The pigs' houses are both present and their footprints on the board share a cell. */
  ghost predicate HousesMeet(a: Actor, b: Actor)
    reads HouseFrame(a), HouseFrame(b)
    requires a.Pig? && b.Pig? && Ready(a) && Ready(b)
  {
    a.house.Some? && b.house.Some? &&
    OnBoard(a.house.value.Placement()) * OnBoard(b.house.value.Placement()) != {}
  }

  /**
   * Two pigs collide exactly when they share a cell or their houses share a board cell
   * (the intended overlap, not the matrix product); the answer is a plain "no" only when
   * their house ownership agrees.
   */
  lemma PigCollisionMeaning(a: Actor, b: Actor)
    requires a.Pig? && b.Pig? && Ready(a) && Ready(b)
    ensures Collide(a, b) == Ok(true) <==> a.position == b.position || HousesMeet(a, b)
    ensures Collide(a, b) == Ok(false) <==>
      a.position != b.position && a.house.Some? == b.house.Some? && !HousesMeet(a, b)
  {
    if a.house.Some? && b.house.Some? {
      OverlapsIffFootprintsMeet(a.house.value, b.house.value);
    }
  }

  /** Between two pigs the collision test does not depend on the order. */
  lemma PigCollisionSymmetric(a: Actor, b: Actor)
    requires a.Pig? && b.Pig? && Ready(a) && Ready(b)
    ensures Collide(a, b) == Collide(b, a)
  {
    if a.house.Some? && b.house.Some? {
      OverlapsSymmetric(a.house.value, b.house.value);
    }
  }
}
