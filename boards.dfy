/** The 5×5 game board: which cells actors may stand on, and how the board is redrawn. */
module Boards {
  import opened Wrappers
  import opened Geometry
  import opened Actors

  /** Side of the board. */
  const Size: int := 5

  /** Cells listed as not part of the board, because the board is not a rectangle. */
  const Forbidden: seq<Point> := [Point(0, 0), Point(0, 3), Point(0, 4), Point(4, 20)]

  /** What a board cell holds: nothing, or the name of the actor standing there. */
  datatype Cell = Empty | Occupant(name: string)

  datatype BoardError =
    | ActorPositionNotOnBoard  // the position is a forbidden cell
    | IndexOutOfBounds         // the position is outside the array

  /** How `update` ends: every actor drawn, or raised at the actor with index `at`. */
  datatype UpdateOutcome = Updated | Raised(at: nat, error: BoardError)

  predicate OnGrid(p: Point) {
    0 <= p.x < Size && 0 <= p.y < Size
  }

  // ---------------------------------------------------------------------------
  // As written: a membership test against the forbidden list, then array indexing

  /** One index into an axis of length Size, read as numpy reads it: negatives count from the end. */
  function NumpyIndex(i: int): (r: Option<int>)
    ensures r.Some? <==> -Size <= i < Size
    ensures r.Some? ==> 0 <= r.value < Size && (r.value == i || r.value == i + Size)
  {
    if 0 <= i < Size then Some(i)
    else if -Size <= i < 0 then Some(i + Size)
    else None
  }

  /** The cell an actor at `p` is written into, as the update loop is written. */
  function TargetAsWritten(p: Point): (r: Result<Point, BoardError>)
    ensures p in Forbidden ==> r == Err(ActorPositionNotOnBoard)
    ensures r.Ok? <==> p !in Forbidden && -Size <= p.x < Size && -Size <= p.y < Size
    ensures r.Ok? ==> OnGrid(r.value) && r.value == Point(p.x % Size, p.y % Size)
  {
    if p in Forbidden then Err(ActorPositionNotOnBoard)
    else match (NumpyIndex(p.x), NumpyIndex(p.y))
      case (Some(x), Some(y)) => Ok(Point(x, y))
      case _ => Err(IndexOutOfBounds)
  }

  /**
   * Negative coordinates slip past the forbidden test and wrap around: an actor at
   * (-5, 0) is written into the forbidden cell (0, 0).
   */
  lemma AsWrittenReachesForbiddenCell()
    ensures TargetAsWritten(Point(-5, 0)) == Ok(Point(0, 0))
    ensures Point(0, 0) in Forbidden
    ensures Target(Point(-5, 0)) == Err(IndexOutOfBounds)
  {
    assert Point(-5, 0) != Forbidden[0] && Point(-5, 0) != Forbidden[1];
    assert Point(-5, 0) != Forbidden[2] && Point(-5, 0) != Forbidden[3];
  }

  // ---------------------------------------------------------------------------
  // Corrected: every position off the grid is refused

  /** The cell an actor at `p` is written into: `p` itself, when it is on the grid and not forbidden. */
  function Target(p: Point): (r: Result<Point, BoardError>)
    ensures r.Ok? <==> OnGrid(p) && p !in Forbidden
    ensures r.Ok? ==> r.value == p
    ensures r == Err(ActorPositionNotOnBoard) <==> p in Forbidden
  {
    if p in Forbidden then Err(ActorPositionNotOnBoard)
    else if !OnGrid(p) then Err(IndexOutOfBounds)
    else Ok(p)
  }

  /** Off negative coordinates the two readings agree. */
  lemma AsWrittenAgreesWithoutNegatives(p: Point)
    requires p.x >= 0 && p.y >= 0
    ensures TargetAsWritten(p) == Target(p)
  {
  }

  // ---------------------------------------------------------------------------
  // Redrawing the board

  /** Cell (r, c) after the actors have been written in order onto an empty board. */
  function Written(actors: seq<Actor>, r: int, c: int): Cell {
    if |actors| == 0 then Empty
    else if actors[|actors| - 1].position == Point(r, c) then Occupant(actors[|actors| - 1].Name())
    else Written(actors[..|actors| - 1], r, c)
  }

  /**
   * A cell stays empty exactly when no actor stands on it; otherwise it holds the name
   * of the last listed actor standing on it.
   */
  lemma {:induction false} WrittenIsLastOccupant(actors: seq<Actor>, r: int, c: int)
    ensures Written(actors, r, c) == Empty <==> forall i :: 0 <= i < |actors| ==> actors[i].position != Point(r, c)
    ensures forall i :: 0 <= i < |actors| && actors[i].position == Point(r, c) ==>
      ((forall j :: i < j < |actors| ==> actors[j].position != Point(r, c)) ==>
        Written(actors, r, c) == Occupant(actors[i].Name()))
  {
    if |actors| > 0 {
      var n := |actors| - 1;
      var init := actors[..n];
      WrittenIsLastOccupant(init, r, c);
      assert forall i :: 0 <= i < n ==> init[i] == actors[i];
    }
  }

  /** When every actor passes the check, the forbidden cells on the grid stay empty. */
  lemma UpdatedBoardKeepsForbiddenEmpty(actors: seq<Actor>, f: Point)
    requires forall i :: 0 <= i < |actors| ==> Target(actors[i].position).Ok?
    requires f in Forbidden
    ensures Written(actors, f.x, f.y) == Empty
  {
    WrittenIsLastOccupant(actors, f.x, f.y);
  }

  class Board {
    var content: array2<Cell>

    ghost predicate Valid()
      reads this
    {
      content.Length0 == Size && content.Length1 == Size
    }

    /** A board with every cell empty. */
    constructor ()
      ensures Valid() && fresh(content)
      ensures forall r, c :: 0 <= r < Size && 0 <= c < Size ==> content[r, c] == Empty
    {
      content := new Cell[Size, Size]((r, c) => Empty);
    }

    /**
     * Clears the board, then writes each actor's name at its position, in order. The
     * first actor whose position is refused stops the update; the actors before it stay
     * drawn.
     */
    method Update(actors: seq<Actor>) returns (outcome: UpdateOutcome)
      modifies this
      ensures Valid() && fresh(content)
      ensures outcome == Updated <==> forall i :: 0 <= i < |actors| ==> Target(actors[i].position).Ok?
      ensures outcome.Raised? ==>
        outcome.at < |actors| && Target(actors[outcome.at].position) == Err(outcome.error) &&
        forall i :: 0 <= i < outcome.at ==> Target(actors[i].position).Ok?
      ensures forall r, c :: 0 <= r < Size && 0 <= c < Size ==>
        content[r, c] == Written(if outcome.Raised? then actors[..outcome.at] else actors, r, c)
    {
      var grid := new Cell[Size, Size]((r, c) => Empty);
      content := grid;
      var i := 0;
      while i < |actors|
        invariant 0 <= i <= |actors|
        invariant content == grid && Valid()
        invariant forall j :: 0 <= j < i ==> Target(actors[j].position).Ok?
        invariant forall r, c :: 0 <= r < Size && 0 <= c < Size ==> grid[r, c] == Written(actors[..i], r, c)
      {
        var t := Target(actors[i].position);
        if t.Err? {
          outcome := Raised(i, t.error);
          return;
        }
        grid[t.value.x, t.value.y] := Occupant(actors[i].Name());
        assert actors[..i + 1][..i] == actors[..i];
        i := i + 1;
      }
      assert actors[..i] == actors;
      outcome := Updated;
    }
  }
}
