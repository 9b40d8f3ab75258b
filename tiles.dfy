/** The house mask: a D×D grid of tiles and the shapes written into it. */
module Tiles {
  import opened Geometry

  /** Side of the mask. The mask literal in the game is malformed; its shape drawings are 4×4. */
  const D: int := 4

  /** `MIDDLE_TILE`: the mask's shape divided by two. */
  const Middle: Point := Point(D / 2, D / 2)

  predicate InMask(p: Point) {
    0 <= p.x < D && 0 <= p.y < D
  }

  /** Every offset, shifted by `Middle`, lands inside the mask. */
  predicate OffsetsFit(offsets: seq<Point>) {
    forall i :: 0 <= i < |offsets| ==> InMask(Add(offsets[i], Middle))
  }

  /** The distinct offsets of a shape. */
  function OffsetSet(offsets: seq<Point>): set<Point> {
    set p | p in offsets
  }

  function Translate(s: set<Point>, d: Point): set<Point> {
    set p | p in s :: Add(p, d)
  }

  /** The mask cells a house built from `offsets` marks with a 1. */
  function MaskCells(offsets: seq<Point>): set<Point> {
    Translate(OffsetSet(offsets), Middle)
  }

  /** Extending the shape by one offset marks exactly one more cell, `offset + Middle`. */
  lemma MaskCellsSnoc(offsets: seq<Point>, o: Point)
    ensures MaskCells(offsets + [o]) == MaskCells(offsets) + {Add(o, Middle)}
  {
    assert OffsetSet(offsets + [o]) == OffsetSet(offsets) + {o};
  }

  /** A cell is marked exactly when it is `offset + Middle` for one of the given offsets. */
  lemma MaskCellsMembers(offsets: seq<Point>, p: Point)
    ensures p in MaskCells(offsets) <==> exists i :: 0 <= i < |offsets| && p == Add(offsets[i], Middle)
  {
    if p in MaskCells(offsets) {
      var o :| o in OffsetSet(offsets) && p == Add(o, Middle);
      var i :| 0 <= i < |offsets| && offsets[i] == o;
    }
  }

  /** Translation does not merge points, so it keeps the size of a set. */
  lemma {:induction false} TranslateCard(s: set<Point>, d: Point)
    ensures |Translate(s, d)| == |s|
    decreases |s|
  {
    if s != {} {
      var p :| p in s;
      var rest := s - {p};
      TranslateCard(rest, d);
      assert Translate(s, d) == Translate(rest, d) + {Add(p, d)};
      if Add(p, d) in Translate(rest, d) {
        var q :| q in rest && Add(q, d) == Add(p, d);
        AddInjective(q, p, d);
        assert false;
      }
    }
  }

  /** The number of ones in a built mask equals the number of distinct offsets. */
  lemma MaskCellsCount(offsets: seq<Point>)
    ensures |MaskCells(offsets)| == |OffsetSet(offsets)|
  {
    TranslateCard(OffsetSet(offsets), Middle);
  }

  /** The three shapes of the house catalog, as offsets from the mask's middle. */
  const StickOffsets: seq<Point> := [Point(0, 0), Point(0, 1), Point(0, 2), Point(0, 3)]
  const GunOffsets: seq<Point> := [Point(0, 0), Point(0, 1), Point(0, 2), Point(1, 0)]
  const CornerOffsets: seq<Point> := [Point(0, 0), Point(0, 1), Point(1, 0)]

  /** Shifted by `Middle`, STICK and GUN leave the 4×4 mask; only CORNER fits. */
  lemma CatalogAgainstMask()
    ensures !OffsetsFit(StickOffsets)
    ensures !OffsetsFit(GunOffsets)
    ensures OffsetsFit(CornerOffsets)
  {
    assert !InMask(Add(StickOffsets[2], Middle));
    assert !InMask(Add(GunOffsets[2], Middle));
  }
}
