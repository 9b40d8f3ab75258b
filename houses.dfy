/** A house: its tile mask, orientation and anchor on the board, and its collision test. */
module Houses {
  import opened Geometry
  import opened Orientations
  import opened Tiles
  import opened Projection

  class House {
    /** The D×D tile mask: 1 where the house has a block. */
    const tiles: array2<int>
    var orientation: Orientation
    /** Board cell the middle of the mask sits on. */
    var anchor: Point

    ghost predicate Valid()
      reads tiles
    {
      tiles.Length0 == D && tiles.Length1 == D &&
      forall r, c :: 0 <= r < D && 0 <= c < D ==> tiles[r, c] == 0 || tiles[r, c] == 1
    }

    /** The mask cells holding a 1. */
    function Cells(): set<Point>
      reads tiles
      requires Valid()
    {
      set r, c | 0 <= r < D && 0 <= c < D && tiles[r, c] == 1 :: Point(r, c)
    }

    /**
     * The house's abstract board: zero everywhere except the D×D window starting at
     * `(20, 20) + anchor - Middle`, which holds the tile mask.
     */
    function Placement(): (g: Projected)
      reads this, tiles
      requires Valid()
      ensures g.cells == Cells() && g.anchor == anchor && g.size == Big
      ensures forall r, c :: 0 <= r < Big && 0 <= c < Big ==>
        At(g, r, c) == if InWindow(anchor, r, c)
          then tiles[r - WindowStart(anchor).x, c - WindowStart(anchor).y]
          else 0
    {
      ProjectionShowsTiles();
      Project(Cells(), anchor)
    }

    /** Cell by cell, the projection of the mask is the window copy of the tiles on a zero board. */
    lemma ProjectionShowsTiles()
      requires Valid()
      ensures forall r, c :: 0 <= r < Big && 0 <= c < Big ==>
        At(Project(Cells(), anchor), r, c) == if InWindow(anchor, r, c)
          then tiles[r - WindowStart(anchor).x, c - WindowStart(anchor).y]
          else 0
    {
      var s := WindowStart(anchor);
      forall r, c | 0 <= r < Big && 0 <= c < Big && InWindow(anchor, r, c)
        ensures At(Project(Cells(), anchor), r, c) == tiles[r - s.x, c - s.y]
      {
        assert Sub(Point(r, c), s) == Point(r - s.x, c - s.y);
      }
    }

    /**
     * Builds a house from shape offsets: the mask is 1 exactly at `offset + Middle` for
     * each offset, the orientation starts at RIGHT. Each house gets a mask of its own.
     */
    constructor (offsets: seq<Point>, anchor: Point)
      requires OffsetsFit(offsets)
      ensures Valid() && fresh(tiles)
      ensures Cells() == MaskCells(offsets)
      ensures |Cells()| == |OffsetSet(offsets)|
      ensures orientation == Right && this.anchor == anchor
    {
      var t := new int[D, D]((r, c) => 0);
      var i := 0;
      while i < |offsets|
        invariant 0 <= i <= |offsets|
        invariant forall r, c :: 0 <= r < D && 0 <= c < D ==>
          t[r, c] == if Point(r, c) in MaskCells(offsets[..i]) then 1 else 0
      {
        var p := Add(offsets[i], Middle);
        MaskCellsSnoc(offsets[..i], offsets[i]);
        assert offsets[..i + 1] == offsets[..i] + [offsets[i]];
        t[p.x, p.y] := 1;
        i := i + 1;
      }
      assert offsets[..i] == offsets;
      tiles := t;
      orientation := Right;
      this.anchor := anchor;
      new;
      MarksMatchMask(offsets);
      MaskCellsCount(offsets);
    }

    /** A mask holding 1 exactly at the cells marked by in-mask offsets has those cells as its blocks. */
    lemma MarksMatchMask(offsets: seq<Point>)
      requires OffsetsFit(offsets) && tiles.Length0 == D && tiles.Length1 == D
      requires forall r, c :: 0 <= r < D && 0 <= c < D ==>
        tiles[r, c] == if Point(r, c) in MaskCells(offsets) then 1 else 0
      ensures Valid() && Cells() == MaskCells(offsets)
    {
      forall p | p in MaskCells(offsets)
        ensures InMask(p)
      {
        MaskCellsMembers(offsets, p);
      }
    }

    /** Turns the house a quarter: the next orientation, cyclically; the mask and anchor stay. */
    method Flip()
      modifies this`orientation
      ensures orientation == Next(old(orientation))
      ensures anchor == old(anchor)
    {
      NextIsIncrement(orientation);
      orientation := FromValue((Value(orientation) + 1) % Count);
    }

    /**
     * Copies the house's mask into the D×D window of `big` starting at
     * `(20, 20) + anchor - Middle`; every cell outside the window is left as it was.
     */
    static method FillBigAbstractBoard(house: House, big: array2<int>)
      requires house.Valid() && WindowFits(house.anchor)
      requires big.Length0 == Big && big.Length1 == Big
      modifies big
      ensures forall r, c :: 0 <= r < Big && 0 <= c < Big ==>
        big[r, c] == if InWindow(house.anchor, r, c)
          then house.tiles[r - WindowStart(house.anchor).x, c - WindowStart(house.anchor).y]
          else old(big[r, c])
    {
      var s := WindowStart(house.anchor);
      forall r, c | 0 <= r < D && 0 <= c < D {
        big[s.x + r, s.y + c] := house.tiles[r, c];
      }
    }

    /** The two houses, placed at their anchors, share an occupied board cell. */
    predicate Overlaps(other: House)
      reads this, tiles, other, other.tiles
      requires Valid() && other.Valid()
    {
      SharedCell(Placement(), other.Placement())
    }

    /**
     * The collision test between two houses: both are projected into zeroed 100×100
     * boards and compared cell by cell; the orientation plays no part.
     */
    method Collides(other: House) returns (collision: bool)
      requires Valid() && other.Valid()
      requires WindowFits(anchor) && WindowFits(other.anchor)
      ensures collision == Overlaps(other)
    {
      var mine := new int[Big, Big]((r, c) => 0);
      FillBigAbstractBoard(this, mine);
      FilledShows(this, mine);
      var theirs := new int[Big, Big]((r, c) => 0);
      FillBigAbstractBoard(other, theirs);
      FilledShows(other, theirs);
      var total := SharedTotal(mine, theirs);
      collision := total > 0;
      ShowsSharedCell(mine, theirs, Placement(), other.Placement());
    }
  }

  /** `np.sum(A * B)` for two 100×100 grids of zeros and ones: positive exactly when they share a 1. */
  method SharedTotal(a: array2<int>, b: array2<int>) returns (total: int)
    requires a.Length0 == Big && a.Length1 == Big && b.Length0 == Big && b.Length1 == Big
    requires forall r, c :: 0 <= r < Big && 0 <= c < Big ==> a[r, c] == 0 || a[r, c] == 1
    requires forall r, c :: 0 <= r < Big && 0 <= c < Big ==> b[r, c] == 0 || b[r, c] == 1
    ensures total >= 0
    ensures total > 0 <==> exists r, c :: 0 <= r < Big && 0 <= c < Big && a[r, c] == 1 && b[r, c] == 1
  {
    total := 0;
    var r := 0;
    while r < Big
      invariant 0 <= r <= Big && total >= 0
      invariant total > 0 <==> exists r', c' :: 0 <= r' < r && 0 <= c' < Big && a[r', c'] == 1 && b[r', c'] == 1
    {
      var c := 0;
      while c < Big
        invariant 0 <= c <= Big && total >= 0
        invariant total > 0 <==>
          (exists r', c' :: 0 <= r' < r && 0 <= c' < Big && a[r', c'] == 1 && b[r', c'] == 1) ||
          (exists c' :: 0 <= c' < c && a[r, c'] == 1 && b[r, c'] == 1)
      {
        total := total + a[r, c] * b[r, c];
        c := c + 1;
      }
      r := r + 1;
    }
  }

  /** `big` is a 100×100 grid holding the projection `g`. */
  ghost predicate Shows(big: array2<int>, g: Projected)
    reads big
  {
    big.Length0 == Big && big.Length1 == Big &&
    forall r, c :: 0 <= r < Big && 0 <= c < Big ==> big[r, c] == At(g, r, c)
  }

  /** A zeroed 100×100 grid with a house's mask copied into its window holds the house's projection. */
  lemma FilledShows(house: House, big: array2<int>)
    requires house.Valid() && big.Length0 == Big && big.Length1 == Big
    requires forall r, c :: 0 <= r < Big && 0 <= c < Big ==>
      big[r, c] == if InWindow(house.anchor, r, c)
        then house.tiles[r - WindowStart(house.anchor).x, c - WindowStart(house.anchor).y]
        else 0
    ensures Shows(big, house.Placement())
  {
    var g := house.Placement();
  }

  /** Two grids holding projections share a 1 exactly when the projections share a cell. */
  lemma ShowsSharedCell(a: array2<int>, b: array2<int>, ga: Projected, gb: Projected)
    requires Shows(a, ga) && Shows(b, gb) && ga.size == Big
    ensures (exists r, c :: 0 <= r < Big && 0 <= c < Big && a[r, c] == 1 && b[r, c] == 1) <==> SharedCell(ga, gb)
  {
    if exists r, c :: 0 <= r < Big && 0 <= c < Big && a[r, c] == 1 && b[r, c] == 1 {
      var r, c :| 0 <= r < Big && 0 <= c < Big && a[r, c] == 1 && b[r, c] == 1;
      assert At(ga, r, c) == 1 && At(gb, r, c) == 1;
    }
    if SharedCell(ga, gb) {
      var r, c :| 0 <= r < ga.size && 0 <= c < ga.size && At(ga, r, c) == 1 && At(gb, r, c) == 1;
      assert a[r, c] == 1 && b[r, c] == 1;
    }
  }

  /** Two houses overlap exactly when their footprints on the board share a cell. */
  lemma OverlapsIffFootprintsMeet(h1: House, h2: House)
    requires h1.Valid() && h2.Valid() && WindowFits(h1.anchor) && WindowFits(h2.anchor)
    ensures h1.Overlaps(h2) <==> OnBoard(h1.Placement()) * OnBoard(h2.Placement()) != {}
  {
    SharedCellIffFootprintsMeet(h1.Placement(), h2.Placement());
  }

  /** Overlap does not depend on the order of the two houses. */
  lemma OverlapsSymmetric(h1: House, h2: House)
    requires h1.Valid() && h2.Valid()
    ensures h1.Overlaps(h2) == h2.Overlaps(h1)
  {
    SharedCellSymmetric(h1.Placement(), h2.Placement());
  }

  /** A house with no block overlaps nothing. */
  lemma EmptyHouseOverlapsNothing(h1: House, h2: House)
    requires h1.Valid() && h2.Valid()
    requires h1.Cells() == {} || h2.Cells() == {}
    ensures !h1.Overlaps(h2) && !h2.Overlaps(h1)
  {
    SharedCellEmpty(h1.Placement(), h2.Placement());
    SharedCellEmpty(h2.Placement(), h1.Placement());
  }
}
