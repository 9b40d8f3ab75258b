/**
 * Projection of a house mask into the 100×100 abstract board, and the two ways of
 * testing two projections for overlap: the matrix product the game computes, and the
 * shared occupied cell it evidently means.
 */
module Projection {
  import opened Geometry
  import opened Tiles

  /** Side of the abstract board. */
  const Big: int := 100

  /** Where board cell (0, 0) sits on the abstract board. */
  const BoardOrigin: Point := Point(20, 20)

  /** First cell of the window a house is copied into: `(20, 20) + anchor - MIDDLE_TILE`. */
  function WindowStart(anchor: Point): Point {
    Sub(Add(BoardOrigin, anchor), Middle)
  }

  /** Exclusive end of that window: `(20, 20) + anchor + MIDDLE_TILE`. */
  function WindowEnd(anchor: Point): Point {
    Add(Add(BoardOrigin, anchor), Middle)
  }

  /** The window lies inside the abstract board. */
  predicate WindowFits(anchor: Point) {
    0 <= WindowStart(anchor).x && WindowEnd(anchor).x <= Big &&
    0 <= WindowStart(anchor).y && WindowEnd(anchor).y <= Big
  }

  predicate InWindow(anchor: Point, r: int, c: int) {
    WindowStart(anchor).x <= r < WindowEnd(anchor).x &&
    WindowStart(anchor).y <= c < WindowEnd(anchor).y
  }

  /**
   * A square zero grid of side `size` into whose window at `anchor` a mask has been
   * copied; `cells` are the mask cells holding a 1.
   */
  datatype Projected = Projected(cells: set<Point>, anchor: Point, size: int)

  /** The abstract board of one house: `np.zeros((100, 100))` with the house's mask copied in. */
  function Project(cells: set<Point>, anchor: Point): Projected {
    Projected(cells, anchor, Big)
  }

  /** The value at cell (r, c) of a projected grid. */
  function At(g: Projected, r: int, c: int): (v: int)
    ensures v == 0 || v == 1
    ensures v == 1 ==> InWindow(g.anchor, r, c)
  {
    if InWindow(g.anchor, r, c) && Sub(Point(r, c), WindowStart(g.anchor)) in g.cells then 1 else 0
  }

  /** Some cell of the abstract board is 1 in both projections. */
  predicate SharedCell(a: Projected, b: Projected) {
    exists r, c :: 0 <= r < a.size && 0 <= c < a.size && At(a, r, c) == 1 && At(b, r, c) == 1
  }

  /** The board cells a mask covers when its middle is placed at its anchor. */
  function OnBoard(g: Projected): set<Point> {
    set p | p in g.cells :: Sub(Add(g.anchor, p), Middle)
  }

  /** The mask cells are inside the mask, the window inside the abstract board. */
  predicate WellPlaced(g: Projected) {
    g.size == Big && WindowFits(g.anchor) && forall p :: p in g.cells ==> InMask(p)
  }

  /** A cell both projections hold is the board cell `(r, c) - (20, 20)` of both footprints. */
  lemma SharedCellGivesBoardCell(a: Projected, b: Projected, r: int, c: int)
    requires At(a, r, c) == 1 && At(b, r, c) == 1
    ensures Sub(Point(r, c), BoardOrigin) in OnBoard(a) * OnBoard(b)
  {
    var q := Sub(Point(r, c), BoardOrigin);
    var p1 := Sub(Point(r, c), WindowStart(a.anchor));
    var p2 := Sub(Point(r, c), WindowStart(b.anchor));
    assert p1 in a.cells && q == Sub(Add(a.anchor, p1), Middle);
    assert p2 in b.cells && q == Sub(Add(b.anchor, p2), Middle);
  }

  /** A board cell covered by a footprint shows as a 1 at `cell + (20, 20)` of its projection. */
  lemma BoardCellIsProjected(g: Projected, q: Point)
    requires forall p :: p in g.cells ==> InMask(p)
    requires q in OnBoard(g)
    ensures var e := Add(q, BoardOrigin); At(g, e.x, e.y) == 1
  {
    var p :| p in g.cells && q == Sub(Add(g.anchor, p), Middle);
    assert Sub(Add(q, BoardOrigin), WindowStart(g.anchor)) == p;
  }

  /**
   * Two well-placed projections share a cell exactly when the two footprints, laid on
   * the board at their anchors, share a cell.
   */
  lemma SharedCellIffFootprintsMeet(a: Projected, b: Projected)
    requires WellPlaced(a) && WellPlaced(b)
    ensures SharedCell(a, b) <==> OnBoard(a) * OnBoard(b) != {}
  {
    if SharedCell(a, b) {
      var r, c :| 0 <= r < a.size && 0 <= c < a.size && At(a, r, c) == 1 && At(b, r, c) == 1;
      SharedCellGivesBoardCell(a, b, r, c);
    }
    if OnBoard(a) * OnBoard(b) != {} {
      var q :| q in OnBoard(a) * OnBoard(b);
      BoardCellIsProjected(a, q);
      BoardCellIsProjected(b, q);
      var e := Add(q, BoardOrigin);
      assert InWindow(a.anchor, e.x, e.y);
      assert 0 <= e.x < a.size && 0 <= e.y < a.size;
    }
  }

  /** Sharing a cell does not depend on the order of two projections of the same size. */
  lemma SharedCellSymmetric(a: Projected, b: Projected)
    requires a.size == b.size
    ensures SharedCell(a, b) == SharedCell(b, a)
  {
  }

  /** A house with no occupied tile overlaps nothing. */
  lemma SharedCellEmpty(a: Projected, b: Projected)
    requires a.cells == {} || b.cells == {}
    ensures !SharedCell(a, b)
  {
  }

  // ---------------------------------------------------------------------------
  // The overlap test as written: np.sum(np.dot(A, B)) > 0, with the sums written out

  /** A has a 1 at (i, k) and B has a 1 at (k, j). */
  predicate Linked(a: Projected, b: Projected, i: int, j: int, k: int) {
    At(a, i, k) == 1 && At(b, k, j) == 1
  }

  /** One term A(i, k) * B(k, j) of the matrix product. */
  function Term(a: Projected, b: Projected, i: int, j: int, k: int): (t: int)
    ensures t >= 0
    ensures t > 0 <==> Linked(a, b, i, j, k)
  {
    var u, v := At(a, i, k), At(b, k, j);
    assert u * v == if u == 1 && v == 1 then 1 else 0;
    u * v
  }

  /** A(i, k) * B(k, j) + A(i, k + 1) * B(k + 1, j) + ...: entry (i, j) of `np.dot(A, B)`, from k on. */
  function EntryFrom(a: Projected, b: Projected, i: int, j: int, k: int): int
    decreases a.size - k
  {
    if k >= a.size then 0 else Term(a, b, i, j, k) + EntryFrom(a, b, i, j, k + 1)
  }

  /** Entries (i, j), (i, j + 1), ... of the product, summed. */
  function RowFrom(a: Projected, b: Projected, i: int, j: int): int
    decreases b.size - j
  {
    if j >= b.size then 0 else EntryFrom(a, b, i, j, 0) + RowFrom(a, b, i, j + 1)
  }

  /** Rows i, i + 1, ... of the product, summed. */
  function SumFrom(a: Projected, b: Projected, i: int): int
    decreases a.size - i
  {
    if i >= a.size then 0 else RowFrom(a, b, i, 0) + SumFrom(a, b, i + 1)
  }

  /** `np.sum(np.dot(A, B))`. */
  function ProductSum(a: Projected, b: Projected): int {
    SumFrom(a, b, 0)
  }

  /** A sum of non-negative terms is at least each of its terms. */
  lemma {:induction false} EntryFromAtLeast(a: Projected, b: Projected, i: int, j: int, k: int, k0: int)
    ensures EntryFrom(a, b, i, j, k) >= 0
    ensures k <= k0 < a.size ==> EntryFrom(a, b, i, j, k) >= Term(a, b, i, j, k0)
    decreases a.size - k
  {
    if k < a.size {
      EntryFromAtLeast(a, b, i, j, k + 1, k0);
    }
  }

  lemma {:induction false} RowFromAtLeast(a: Projected, b: Projected, i: int, j: int, j0: int)
    ensures RowFrom(a, b, i, j) >= 0
    ensures j <= j0 < b.size ==> RowFrom(a, b, i, j) >= EntryFrom(a, b, i, j0, 0)
    decreases b.size - j
  {
    if j < b.size {
      RowFromAtLeast(a, b, i, j + 1, j0);
      EntryFromAtLeast(a, b, i, j, 0, 0);
    }
  }

  lemma {:induction false} SumFromAtLeast(a: Projected, b: Projected, i: int, i0: int)
    ensures SumFrom(a, b, i) >= 0
    ensures i <= i0 < a.size ==> SumFrom(a, b, i) >= RowFrom(a, b, i0, 0)
    decreases a.size - i
  {
    if i < a.size {
      SumFromAtLeast(a, b, i + 1, i0);
      RowFromAtLeast(a, b, i, 0, 0);
    }
  }

  /** A sum whose terms are all 0 is 0. */
  lemma {:induction false} EntryFromZero(a: Projected, b: Projected, i: int, j: int, k: int)
    requires forall k' :: k <= k' < a.size ==> !Linked(a, b, i, j, k')
    ensures EntryFrom(a, b, i, j, k) == 0
    decreases a.size - k
  {
    if k < a.size {
      EntryFromZero(a, b, i, j, k + 1);
    }
  }

  lemma {:induction false} RowFromZero(a: Projected, b: Projected, i: int, j: int)
    requires forall j', k' :: j <= j' < b.size && 0 <= k' < a.size ==> !Linked(a, b, i, j', k')
    ensures RowFrom(a, b, i, j) == 0
    decreases b.size - j
  {
    if j < b.size {
      RowFromZero(a, b, i, j + 1);
      EntryFromZero(a, b, i, j, 0);
    }
  }

  lemma {:induction false} SumFromZero(a: Projected, b: Projected, i: int)
    requires forall i', j', k' :: i <= i' < a.size && 0 <= j' < b.size && 0 <= k' < a.size ==> !Linked(a, b, i', j', k')
    ensures SumFrom(a, b, i) == 0
    decreases a.size - i
  {
    if i < a.size {
      SumFromZero(a, b, i + 1);
      RowFromZero(a, b, i, 0);
    }
  }

  /**
   * The product sum is never negative, and it is positive exactly when some k has a 1 of
   * A in column k and a 1 of B in row k.
   */
  lemma ProductPositiveIff(a: Projected, b: Projected)
    ensures ProductSum(a, b) >= 0
    ensures ProductSum(a, b) > 0 <==>
      exists i, j, k :: 0 <= i < a.size && 0 <= j < b.size && 0 <= k < a.size && Linked(a, b, i, j, k)
  {
    SumFromAtLeast(a, b, 0, 0);
    if exists i, j, k :: 0 <= i < a.size && 0 <= j < b.size && 0 <= k < a.size && Linked(a, b, i, j, k) {
      var i, j, k :| 0 <= i < a.size && 0 <= j < b.size && 0 <= k < a.size && Linked(a, b, i, j, k);
      SumFromAtLeast(a, b, 0, i);
      RowFromAtLeast(a, b, i, 0, j);
      EntryFromAtLeast(a, b, i, j, 0, k);
    } else {
      SumFromZero(a, b, 0);
    }
  }

  /** A linked triple (i, j, k) names a 1 of each mask whose column and row meet. */
  lemma LinkGivesColumnMeetsRow(a: Projected, b: Projected, i: int, j: int, k: int)
    requires Linked(a, b, i, j, k)
    ensures var p, q := Sub(Point(i, k), WindowStart(a.anchor)), Sub(Point(k, j), WindowStart(b.anchor));
      p in a.cells && q in b.cells && a.anchor.y + p.y == b.anchor.x + q.x
  {
  }

  /** A column of the first mask meeting a row of the second gives a linked triple on the board. */
  lemma ColumnMeetsRowGivesLink(a: Projected, b: Projected, p: Point, q: Point)
    requires WellPlaced(a) && WellPlaced(b)
    requires p in a.cells && q in b.cells && a.anchor.y + p.y == b.anchor.x + q.x
    ensures var i, j, k := WindowStart(a.anchor).x + p.x, WindowStart(b.anchor).y + q.y, WindowStart(a.anchor).y + p.y;
      0 <= i < a.size && 0 <= j < b.size && 0 <= k < a.size && Linked(a, b, i, j, k)
  {
    var s1, s2 := WindowStart(a.anchor), WindowStart(b.anchor);
    assert Sub(Point(s1.x + p.x, s1.y + p.y), s1) == p;
    assert Sub(Point(s1.y + p.y, s2.y + q.y), s2) == q;
  }

  /**
   * For well-placed projections the product sum is positive exactly when a 1 of the
   * first mask and a 1 of the second satisfy `anchor1.y + p.y == anchor2.x + q.x`: a
   * column of one window against a row of the other, not a shared cell.
   */
  lemma ProductPositiveIffColumnMeetsRow(a: Projected, b: Projected)
    requires WellPlaced(a) && WellPlaced(b)
    ensures ProductSum(a, b) >= 0
    ensures ProductSum(a, b) > 0 <==>
      exists p, q :: p in a.cells && q in b.cells && a.anchor.y + p.y == b.anchor.x + q.x
  {
    ProductPositiveIff(a, b);
    if ProductSum(a, b) > 0 {
      var i, j, k :| 0 <= i < a.size && 0 <= j < b.size && 0 <= k < a.size && Linked(a, b, i, j, k);
      LinkGivesColumnMeetsRow(a, b, i, j, k);
    }
    if exists p, q :: p in a.cells && q in b.cells && a.anchor.y + p.y == b.anchor.x + q.x {
      var p, q :| p in a.cells && q in b.cells && a.anchor.y + p.y == b.anchor.x + q.x;
      ColumnMeetsRowGivesLink(a, b, p, q);
    }
  }

  /** For two one-tile masks the product test compares one column with one row. */
  lemma OneTileProduct(a: Projected, b: Projected, p: Point, q: Point)
    requires WellPlaced(a) && WellPlaced(b) && a.cells == {p} && b.cells == {q}
    ensures ProductSum(a, b) >= 0
    ensures ProductSum(a, b) > 0 <==> a.anchor.y + p.y == b.anchor.x + q.x
  {
    ProductPositiveIffColumnMeetsRow(a, b);
  }

  /** A one-tile mask covers one board cell: its block shifted by the anchor, less `Middle`. */
  lemma OneTileFootprint(g: Projected, p: Point)
    requires g.cells == {p}
    ensures OnBoard(g) == {Sub(Add(g.anchor, p), Middle)}
  {
  }

  /** A house built from the single offset `o` has its one block at `o + Middle`. */
  lemma OneTileMask(o: Point)
    ensures MaskCells([o]) == {Add(o, Middle)}
  {
    MaskCellsSnoc([], o);
  }

  /**
   * The product test misses a real overlap: a one-tile house with its block at (2, 3)
   * (the shape with the single offset (0, 1)) overlaps itself, yet the product sum is 0
   * at every anchor off the diagonal `x == y + 1`.
   */
  lemma ProductMissesSelfOverlap(g: Projected)
    requires WellPlaced(g) && g.cells == {Point(2, 3)} && g.anchor.x != g.anchor.y + 1
    ensures SharedCell(g, g) && ProductSum(g, g) == 0
  {
    var s := WindowStart(g.anchor);
    assert At(g, s.x + 2, s.y + 3) == 1;
    OneTileProduct(g, g, Point(2, 3), Point(2, 3));
  }

  /**
   * The product test reports an overlap that does not exist, and depends on the order of
   * the houses: one-tile houses with their block at the middle (the shape with the
   * single offset (0, 0)), at anchors a1 != a2 with `a1.y == a2.x` and `a2.y != a1.x`,
   * share no cell, yet the product sum is positive for (a1, a2) and 0 for (a2, a1).
   */
  lemma ProductInventsOverlap(g1: Projected, g2: Projected)
    requires WellPlaced(g1) && WellPlaced(g2) && g1.cells == {Middle} && g2.cells == {Middle}
    requires g1.anchor != g2.anchor && g1.anchor.y == g2.anchor.x && g2.anchor.y != g1.anchor.x
    ensures !SharedCell(g1, g2) && ProductSum(g1, g2) > 0 && ProductSum(g2, g1) == 0
  {
    SharedCellIffFootprintsMeet(g1, g2);
    OneTileFootprint(g1, Middle);
    OneTileFootprint(g2, Middle);
    OneTileProduct(g1, g2, Middle, Middle);
    OneTileProduct(g2, g1, Middle, Middle);
  }
}
