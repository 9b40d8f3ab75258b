# Three little pigs: board occupancy and collision

This project models the core of a small grid board game (`main.py`). Pigs and a wolf stand on a 5×5 board with some cells cut away. A pig may own a house: a shape of blocks drawn on a small tile mask and anchored at a board cell. The model covers:

- points and their component-wise arithmetic;
- the four house orientations and the quarter turn `flip`;
- building a house mask from shape offsets;
- projecting a mask into the 100×100 abstract board (`_fill_big_abstract_board`);
- the house-overlap test (`House.__mul__`);
- the actor, pig and wolf collision tests (`Actor.__mul__`, `Pig.__mul__`, `Wolf`);
- redrawing the board (`Board.update`) against the list of forbidden cells.

Modules, one per file:

- `Wrappers`: `Option` and `Result`. Raised exceptions and failed asserts become `Err` values.
- `Geometry`: `Point`, with `Add` and `Sub`. The game adds and subtracts points without defining the operators; they are taken component-wise.
- `Orientations`: RIGHT, DOWN, LEFT, UP with values 0–3 and the cyclic successor.
- `Tiles`: the D×D mask, `MIDDLE_TILE`, and the cells a list of offsets marks. It also holds the three catalog shapes.
- `Projection`: a mask copied into the 100×100 abstract board at its anchor. It defines two overlap tests:
  - the matrix-product sum the game computes;
  - the shared occupied cell it evidently means (see Findings).
- `Houses`: the `House` class, with a const tile array plus mutable orientation and anchor. Its methods are the constructor loop, `Flip`, the window copy and the collision method.
- `Actors`: pigs and the wolf as a datatype, and the pure collision function. When two pigs on different cells both own houses, the collision uses the intended shared-cell overlap, not the matrix product the game computes (see Findings).
- `Boards`: the forbidden cells, the numpy indexing as written and as corrected, and the `Board` class with its `Update` loop.

Choices made where the program cannot run as written:

- The mask literal `TILES` is missing commas between its rows (main.py:77-83). Its 5×5 size also disagrees with the 4×4 drawings of every house (main.py:128-155), and the copy window is `2 * (D / 2)` wide, which fits the mask only for even D. The model uses D = 4, so `MIDDLE_TILE` = (2, 2).
- Every house assigns the one global `TILES` array (main.py:89), so all houses would share and overwrite one mask. Each `House` gets a fresh zeroed mask of its own.
- The catalog houses are built without the anchor argument (main.py:125-155). The constructor takes the anchor as a parameter.
- With the middle at (2, 2), the STICK offset (0, 3) lands outside the 4×4 mask, and so does the offset (0, 2) of STICK and GUN. The constructor requires every offset to land inside the mask. `Tiles.CatalogAgainstMask` proves that STICK and GUN violate this and CORNER does not.
- The forbidden test compares a `Point` with tuples (main.py:60), which is never equal in Python. It is modelled as the evident coordinate comparison.
- `_zero_board` assigns the grid but returns nothing (main.py:47-54), so `update` would set `content` to `None`. `Update` starts from a fresh all-empty 5×5 grid.
- The board grid holds integers, yet `update` writes actor names into it (main.py:64). A cell is modelled as `Empty` or `Occupant(name)`.
- A pig compared with the wolf at a different cell reads the wolf's missing `house` attribute (main.py:166-168). This is `Err(NoHouseAttribute)`. Two pigs that disagree on owning a house fail the assert; this is `Err(HouseOwnershipMismatch)`.
- `update` may raise partway through the actor list. `Update` reports `Raised(at, error)` and leaves the actors before `at` drawn, as the loop does.

## Model

| member | source | states |
|---|---|---|
| Geometry.AddSubRoundTrip | main.py:100-103 | translating a point by the anchor offset and back gives the point again, in either order |
| Geometry.AddInjective | main.py:91 | shifting offsets by `MIDDLE_TILE` never merges two offsets |
| Orientations.Value | main.py:67-71 | every orientation's value lies in 0..3 |
| Orientations.FromValue | main.py:121-122 | `Orientation(v)` is the orientation whose value is v, for v in 0..3 |
| Orientations.ValueRoundTrip | main.py:67-71 | values and orientations correspond one to one |
| Orientations.NextIsIncrement | main.py:120-122 | the successor is the orientation with value `(value + 1) % 4` |
| Orientations.FourStepsRestore | main.py:67-71 | a quarter turn always changes the orientation, and four turns restore it |
| Tiles.MaskCellsSnoc | main.py:90-91 | each further offset marks exactly one more mask cell, `offset + MIDDLE_TILE` |
| Tiles.MaskCellsMembers | main.py:88-91 | a mask cell is marked iff it is `offset + MIDDLE_TILE` for some given offset |
| Tiles.TranslateCard | main.py:91 | translating a set of cells keeps its size |
| Tiles.MaskCellsCount | main.py:88-91 | the number of ones in a built mask equals the number of distinct offsets |
| Tiles.CatalogAgainstMask | main.py:125-155 | shifted by (2, 2), the STICK and GUN shapes leave the 4×4 mask and CORNER fits |
| Projection.At | main.py:97-108 | the projected grid holds only zeros and ones, and ones only inside the window at `(20, 20) + anchor - MIDDLE_TILE` |
| Projection.SharedCellIffFootprintsMeet | main.py:110-118 | two well-placed projections share a 1 iff the houses' board footprints share a cell |
| Projection.SharedCellSymmetric | main.py:110-118 | the shared-cell test does not depend on the order of the houses |
| Projection.SharedCellEmpty | main.py:110-118 | a house with no block overlaps nothing |
| Projection.Term | main.py:117 | each term `A[i,k] * B[k,j]` of the product is non-negative, and positive iff both factors are 1 |
| Projection.EntryFromAtLeast | main.py:117 | an entry of `np.dot(A, B)` is non-negative and at least each of its terms |
| Projection.RowFromAtLeast | main.py:117 | a row sum of the product is non-negative and at least each of its entries |
| Projection.SumFromAtLeast | main.py:117 | the product sum is non-negative and at least each row sum |
| Projection.EntryFromZero | main.py:117 | an entry whose terms are all zero is zero |
| Projection.RowFromZero | main.py:117 | a row whose terms are all zero sums to zero |
| Projection.SumFromZero | main.py:117 | a product with all terms zero sums to zero |
| Projection.ProductPositiveIff | main.py:117 | `ProductSum`, which models `np.sum(np.dot(A, B))`, is non-negative, and it is positive iff some k has a 1 in column k of A and in row k of B |
| Projection.ProductPositiveIffColumnMeetsRow | main.py:110-118 | for placed houses, the product test is positive iff a block p of one and a block q of the other satisfy `anchor1.y + p.y == anchor2.x + q.x` |
| Projection.OneTileProduct | main.py:117 | for two one-tile houses the product test compares one column of the first window with one row of the second |
| Projection.OneTileFootprint | main.py:97-103 | a one-tile house covers exactly one board cell, its block shifted by the anchor less `MIDDLE_TILE` |
| Projection.OneTileMask | main.py:88-91 | a house built from a single offset o has its one block at `o + MIDDLE_TILE` |
| Projection.ProductMissesSelfOverlap | main.py:117 | a one-tile house (offset (0, 1)) overlaps itself, yet the product sum is 0 at every anchor off the diagonal x = y + 1 |
| Projection.ProductInventsOverlap | main.py:117 | two one-tile houses (offset (0, 0)) on different cells share no cell, yet the product is positive one way round and 0 the other |
| Houses.House.Placement | main.py:97-111 | a house's abstract board is 0 everywhere except the D×D window at `(20, 20) + anchor - MIDDLE_TILE`, where it equals the tile mask |
| Houses.House.ProjectionShowsTiles | main.py:97-111 | cell by cell, the projection of the mask's blocks is the window copy of the tiles on a zero board |
| Houses.House.constructor | main.py:88-94 | the mask is 1 exactly at `offset + MIDDLE_TILE` for the given offsets and 0 elsewhere, with as many ones as distinct offsets; orientation starts at RIGHT and the anchor is the given one |
| Houses.House.MarksMatchMask | main.py:89-91 | a mask holding 1 exactly at the cells marked by in-mask offsets is well formed, and its blocks are those cells |
| Houses.House.Flip | main.py:120-122 | the orientation moves to its cyclic successor; the mask and anchor do not change |
| Houses.House.FillBigAbstractBoard | main.py:97-108 | the D×D window at `(20, 20) + anchor - MIDDLE_TILE` receives the mask, and every other cell keeps its value |
| Houses.House.Collides | main.py:110-118 | projecting both houses into zeroed boards and comparing them cell by cell answers exactly whether they share an occupied cell |
| Houses.SharedTotal | main.py:117 | the cell-wise product sum of two 0/1 grids is non-negative, and positive iff they share a 1 |
| Houses.FilledShows | main.py:111-115 | a zeroed 100×100 grid with a house's mask copied into its window holds that house's projection |
| Houses.ShowsSharedCell | main.py:111-117 | grids holding two projections share a 1 iff the projections share a cell |
| Houses.OverlapsIffFootprintsMeet | main.py:110-118 | two houses overlap iff their footprints on the board share a cell |
| Houses.OverlapsSymmetric | main.py:110-118 | house overlap does not depend on the order of the houses |
| Houses.EmptyHouseOverlapsNothing | main.py:110-118 | a house with no block overlaps no house, on either side |
| Actors.WolfIsNamedWolf | main.py:176-178 | every wolf is named "wolf" |
| Actors.SameCellReflexiveSymmetric | main.py:20-22 | `SameCell`, which models `Actor.__mul__` (position equality), holds for an actor against itself and does not depend on the order |
| Actors.Collide | main.py:163-173 | an actor always collides with one on its own cell; between pigs on different cells with houses, the intended shared-cell overlap decides, not the matrix product of main.py:117; the wolf collides exactly on its own cell; an error arises iff a pig on a different cell faces the wolf or a pig with the other house ownership |
| Actors.PigCollisionMeaning | main.py:163-173 | with house overlap read as the intended shared cell, two pigs collide iff they share a cell or both own houses whose footprints meet; the plain "no" arises iff they are on different cells, agree on house ownership and their houses do not meet |
| Actors.PigCollisionSymmetric | main.py:163-173 | pig-to-pig collision does not depend on the order |
| Boards.NumpyIndex | main.py:64 | an index is accepted iff it lies in -5..4, and it lands on itself or on itself + 5 |
| Boards.TargetAsWritten | main.py:59-64 | a forbidden position raises the not-on-board error; any other position is accepted iff both coordinates lie in -5..4, and is then written into cell `(x mod 5, y mod 5)` |
| Boards.AsWrittenReachesForbiddenCell | main.py:59-64 | an actor at (-5, 0) passes the forbidden test and is written into the forbidden cell (0, 0) |
| Boards.Target | main.py:59-64 | a position is written iff it is on the 5×5 grid and not forbidden, and then into its own cell; a forbidden position raises the not-on-board error |
| Boards.AsWrittenAgreesWithoutNegatives | main.py:59-64 | on non-negative coordinates the as-written and corrected checks agree |
| Boards.WrittenIsLastOccupant | main.py:58-64 | after drawing, a cell is empty iff no actor stands there, and otherwise holds the name of the last listed actor standing there |
| Boards.UpdatedBoardKeepsForbiddenEmpty | main.py:39-45 | when every actor passes the check, every forbidden cell stays empty |
| Boards.Board.constructor | main.py:37-38 | a new board is 5×5 and all empty |
| Boards.Board.Update | main.py:56-64 | the board is redrawn from empty; the update completes iff every position is accepted, and otherwise raises at the first refused actor with that actor's error; every cell holds what the actors drawn so far put there. Positions are checked with the corrected `Target`: an actor at (-1, 2) raises `IndexOutOfBounds` here, where numpy would write it into (4, 2) |

## Left out

- `get_config` and `run` (main.py:181-215): configuration assembly and an empty game loop with no behaviour to state.
- `__repr__` and `__str__` (main.py:24-28): display formatting only.
- The `ABCMeta` base of `Actor` (main.py:15): metaclass machinery. Actors are a datatype with a pig and a wolf variant.
- numpy details: floating-point `np.zeros`, broadcasting, and `np.dot` as a library call. Grids are integer arrays and the product sum is written out.
- Houses.House.FillBigAbstractBoard: requires the window to lie inside the 100×100 board (`WindowFits`). The window's first row (and likewise column) is `anchor + 18` in each coordinate. A window that does not fit behaves in one of two ways, and neither is modelled:
  - When both ends of the slice are negative, that is a start in -100..-5 (anchor coordinate -118..-23), Python adds 100 to each end. The slice stays 4 wide and the copy lands in a wrapped window. Anchor (-50, 0) writes rows 68..71, the rows anchor (50, 0) uses, so two houses 100 cells apart would be reported as overlapping.
  - Any other misfit clips the slice to fewer than 4 rows or columns, and the assignment raises.
  `WindowFits` treats every misfit, wrapped or raising, as a placement outside the overlap space.
- Houses.House.Collides: requires both windows to lie inside the 100×100 board, for the same reason.
- Actors.Collide: when two pigs on different cells both own houses, requires each house to be well formed with its window inside the 100×100 board (`Ready`), for the same reason as `FillBigAbstractBoard`: only then are the houses projected. On the same-cell, wolf and ownership-mismatch paths nothing is required of the houses, because they are never read there.
- Actors.PigCollisionMeaning and Actors.PigCollisionSymmetric: require both pigs' houses to be `Ready`, even when the pigs share a cell or only one owns a house. The reason is that both lemmas state their result through the houses' placements on the board (`HousesMeet`, `Overlaps`), and those can be read only for well-formed houses.
- Actors.Collide: decides house overlap with the corrected shared-cell test, so it does not reproduce the matrix-product answers of main.py:117. `Projection.ProductInventsOverlap` shows where the two differ.
- Boards.Board.Update: checks positions with the corrected `Target`, so negative coordinates raise `IndexOutOfBounds` instead of wrapping as numpy does; `Boards.TargetAsWritten` models the wrapping.
- Houses.House.constructor: requires every offset to land inside the mask, that is `offset + MIDDLE_TILE` in 0..3 on each axis. Outside that range numpy wraps a coordinate of `offset + MIDDLE_TILE` in -4..-1 onto the opposite edge of the mask, and raises IndexError for one below -4 or above 3. Neither is modelled.
- The orientation of a house is stored and turned but never read by the overlap test. Rotating the mask is not part of the program.
- The anchor of a house is independent of its owner's position, as in the program. Nothing ties the two together.

## Findings

| source | as written | input that shows it | evidently intended | confidence | as-written member | corrected member |
|---|---|---|---|---|---|---|
| main.py:117 | overlap is `np.sum(np.dot(A, B)) > 0`, a matrix product: it compares columns of one projection with rows of the other | one-tile houses with offset (0, 0) at anchors (1, 2) and (2, 3) share no cell, yet the product is positive for this order and 0 for the reverse one | overlap means a shared occupied cell, symmetric in the two houses | high, not executed | Projection.ProductInventsOverlap | Houses.House.Collides |
| main.py:59-64 | only listed cells are refused, then `content[*position]` indexes the array, and numpy wraps negative indices | an actor at (-5, 0) passes the forbidden test and is written into the forbidden cell (0, 0) | every position off the 5×5 grid is refused | medium, not executed | Boards.AsWrittenReachesForbiddenCell | Boards.Target |
