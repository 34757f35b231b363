# Polyomino puzzle: orientation engine and board model

A model of the core of a browser puzzle game that has ten polyomino pieces: four tetrominoes and six pentominoes. The player drags each piece from a tray onto a 7 × 7 board that has a few blocked cells.

- **Orientation engine** (`game.js`). `rotate` turns a 0/1 matrix a quarter turn and `flip` mirrors it. `generateOrientations` builds the eight candidates: the base and its three turns, then the mirrored base and its three turns. It keeps the first occurrence of each distinct shape. The `PIECES` loop runs this for every piece definition.
- **Board and tray** (`main.js`):
  - Building the board of a puzzle: blocked cells, then start pieces.
  - Looking up a cell.
  - Painting a footprint, either as a start piece or as a user placement under a fresh placement id.
  - The collision check.
  - Removing a placement.
  - The tray, which holds the pieces not on the board, each in one orientation, and the index arithmetic that rotates and flips them.
  - A drop that moves a piece from the tray to the board.
  - A click that moves a placed piece back to the tray.
  - The win check: the tray is empty.

Modules, in dependency order:

| file | module | what it holds |
|---|---|---|
| wrappers.dfy | `Wrappers` | `Option` |
| shapes.dfy | `Shapes` | matrices, `Rotated`, `Flipped`, the `Rotate` method, cell counts |
| orientations.dfy | `OrientationSets` | candidates, first-occurrence dedup, `Orientations`, the `GenerateOrientations` method |
| symmetry.dfy | `Symmetries` | closure of every orientation set under turning and mirroring, and regeneration from any member |
| catalogue.dfy | `Catalogue` | the ten piece definitions, the `BuildPieces` loop, the orientations of every catalogue shape |
| shape_index.dfy | `ShapeIndex` | the JavaScript `%`, the rotate, flip and start-piece index arithmetic |
| grids.dfy | `Grids` | the board as a value: cells, footprint coverage, painting, clearing |
| placement.dfy | `Placement` | lemmas about painting and clearing on the board value |
| footprints.dfy | `Footprints` | each placement occupies exactly its orientation at the cell it was dropped on |
| occupancy.dfy | `Occupancy` | the multiset of pieces on a board, and how a placement or a removal changes it |
| board.dfy | `Boards` | the `Board` class over an `array2<Cell>`, specified by the board value |
| tray.dfy | `Trays` | the `Tray` class over a `seq` of tray pieces |
| game.dfy | `Games` | the `Game` class, with the drop, the click and the win check |
| level_one.dfy | `LevelOne` | the level-1 puzzle, with worked collision checks on it |

Modelling choices:

- **Cells.** A cell keeps what the game reads from the DOM classes and dataset: `blocked`, `filled`, `start-piece`, and the placement data (instance id, piece id, shape index) of a user placement.
- **Board invariant.** `ValidGrid` says three things. A cell is filled exactly when it is blocked, part of a start piece, or part of a placement. A placement never shares a cell with a blocked cell or a start piece. All cells of one placement carry the same data.
- **Placement ids.** The random UUID of a placement is replaced by a counter, `nextId`, and every id on the board is below it.
- **Conservation.** The game invariant `ValidState` keeps every piece of the puzzle in exactly one place. It is either in the tray or on the board, read off that placement's first cell.
- **Footprints.** The game keeps a ghost map `anchors` from placement id to the cell the piece was dropped on. `ValidState` also says that the cells carrying a placement's id are exactly the cells its orientation covers from that anchor, all of them on the board.

## Model

| member | source | states |
|---|---|---|
| Shapes.Rotated | game.js:12-22 | an M×N rectangular matrix turns into a rectangular N×M matrix |
| Shapes.RotatedCell | game.js:18 | the turn moves input cell (r, c) to output cell (c, M-1-r) |
| Shapes.RotatedCells | game.js:15-20 | the turn has N rows of M entries, and every input cell (r, c) lands at (c, M-1-r) |
| Shapes.Rotate | game.js:12-22 | the nested loops, writing into a freshly allocated N×M matrix, compute exactly the turn |
| Shapes.RotatedEquals | game.js:15-20 | a matrix of the turned dimensions whose entries are the input's turned entries is the turn |
| Shapes.RotatedTwiceAt | game.js:12-22 | two turns keep the dimensions and send cell (i, j) to (M-1-i, N-1-j) |
| Shapes.RotatedFourTimes | game.js:12-22 | four turns give back the original matrix |
| Shapes.RotatedOnes | game.js:12-22 | a turn keeps the number of 1-cells |
| Shapes.ReversedTwice | game.js:25 | reading a row backwards twice gives the row back |
| Shapes.ReversedSameFlags | game.js:25 | a reversed row holds the same flags as the row, as a multiset |
| Shapes.Flipped | game.js:24-26 | the flip keeps the row count and every row length, sets out[r][c] == in[r][N-1-c], and keeps a rectangular matrix rectangular |
| Shapes.FlippedEquals | game.js:24-26 | a matrix of the same dimensions whose entries are the mirrored entries is the flip |
| Shapes.FlipInvolution | game.js:24-26 | flipping twice gives back the matrix |
| Shapes.FlippedOnes | game.js:24-26 | a flip keeps the number of 1-cells |
| OrientationSets.Dedup | game.js:40-48 | first-occurrence dedup, the reference definition of the dedup loop; its properties are the Dedup lemmas below |
| OrientationSets.Orientations | game.js:28-50 | the orientation list of a base shape: its eight candidates, deduplicated; its properties are OrientationsProperties and the Symmetries lemmas |
| OrientationSets.Candidates | game.js:29-39 | there are always exactly eight candidates |
| OrientationSets.CandidatesAreTurns | game.js:31-39 | candidate k is the base turned k times, and candidate k+4 is the flipped base turned k times, for k < 4 |
| OrientationSets.CandidatesFrom | game.js:31-39 | given the three turns of the base and the flipped base's turns, the candidate list is those eight shapes in push order |
| OrientationSets.DedupSnoc | game.js:42-47 | one step of the dedup loop pushes a shape exactly when it has not been seen |
| OrientationSets.DedupElements | game.js:42-47 | dedup keeps exactly the elements of its input and is no longer than it |
| OrientationSets.DedupDistinct | game.js:40-48 | the deduplicated list has no two equal elements |
| OrientationSets.DedupHead | game.js:42-47 | the first element always survives dedup, at index 0 |
| OrientationSets.DedupOfDistinct | game.js:42-47 | dedup leaves a list without repeats unchanged |
| OrientationSets.DedupLengthDistinct | game.js:42-47 | if dedup drops nothing, the list is unchanged |
| OrientationSets.DedupFirstOccurrences | game.js:42-47 | dedup is the subsequence of first occurrences: it picks strictly increasing positions, and exactly those positions whose element does not occur earlier |
| OrientationSets.GenerateOrientations | game.js:28-50 | the two push loops and the dedup loop compute exactly `Orientations(base)` |
| OrientationSets.OrientationsProperties | game.js:28-50 | 1 to 8 orientations, index 0 is the base unchanged, no two are equal, every candidate is among them and each of them is a candidate |
| OrientationSets.OrientationsOrder | game.js:42-47 | orientation k is the candidate at the k-th first-occurrence position, those positions increase, and a candidate position is one exactly when no earlier candidate is equal |
| OrientationSets.TurnsOnes | game.js:31-39 | a shape turned any number of times keeps its number of 1-cells |
| OrientationSets.OrientationsOnes | game.js:28-50 | every orientation is rectangular and covers as many cells as the base |
| OrientationSets.EightOrientations | game.js:28-50 | with eight orientations the list is the candidate list itself: four turns of the base, then four turns of the flipped base |
| Symmetries.TurnsAdd | game.js:12-22 | k quarter turns followed by l more are k + l quarter turns |
| Symmetries.TurnsPeriod | game.js:12-22 | four more quarter turns change nothing |
| Symmetries.TurnsMod | game.js:12-22 | only the number of quarter turns modulo four matters |
| Symmetries.TurnMirrorTurn | game.js:12-26 | turning, mirroring and turning again gives the mirror image |
| Symmetries.MirrorTurn | game.js:12-26 | the mirror image of a turned shape is the mirrored shape turned three times |
| Symmetries.MirrorTurns | game.js:12-26 | mirroring k quarter turns of a shape is 3k quarter turns of its mirror image |
| Symmetries.TurnsInOrientations | game.js:28-50 | any number of turns of the base, or of the mirrored base, is in the orientation list |
| Symmetries.OrientationForm | game.js:28-50 | every orientation is the base or the mirrored base turned fewer than four times |
| Symmetries.RotatedClosed | game.js:28-50 | turning any orientation gives an orientation in the same list |
| Symmetries.TurnsClosed | game.js:28-50 | any number of turns of an orientation stays in the list |
| Symmetries.FlippedClosed | game.js:28-50 | mirroring any orientation gives an orientation in the same list |
| Symmetries.SubOrbit | game.js:28-50 | every orientation generated from a member of the list is in the list |
| Symmetries.BaseRegenerated | game.js:28-50 | the base is among the orientations generated from any member of its list |
| Symmetries.RegeneratedOrientations | game.js:28-50 | generating the orientations from any member of a list gives the same set of shapes |
| Catalogue.PieceDefinitions | game.js:54-108 | the ten piece definitions, with their ids, colours and base shapes as listed |
| Catalogue.BuildPieces | game.js:112-121 | the processed catalogue has the same ids as the definitions and keeps each id and colour, and each piece's shapes are the orientations of its base shape |
| Catalogue.BuiltCatalogueValid | game.js:112-121 | built from definitions filed under their own ids, with non-empty rectangular footprints and 1, 2, 4 or 8 orientations each, the catalogue is valid |
| Catalogue.OrientationsValid | game.js:28-50 | the orientations of a non-empty rectangular footprint, if there are 1, 2, 4 or 8 of them, form a valid shape list: non-empty, rectangular, each covering a cell, even in number when more than 4 |
| Catalogue.ZTetrominoOrientations | game.js:59 | `[[1,1,0],[0,1,1]]` has the four listed orientations |
| Catalogue.TTetrominoOrientations | game.js:64 | `[[1,1,1],[0,1,0]]` has the four listed orientations |
| Catalogue.JTetrominoOrientations | game.js:69 | `[[0,1],[0,1],[1,1]]` has all eight candidates as orientations |
| Catalogue.OTetrominoOrientations | game.js:74 | `[[1,1],[1,1]]` has the single orientation `[[1,1],[1,1]]` |
| Catalogue.ZPentominoOrientations | game.js:81 | `[[1,1,0],[0,1,0],[0,1,1]]` has the four listed orientations |
| Catalogue.XPentominoOrientations | game.js:86 | `[[0,1,0],[1,1,1],[0,1,0]]` has a single orientation |
| Catalogue.FPentominoOrientations | game.js:91 | `[[0,1,1],[1,1,0],[0,1,0]]` has all eight candidates as orientations |
| Catalogue.UPentominoOrientations | game.js:96 | `[[1,0,1],[1,1,1]]` has the four listed orientations |
| Catalogue.TPentominoOrientations | game.js:106 | `[[1,1,1],[0,1,0],[0,1,0]]` has the four listed orientations |
| Catalogue.ZTetraYCount | game.js:56-60 | z-tetra-y is rectangular with 4 orientations |
| Catalogue.TTetraPCount | game.js:61-65 | t-tetra-p is rectangular with 4 orientations |
| Catalogue.JTetraDbCount | game.js:66-70 | j-tetra-db is rectangular with 8 orientations |
| Catalogue.OTetraOCount | game.js:71-75 | o-tetra-o is rectangular with 1 orientation |
| Catalogue.ZPentominoCounts | game.js:78-102 | z-pento-lb and z-pento-r have the same base shape, which is rectangular with 4 orientations |
| Catalogue.XPentoPkCount | game.js:83-87 | x-pento-pk is rectangular with 1 orientation |
| Catalogue.FPentoBoCount | game.js:88-92 | f-pento-bo is rectangular with 8 orientations |
| Catalogue.UPentoDgCount | game.js:93-97 | u-pento-dg is rectangular with 4 orientations |
| Catalogue.TPentoLgCount | game.js:103-107 | t-pento-lg is rectangular with 4 orientations |
| Catalogue.CatalogueOrientationCounts | game.js:54-108 | every base shape of the catalogue is rectangular, with 1, 4 or 8 orientations |
| Catalogue.OnesPositive | game.js:54-108 | a footprint with a 1 somewhere covers at least one cell |
| Catalogue.CatalogueFootprintsCover | game.js:54-108 | every definition is filed under its own id, and every base shape covers at least one cell |
| Catalogue.BuildCatalogue | game.js:112-121 | the processed catalogue has the ten ids, each with the orientations of its base shape, and is valid |
| ShapeIndex.JsRem | main.js:376 | the JavaScript remainder has the dividend's sign, is smaller in size than the divisor, and differs from the dividend by a multiple of the divisor |
| ShapeIndex.JsRemCases | main.js:376 | the remainder is the index itself below n, and the index minus n from n up to 2n |
| ShapeIndex.RotateIndex | main.js:411 | a rotate sends index i < n-1 to i+1 and n-1 to 0, staying in [0, n) |
| ShapeIndex.ParsedHalf | main.js:242 | the half read back by `parseInt` is truncated toward zero: r - 2h is 0 or 1 for r >= 0, and 0 or -1 for r < 0 |
| ShapeIndex.FlipIndex | main.js:431-433 | a flip leaves the index alone when there are at most 4 orientations; with an even count it moves by half the count; with an odd count above 4 it moves up by n/2 (rounded down) up to the middle and down by n/2 + 1 after it; the index stays in [0, n) |
| ShapeIndex.StartShapeIndex | main.js:118 | a start piece's index is kept when in range, is the index modulo n when non-negative, lies in (-n, 0] when negative, and always differs from the index by a multiple of n |
| ShapeIndex.RotateTimesShift | main.js:411 | k rotations from index i land on i+k, wrapping once past n |
| ShapeIndex.RotateCycle | main.js:411 | n rotations give back the index, and no smaller positive number of them does |
| ShapeIndex.FlipIndexInvolution | main.js:431-433 | two flips give back the index when the count is even or at most 4 |
| ShapeIndex.OddFlipTwice | main.js:431-433 | with an odd count above 4, two flips from index 0 end on the last index, not on 0 |
| ShapeIndex.FlipIndexMirrors | main.js:431-433 | for a piece with eight orientations, the flip of orientation i is orientation i turned the other way up: the flipped base turned i times, or the base turned i-4 times |
| ShapeIndex.RotateIndexTurns | main.js:411 | for a piece with eight orientations, a rotate turns the shape a quarter turn, except from index 3 (to the flipped base) and from index 7 (back to the base) |
| Grids.Covers | main.js:338-340 | the reference definition of a covered cell: a 1 at (r, c) within the first row's width |
| Grids.Hits | main.js:155-159 | board cell (i, j) is covered by a shape anchored at (row0, col0) |
| Grids.Fits | main.js:337-359 | the reference definition of the collision check: every covered cell is on the board and not filled |
| Grids.InitialGrid | main.js:99-113 | the board before start pieces: exactly the listed cells are blocked and filled |
| Grids.PaintCell | main.js:164-176 | painting one cell: filled, then either the start-piece mark or the placement data |
| Grids.Painted | main.js:151-181 | the reference definition of painting: the covered board cells are painted, other cells and off-board positions untouched |
| Grids.ClearedCell | main.js:538-542 | clearing one cell: the filled mark and the placement data go |
| Grids.Removed | main.js:537-543 | every cell carrying the id is cleared |
| Grids.RemovalResult | main.js:527-546 | the report of a removal: none and -1 for a missing id or an unknown piece, else the first cell's piece id and shape index |
| Grids.RemovalGrid | main.js:527-546 | the board after a removal: unchanged when nothing is reported, else the cleared board |
| Grids.Removable | main.js:447-450 | a click removes a cell's placement when the cell is filled, not blocked, not a start piece, and carries placement data |
| Grids.InstanceCells | main.js:528 | every listed cell is on the board, carries the id, and lies before position k in document order |
| Placement.InstanceCellsExact | main.js:528 | every cell before position k that carries the id is listed, in strictly increasing document order |
| Placement.FreshId | main.js:153 | on a valid board no cell carries the next placement id |
| Placement.UnfilledIsEmpty | main.js:151-181 | on a valid board, a cell that is not filled is empty |
| Placement.FitsCell | main.js:337-359 | one covered cell off the board or on a filled cell refuses the move |
| Placement.PlaceFootprint | main.js:151-181 | after a fitting user placement, exactly the covered board cells are filled and carry the placement data, and every other cell is unchanged |
| Placement.PlaceInstanceCells | main.js:171 | after a placement, the cells carrying the new id are exactly the covered cells |
| Placement.PlaceKeepsValid | main.js:151-181 | a fitting placement under the next id keeps the board valid once the counter moves on |
| Placement.StartPaintKeepsValid | main.js:116-121 | painting a start piece on a board with no placements keeps it valid and without placements |
| Placement.PaintKeepsBlocked | main.js:151-181 | painting never changes which cells are blocked |
| Placement.PlaceSparesFilled | main.js:313-316 | a fitting user placement leaves every blocked and start-piece cell as it was |
| Placement.RemoveCells | main.js:537-543 | removal clears exactly the cells carrying the id and leaves blocked and start-piece cells as they were |
| Placement.RemoveKeepsValid | main.js:527-546 | clearing a placement keeps the board valid |
| Placement.RemoveAbsent | main.js:528-529 | when no cell carries the id, removal reports no piece and -1, and leaves the board unchanged |
| Placement.RemovePresent | main.js:531-545 | removal of a present id reports the piece id and shape index stored on the placement's cells and clears them, or reports no piece and changes nothing when the piece is not in the catalogue |
| Placement.PlaceThenRemove | main.js:527-546 | a fitting placement followed by removal of its id gives back the board cell for cell, and reports the placed piece and shape index |
| Placement.OverlapRefused | main.js:337-359 | once a placement is made, any footprint sharing one of its cells is refused |
| Placement.RemovableIsPlaced | main.js:447-450 | on a valid board a click can remove a cell exactly when the cell carries placement data, so blocked and start-piece cells are never removable |
| Placement.InitialGridValid | main.js:99-113 | the board without start pieces is valid with no placements, and a cell is blocked exactly when it is listed |
| Footprints.Occupies | main.js:151-181 | a placement occupies exactly the cells a shape covers from an anchor, all on the board |
| Footprints.PlacementsExact | main.js:151-181 | every placement on the board occupies exactly its recorded orientation at its anchor |
| Footprints.NoPlacementsExact | main.js:97-122 | a board without placements satisfies the footprint invariant |
| Footprints.PaintSparesOthers | main.js:151-181 | a fitting placement leaves the cells of every other id as they were |
| Footprints.DropKeepsExact | main.js:313-316 | a fitting drop, recorded at its target cell, keeps every placement exact, the new one included |
| Footprints.RemoveKeepsExact | main.js:527-546 | clearing a placement keeps every remaining placement exact |
| Footprints.RemoveClearsFootprint | main.js:537-543 | clearing a clicked placement empties precisely the cells its orientation covers from its anchor, and leaves every other cell as it was |
| Occupancy.PlaceAddsPiece | main.js:316 | a fitting placement under the next id adds exactly its piece to the pieces on the board |
| Occupancy.RemoveTakesPiece | main.js:527-546 | clearing the placement of a cell takes exactly that cell's piece off the board |
| Boards.StartGrid | main.js:97-122 | the reference definition of a loaded board: the initial board with every start piece painted in turn |
| Boards.StartGridValid | main.js:97-122 | a loaded board is valid, carries no placement data, and is blocked exactly on the listed cells |
| Boards.StartGridFilled | main.js:97-122 | on a loaded board a cell is filled exactly when it is listed as blocked or some start piece covers it |
| Boards.Board.CreateBoard | main.js:97-122 | the two nested loops and the start-piece loop build exactly the loaded board, which is valid, with the counter at 0 |
| Boards.Board.GetBoardCell | main.js:186-190 | a cell is found exactly for on-board coordinates, and it is that board cell |
| Boards.Board.PaintPiece | main.js:151-181 | the board becomes the painted board value; the counter moves on for a user placement only; a fitting user placement keeps a valid board valid |
| Boards.Board.IsValidMove | main.js:337-359 | the move is accepted exactly when every covered cell lands on the board on a cell that is not filled; no cell changes |
| Boards.Board.CellsOfInstance | main.js:528 | the cells carrying the id, in document order |
| Boards.Board.ClearCells | main.js:537-543 | exactly the listed cells lose their filled mark and placement data |
| Boards.Board.RemovePieceFromBoard | main.js:527-546 | the result and the new board are the removal's report and board; a valid board stays valid |
| Trays.Rendered | main.js:128-139 | the loaded tray holds exactly the listed ids the catalogue knows, each in orientation 0 |
| Trays.RenderedAllKnown | main.js:128-139 | when the catalogue knows every listed id, the tray lists them all, in order, in orientation 0 |
| Trays.FirstIndexOf | main.js:305 | the lookup finds the first tray piece with the id, or reports that none has it |
| Trays.Without | main.js:319 | taking out one tray piece leaves one fewer, as a multiset exactly that piece fewer |
| Trays.IdsWithout | main.js:319 | taking out one tray piece removes exactly its id from the tray's ids |
| Trays.IdsAppend | main.js:518 | appending a piece adds exactly its id |
| Trays.KeyIndex | main.js:374-382 | the key text "r" or "R" rotates, "f" or "F" flips, any other key keeps the index, and the index stays in range |
| Trays.Tray.RenderPieces | main.js:128-139 | the loop fills the tray with exactly the loaded tray |
| Trays.Tray.RemoveAt | main.js:319 | the tray loses exactly the piece at that position |
| Trays.Tray.AddPieceToTray | main.js:512-520 | a known piece with an orientation at the given index is appended in it; an unknown piece, or an index outside its orientation list (the element cannot be built, main.js:200-201), changes nothing; a valid tray stays valid |
| Trays.Tray.RotatePieceInTray | main.js:403-415 | only the clicked piece changes: it gets the rotated index; a valid tray stays valid |
| Trays.Tray.FlipPieceInTray | main.js:421-438 | only the right-clicked piece changes: it gets the flipped index; a valid tray stays valid |
| Trays.Tray.HandleKeyPress | main.js:364-387 | only the dragged piece changes: it gets the index the key selects; a valid tray stays valid |
| Trays.Tray.CheckWinCondition | main.js:392-396 | the puzzle is won exactly when no piece id can be found in the tray any more |
| Trays.IndexMovesKeepItemsValid | main.js:364-438 | rotating, flipping or a key press keeps every tray piece in one of its orientations |
| Trays.FlipKeepsZTetromino | main.js:431-434 | the Z tetromino has four orientations, so a flip keeps its index; yet its mirror image is a different orientation, index 2 |
| Games.DropAccepted | main.js:299-313 | the reference condition for an accepted drop: an id and a parsed index, a known piece with that orientation, a tray piece with the id, a target cell, and a fitting move |
| Games.DropKeepsPool | main.js:316-319 | an accepted drop moves exactly one copy of the piece from the tray to the board |
| Games.DropKeepsValid | main.js:296-328 | an accepted drop keeps the game state consistent, with the new placement anchored at the target cell |
| Games.ClickKeepsPool | main.js:455-459 | a click on a placed piece moves exactly its piece from the board back to the tray |
| Games.ClickKeepsValid | main.js:443-463 | a click on a removable cell removes that placement and reports its piece, and the state with the piece back in the tray is consistent |
| Games.Game.LoadPuzzle | main.js:71-91 | a loaded game has the loaded board and tray, is consistent, and its pieces are those in the tray |
| Games.Game.HandleDrop | main.js:296-328 | an accepted drop (known id, orientation in range, the piece in the tray, a target cell, a fitting move) paints the piece under the next id, anchors it at the target cell and removes the first tray piece with that id, and the result says whether the tray is now empty; anything else changes nothing; a win means every piece of the puzzle is on the board |
| Games.Game.PlaceDropped | main.js:313-322 | the accepted branch: the board becomes the painted board, the first tray piece with the id goes, the new placement is anchored at the target cell, and the result says whether the tray is empty |
| Games.Game.HandleBoardClick | main.js:443-463 | a click on a removable cell clears its whole placement, which is exactly the cells its orientation covers from its anchor, and appends its piece to the tray in orientation 0; any other click changes nothing; the game stays consistent |
| Games.Game.CheckWinCondition | main.js:392-396 | the game is won exactly when the tray is empty, and then every piece of the puzzle is on the board |
| LevelOne.LevelOneBoard | puzzles.js:22-34 | the level-1 board has no start pieces, is valid, and is filled exactly at (0,0), (3,3) and (6,6) |
| LevelOne.LevelOneTray | puzzles.js:31-34 | the level-1 tray holds the ten pieces, in the listed order, each in orientation 0 |
| LevelOne.SquareRefusedOnBlockedCell | main.js:349-354 | on level 1 the square anchored at (0,0) is refused because it covers the blocked cell |
| LevelOne.SquareFitsBesideBlockedCell | main.js:337-359 | on level 1 the square anchored at (0,1) fits |
| LevelOne.SquareBesideBlockedCellOccupies | main.js:151-181 | dropped there, the square occupies exactly (0,1), (0,2), (1,1) and (1,2) |
| LevelOne.SquareRefusedOffBottom | main.js:345-347 | the square anchored on the last row is refused because rows run off the board |
| LevelOne.SquareRefusedAboveBoard | main.js:349-354 | the square anchored at row -1 is refused, because the cell lookup finds no cell there |

In the places below the code does something other than what the game's rules and the code's own comments lead one to expect; the model follows the code:

- Blocked coordinates off the board are ignored rather than refused, because the board loop only visits cells on the board.
- Start pieces are painted without any collision check. A start-piece cell may therefore also be blocked, and any part that falls off the board is dropped.
- A drop is accepted by the drop handler. The painting routine itself does not check for collisions.
- The win is announced as soon as the tray is empty, and `Games.Game.CheckWinCondition` proves that every piece of the puzzle is then on the board.
- Removal also reports no piece when the stored piece id is not in the catalogue.

Two behaviours follow from the code as written:

- **Flip on the 4-orientation pieces.** z-tetra-y, z-pento-lb and z-pento-r each have four orientations, so a flip leaves the index unchanged, even though a mirror image exists at index 2 (`Trays.FlipKeepsZTetromino`). The comment beside the flip describes the unchanged index as an identical-looking rotation, but the mirror image is visibly different. Each of these pieces can reach its mirror image only by rotating.
- **Rotate on the 8-orientation pieces.** Rotating a piece with eight orientations from index 3 moves to the mirrored half (`ShapeIndex.RotateIndexTurns`).

## Left out

- DOM work is not modelled: element creation, CSS classes as strings, colours, grid styling, `querySelector` lookups and event listeners. A cell is the `Cell` record, and a tray element is a `TrayPiece`.
- The drag data is not modelled. `Games.Game.HandleDrop` takes the piece id, the shape index and the target cell as parameters:
  - the shape index is `None` when `parseInt` gives `NaN`;
  - the target is `None` when the drop is not over a board cell.
- The source reads the drop's shape index from the drag data written at drag start. The model does not connect `Trays.Tray.HandleKeyPress` to a later drop.
- `currentlyDraggedPiece` is not modelled. The dragged piece is the tray position `k` passed to `Trays.Tray.HandleKeyPress`, and a key press without a drag never calls it. The clicked tray piece is a position as well.
- The `dragging` guards of the tray click handlers are not modelled: dragging is DOM state.
- Trays.Tray.AddPieceToTray: for a known piece and an index outside its orientation list, the source throws a TypeError in `createPieceElement` (main.js:200-201) after setting the piece's `currentShapeIndex` and before the append at main.js:518. The model makes no change and reports `false`; the exception itself is not modelled.
- Board-to-tray dragging is not modelled (`handleBoardDragStart`, main.js:469-502). It is a DOM drag gesture. It is built from `Boards.Board.RemovePieceFromBoard` and `Trays.Tray.AddPieceToTray`, which are modelled.
- `crypto.randomUUID` is not modelled. The board's `nextId` counter stands for it, and every id on the board is below the counter.
- `JSON.stringify` and the `Set` of strings in the dedup loop are not modelled. Equality on `seq<seq<int>>` replaces them.
- The `currentShapeIndex` field of the shared piece objects, which is UI state, is not modelled. The orientation lists are immutable, and the index lives in each `TrayPiece`.
- The win modal, the level selector, the puzzle title and `console` output are not modelled: they are display only.
- Games.Game.HandleDrop: an unknown piece id makes the source throw inside the event handler, because it reads the orientation list of an undefined piece (main.js:304). A shape index outside the orientation list gives an undefined shape. The source throws on it inside the collision check (main.js:338) only when the piece is in the tray and the drop is over a board cell. Otherwise the guard at main.js:308 ends the handler quietly. The model makes no change in any of these cases.
- Games.Game.HandleDrop, Games.Game.HandleBoardClick: the anchors of the placements are a ghost map. The source does not record the cell a piece was dropped on.
- Games.Game.HandleDrop, Games.Game.HandleBoardClick: the puzzle's pieces are a ghost `pool` fixed at load time. Nothing in the source stores them.
- Boards.Board.CreateBoard: start pieces are required to name a catalogue piece. Their index must not reduce to a negative number: the source would index the orientation list with it and crash.
- Trays.Tray.FlipPieceInTray, Trays.Tray.HandleKeyPress: for an odd number of orientations above four, the source stores a fractional index as text, and every reader parses it back with `parseInt`. The model stores the parsed integer directly (`ShapeIndex.ParsedHalf`). No catalogue piece has such a count.
- Catalogue.CatalogueOrientationCounts: the count of orientations is shown to be in {1, 4, 8} only for the ten catalogue shapes. The general claim that every shape has 1, 2, 4 or 8 orientations is not proved: it needs the group theory of the square's symmetries, which the code never uses.
- The header comment of the piece file counts 46 covered cells in all. That count is not proved.
