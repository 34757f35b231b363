/**
 * The level-1 puzzle: three blocked cells on the diagonal, no start
 * pieces, all ten pieces in the tray. A few drops of the square
 * tetromino on its board, worked out against the collision check.
 */
module LevelOne {
  import opened Shapes
  import opened Catalogue
  import opened Grids
  import opened Placement
  import opened Boards
  import opened Trays

  const Blocked: seq<(int, int)> := [(0, 0), (3, 3), (6, 6)]

  const Pieces: seq<PieceId> := ["z-tetra-y", "t-tetra-p", "j-tetra-db", "o-tetra-o", "z-pento-lb",
                                 "x-pento-pk", "f-pento-bo", "u-pento-dg", "z-pento-r", "t-pento-lg"]

  const Level: Puzzle := Puzzle(1, Blocked, [], Pieces)

  const Square: Shape := [[1, 1], [1, 1]]

  /** The loaded level-1 board is the empty board with its three blocked
      cells, and it is valid. */
  lemma LevelOneBoard(pieces: map<PieceId, Piece>)
    ensures StartGrid(pieces, Level.blockedCells, Level.startPieces) == InitialGrid(Blocked)
    ensures ValidGrid(InitialGrid(Blocked), 0)
    ensures forall i, j :: InBounds(i, j) ==> (InitialGrid(Blocked)[i][j].filled <==> i == j && i % 3 == 0)
  {
    InitialGridValid(Blocked);
  }

  /** With the ten catalogue pieces known, the level-1 tray shows all of them,
      in the listed order, each in orientation 0. */
  lemma LevelOneTray(pieces: map<PieceId, Piece>)
    requires pieces.Keys == PieceDefinitions.Keys
    ensures |Rendered(Level.piecesLeft, pieces)| == 10
    ensures forall k :: 0 <= k < 10 ==> Rendered(Level.piecesLeft, pieces)[k] == TrayPiece(Pieces[k], 0)
  {
    RenderedAllKnown(Pieces, pieces);
  }

  /** The square cannot go in the top-left corner: that cell is blocked. */
  lemma SquareRefusedOnBlockedCell()
    ensures !Fits(InitialGrid(Blocked), Square, 0, 0)
  {
    FitsCell(InitialGrid(Blocked), Square, 0, 0, 0, 0);
  }

  /** The square fits one column to the right of the blocked corner. */
  lemma SquareFitsBesideBlockedCell()
    ensures Fits(InitialGrid(Blocked), Square, 0, 1)
  {
    forall r, c | Covers(Square, r, c)
      ensures InBounds(r, 1 + c) && !InitialGrid(Blocked)[r][1 + c].filled
    {
      assert 0 <= r < 2 && 0 <= c < 2;
    }
  }

  /** Dropped there as the first placement, the square occupies exactly the
      four cells (0, 1), (0, 2), (1, 1) and (1, 2) under placement id 0. */
  lemma SquareBesideBlockedCellOccupies()
    ensures var g := Painted(InitialGrid(Blocked), Square, 0, 1, UserPaint(Tag(0, "o-tetra-o", 0)));
      forall i, j :: InBounds(i, j) ==> (HasInstance(g[i][j], 0) <==> (i, j) in {(0, 1), (0, 2), (1, 1), (1, 2)})
  {
    SquareFitsBesideBlockedCell();
    InitialGridValid(Blocked);
    PlaceInstanceCells(InitialGrid(Blocked), 0, Square, 0, 1, "o-tetra-o", 0);
  }

  /** Anchored on the last row, the square's lower half falls off the board. */
  lemma SquareRefusedOffBottom()
    ensures !Fits(InitialGrid(Blocked), Square, 6, 0)
  {
    FitsCell(InitialGrid(Blocked), Square, 6, 0, 1, 0);
  }

  /** Anchored above the board, the square is refused even though the
      bounds guard of the collision check only looks at the far edges: the
      cell lookup finds no cell there. */
  lemma SquareRefusedAboveBoard()
    ensures !Fits(InitialGrid(Blocked), Square, -1, 2)
  {
    FitsCell(InitialGrid(Blocked), Square, -1, 2, 0, 0);
  }
}
