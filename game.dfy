/**
 * One puzzle in play: the board and the tray, and the two moves that move
 * pieces between them. A drop that fits places the dragged piece and takes
 * it out of the tray; a click on a placed piece clears it and puts the
 * piece back in the tray. Every piece of the puzzle is in exactly one of
 * the two places at all times.
 */
module Games {
  import opened Wrappers
  import opened Shapes
  import opened Catalogue
  import opened Grids
  import opened Placement
  import opened Occupancy
  import opened Boards
  import opened Trays
  import opened Footprints

  /** Every placement on the board names a catalogue piece and one of its
      orientations. */
  ghost predicate PlacementsKnown(g: Grid, catalogue: map<PieceId, Piece>)
    requires IsGrid(g)
  {
    forall i, j :: InBounds(i, j) && g[i][j].tag.Some? ==>
      g[i][j].tag.value.pieceId in catalogue &&
      0 <= g[i][j].tag.value.shapeIndex < |catalogue[g[i][j].tag.value.pieceId].allShapes|
  }

  /** A drop places a piece exactly when it carries a piece id and a shape
      index, the catalogue knows the id and has that orientation, a piece
      with that id is in the tray, the drop lands on a board cell, and the
      orientation fits there. */
  ghost predicate DropAccepted(g: Grid, items: seq<TrayPiece>, catalogue: map<PieceId, Piece>,
                               pieceId: PieceId, shapeIndex: Option<int>, target: Option<(int, int)>)
    requires IsGrid(g)
  {
    pieceId != "" && shapeIndex.Some? && pieceId in catalogue &&
    0 <= shapeIndex.value < |catalogue[pieceId].allShapes| &&
    FirstIndexOf(items, pieceId).Some? && target.Some? &&
    Fits(g, catalogue[pieceId].allShapes[shapeIndex.value], target.value.0, target.value.1)
  }

  /** A consistent game state: a valid board whose placements are of known
      pieces and occupy exactly their orientations at their anchors, a
      valid catalogue, a tray of known pieces in known orientations, and
      every piece of the puzzle either in the tray or on the board, once. */
  ghost predicate ValidState(g: Grid, nextId: nat, items: seq<TrayPiece>, catalogue: map<PieceId, Piece>,
                             pool: multiset<PieceId>, anchors: map<nat, (int, int)>)
  {
    ValidGrid(g, nextId) && PlacementsKnown(g, catalogue) && PlacementsExact(g, catalogue, anchors) &&
    ValidCatalogue(catalogue) && ValidItems(items, catalogue) &&
    multiset(Ids(items)) + PlacedPieces(g, nextId) == pool
  }

  /** A placement of a known piece in one of its orientations keeps every
      placement on the board known. */
  lemma PlaceKeepsKnown(g: Grid, nextId: nat, catalogue: map<PieceId, Piece>, shape: Shape, row0: int, col0: int, t: Tag)
    requires ValidGrid(g, nextId) && Fits(g, shape, row0, col0) && PlacementsKnown(g, catalogue)
    requires t.pieceId in catalogue && 0 <= t.shapeIndex < |catalogue[t.pieceId].allShapes|
    ensures PlacementsKnown(Painted(g, shape, row0, col0, UserPaint(t)), catalogue)
  {
    PlaceFootprint(g, nextId, shape, row0, col0, t);
  }

  /** The pieces left in the tray after one leaves are still known pieces in
      known orientations. */
  lemma WithoutKeepsItems(items: seq<TrayPiece>, catalogue: map<PieceId, Piece>, k: nat)
    requires ValidItems(items, catalogue) && k < |items|
    ensures ValidItems(Without(items, k), catalogue)
  {
    IdsWithout(items, k);
  }

  /** An accepted drop moves one piece from the tray to the board. */
  lemma DropKeepsPool(g: Grid, nextId: nat, items: seq<TrayPiece>, catalogue: map<PieceId, Piece>,
                      pool: multiset<PieceId>, shape: Shape, row0: int, col0: int, pieceId: PieceId, index: int, k: nat)
    requires ValidGrid(g, nextId) && Fits(g, shape, row0, col0) && Rectangular(shape) && Ones(shape) > 0
    requires k < |items| && items[k].pieceId == pieceId
    requires multiset(Ids(items)) + PlacedPieces(g, nextId) == pool
    ensures multiset(Ids(Without(items, k))) +
      PlacedPieces(Painted(g, shape, row0, col0, UserPaint(Tag(nextId, pieceId, index))), nextId + 1) == pool
  {
    CoveredCell(shape);
    var r, c :| Covers(shape, r, c);
    PlaceAddsPiece(g, nextId, shape, row0, col0, pieceId, index, r, c);
    IdsWithout(items, k);
  }

  /** An accepted drop keeps the state consistent: the piece leaves the tray
      and arrives on the board under the next id. */
  lemma DropKeepsValid(g: Grid, nextId: nat, items: seq<TrayPiece>, catalogue: map<PieceId, Piece>,
                       pool: multiset<PieceId>, anchors: map<nat, (int, int)>,
                       pieceId: PieceId, shapeIndex: Option<int>, target: Option<(int, int)>)
    requires ValidState(g, nextId, items, catalogue, pool, anchors)
    requires DropAccepted(g, items, catalogue, pieceId, shapeIndex, target)
    ensures ValidState(Painted(g, catalogue[pieceId].allShapes[shapeIndex.value], target.value.0, target.value.1,
        UserPaint(Tag(nextId, pieceId, shapeIndex.value))),
      nextId + 1, Without(items, FirstIndexOf(items, pieceId).value), catalogue, pool, anchors[nextId := target.value])
  {
    var shape, index := catalogue[pieceId].allShapes[shapeIndex.value], shapeIndex.value;
    var (row0, col0) := target.value;
    var k := FirstIndexOf(items, pieceId).value;
    PlaceKeepsValid(g, nextId, shape, row0, col0, pieceId, index);
    PlaceKeepsKnown(g, nextId, catalogue, shape, row0, col0, Tag(nextId, pieceId, index));
    DropKeepsExact(g, nextId, catalogue, anchors, pieceId, index, row0, col0);
    WithoutKeepsItems(items, catalogue, k);
    DropKeepsPool(g, nextId, items, catalogue, pool, shape, row0, col0, pieceId, index, k);
  }

  /** A known piece put back in orientation 0 keeps the tray valid. */
  lemma AppendKeepsItems(items: seq<TrayPiece>, catalogue: map<PieceId, Piece>, pieceId: PieceId)
    requires ValidItems(items, catalogue) && ValidCatalogue(catalogue) && pieceId in catalogue
    ensures ValidItems(items + [TrayPiece(pieceId, 0)], catalogue)
  {
    assert ValidShapes(catalogue[pieceId].allShapes);
  }

  /** Clearing a placement keeps every remaining placement known. */
  lemma RemoveKeepsKnown(g: Grid, nextId: nat, catalogue: map<PieceId, Piece>, id: nat)
    requires ValidGrid(g, nextId) && PlacementsKnown(g, catalogue)
    ensures PlacementsKnown(Removed(g, id), catalogue)
  {
    RemoveCells(g, nextId, id);
  }

  /** A click on a placed piece moves its piece from the board back to the
      tray. */
  lemma ClickKeepsPool(g: Grid, nextId: nat, items: seq<TrayPiece>, pool: multiset<PieceId>, i: int, j: int)
    requires ValidGrid(g, nextId) && InBounds(i, j) && g[i][j].tag.Some?
    requires multiset(Ids(items)) + PlacedPieces(g, nextId) == pool
    ensures var t := g[i][j].tag.value;
      multiset(Ids(items + [TrayPiece(t.pieceId, 0)])) + PlacedPieces(Removed(g, t.instanceId), nextId) == pool
  {
    var t := g[i][j].tag.value;
    RemoveTakesPiece(g, nextId, t.instanceId, i, j);
    IdsAppend(items, TrayPiece(t.pieceId, 0));
  }

  /** A click on a placed piece's cell clears that placement and reports its
      piece, and putting the piece back in the tray keeps the state
      consistent. */
  lemma ClickKeepsValid(g: Grid, nextId: nat, items: seq<TrayPiece>, catalogue: map<PieceId, Piece>,
                        pool: multiset<PieceId>, anchors: map<nat, (int, int)>, i: int, j: int)
    requires ValidState(g, nextId, items, catalogue, pool, anchors)
    requires InBounds(i, j) && Removable(g[i][j])
    ensures var t := g[i][j].tag.value;
      RemovalResult(g, t.instanceId, catalogue.Keys) == Removal(Some(t.pieceId), t.shapeIndex) &&
      RemovalGrid(g, t.instanceId, catalogue.Keys) == Removed(g, t.instanceId)
    ensures var t := g[i][j].tag.value;
      ValidState(Removed(g, t.instanceId), nextId, items + [TrayPiece(t.pieceId, 0)], catalogue, pool, anchors)
  {
    var t := g[i][j].tag.value;
    RemovePresent(g, nextId, t.instanceId, catalogue.Keys, i, j);
    RemoveKeepsValid(g, nextId, t.instanceId);
    RemoveKeepsKnown(g, nextId, catalogue, t.instanceId);
    RemoveKeepsExact(g, nextId, catalogue, anchors, t.instanceId);
    AppendKeepsItems(items, catalogue, t.pieceId);
    ClickKeepsPool(g, nextId, items, pool, i, j);
  }

  class Game {
    const board: Board
    const tray: Tray
    /** The pieces of the puzzle: those the tray held when it was loaded. */
    ghost const pool: multiset<PieceId>
    /** The board cell each placement on the board was dropped on, by id. */
    ghost var anchors: map<nat, (int, int)>

    /** The board and the tray are valid and share a catalogue, every
        placement is of a known piece and occupies exactly its orientation
        at its anchor, and the tray and the board together hold each piece
        of the puzzle once. */
    ghost predicate Valid()
      reads this, board, board.cells, tray
    {
      board.Shaped() && board.catalogue == tray.catalogue &&
      ValidState(board.Contents(), board.nextId, tray.items, board.catalogue, pool, anchors)
    }

    /** Loads a puzzle: builds its board and fills the tray with its pieces. */
    constructor LoadPuzzle(pieces: map<PieceId, Piece>, puzzle: Puzzle)
      requires ValidCatalogue(pieces)
      requires forall k :: 0 <= k < |puzzle.startPieces| ==> StartPaintable(pieces, puzzle.startPieces[k])
      ensures Valid() && fresh(board) && fresh(board.cells) && fresh(tray)
      ensures board.catalogue == pieces && board.nextId == 0
      ensures board.Contents() == StartGrid(pieces, puzzle.blockedCells, puzzle.startPieces)
      ensures tray.items == Rendered(puzzle.piecesLeft, pieces)
      ensures pool == multiset(Ids(tray.items))
    {
      var b := new Board.CreateBoard(pieces, puzzle);
      var t := new Tray.RenderPieces(pieces, puzzle.piecesLeft);
      StartGridValid(pieces, puzzle.blockedCells, puzzle.startPieces);
      NoPlacementsExact(b.Contents(), pieces, map[]);
      board := b;
      tray := t;
      pool := multiset(Ids(t.items));
      anchors := map[];
    }

    /** A piece dropped on the board: placed under the next placement id and
        taken out of the tray when the drop is accepted, nothing changed
        otherwise; the result says whether the drop emptied the tray, which
        is the moment the win is announced. */
    method HandleDrop(pieceId: PieceId, shapeIndex: Option<int>, target: Option<(int, int)>) returns (won: bool)
      requires Valid()
      requires target.Some? ==> InBounds(target.value.0, target.value.1)
      modifies this, board, board.cells, tray
      ensures Valid()
      ensures var accepted := DropAccepted(old(board.Contents()), old(tray.items), board.catalogue, pieceId, shapeIndex, target);
        if accepted then
          board.nextId == old(board.nextId) + 1 &&
          board.Contents() == Painted(old(board.Contents()), board.catalogue[pieceId].allShapes[shapeIndex.value],
            target.value.0, target.value.1, UserPaint(Tag(old(board.nextId), pieceId, shapeIndex.value))) &&
          tray.items == Without(old(tray.items), FirstIndexOf(old(tray.items), pieceId).value) &&
          anchors == old(anchors)[old(board.nextId) := target.value] &&
          won == (tray.items == [])
        else
          board.nextId == old(board.nextId) && board.Contents() == old(board.Contents()) &&
          tray.items == old(tray.items) && anchors == old(anchors) && !won
      ensures won ==> PlacedPieces(board.Contents(), board.nextId) == pool
    {
      won := false;
      if pieceId == "" || shapeIndex.None? {
        return;
      }
      if pieceId !in board.catalogue {
        return;
      }
      var piece := board.catalogue[pieceId];
      var index := shapeIndex.value;
      var pieceAt := FirstIndexOf(tray.items, pieceId);
      if pieceAt.None? || target.None? {
        return;
      }
      if !(0 <= index < |piece.allShapes|) {
        return;
      }
      var shape := piece.allShapes[index];
      var (startRow, startCol) := target.value;
      var ok := board.IsValidMove(shape, startRow, startCol);
      if !ok {
        return;
      }
      won := PlaceDropped(pieceId, shapeIndex, target);
    }

    /** The accepted branch of a drop: the piece is painted under the next
        placement id at the target cell and its first copy leaves the tray;
        the result says whether the tray is now empty. */
    method PlaceDropped(pieceId: PieceId, shapeIndex: Option<int>, target: Option<(int, int)>) returns (won: bool)
      requires Valid()
      requires DropAccepted(board.Contents(), tray.items, board.catalogue, pieceId, shapeIndex, target)
      modifies this, board, board.cells, tray
      ensures Valid()
      ensures board.nextId == old(board.nextId) + 1
      ensures board.Contents() == Painted(old(board.Contents()), board.catalogue[pieceId].allShapes[shapeIndex.value],
        target.value.0, target.value.1, UserPaint(Tag(old(board.nextId), pieceId, shapeIndex.value)))
      ensures tray.items == Without(old(tray.items), FirstIndexOf(old(tray.items), pieceId).value)
      ensures anchors == old(anchors)[old(board.nextId) := target.value]
      ensures won == (tray.items == [])
    {
      var piece := board.catalogue[pieceId];
      var index := shapeIndex.value;
      var pieceAt := FirstIndexOf(tray.items, pieceId);
      var shape := piece.allShapes[index];
      var (startRow, startCol) := target.value;
      DropKeepsValid(board.Contents(), board.nextId, tray.items, board.catalogue, pool, anchors, pieceId, shapeIndex, target);
      anchors := anchors[board.nextId := (startRow, startCol)];
      board.PaintPiece(shape, startRow, startCol, piece.id, index, false);
      tray.RemoveAt(pieceAt.value);
      won := tray.CheckWinCondition();
    }

    /** A click on a board cell: when the cell belongs to a placed piece,
        the whole placement is cleared and its piece goes back to the end of
        the tray in orientation 0; any other click changes nothing. */
    method HandleBoardClick(target: Option<(int, int)>)
      requires Valid()
      requires target.Some? ==> InBounds(target.value.0, target.value.1)
      modifies board.cells, tray
      ensures Valid()
      ensures board.nextId == old(board.nextId)
      ensures var g := old(board.Contents());
        if target.Some? && Removable(g[target.value.0][target.value.1]) then
          var t := g[target.value.0][target.value.1].tag.value;
          board.Contents() == Removed(g, t.instanceId) && tray.items == old(tray.items) + [TrayPiece(t.pieceId, 0)]
        else
          board.Contents() == g && tray.items == old(tray.items)
      ensures var g := old(board.Contents());
        target.Some? && Removable(g[target.value.0][target.value.1]) ==>
          var t := g[target.value.0][target.value.1].tag.value;
          var anchor := anchors[t.instanceId];
          forall k, l :: InBounds(k, l) ==>
            board.Contents()[k][l] ==
              if Hits(board.catalogue[t.pieceId].allShapes[t.shapeIndex], anchor.0, anchor.1, k, l)
              then Cell(false, false, false, None) else g[k][l]
    {
      if target.None? {
        return;
      }
      var (row, col) := target.value;
      var clicked := board.GetBoardCell(row, col);
      if clicked.None? || !Removable(clicked.value) {
        return;
      }
      var instanceId := clicked.value.tag.value.instanceId;
      ClickKeepsValid(board.Contents(), board.nextId, tray.items, board.catalogue, pool, anchors, row, col);
      RemoveClearsFootprint(board.Contents(), board.nextId, board.catalogue, anchors, row, col);
      var pieceId, shapeIndex := board.RemovePieceFromBoard(instanceId);
      if pieceId.Some? {
        var _ := tray.AddPieceToTray(pieceId.value, 0);
      }
    }

    /** The puzzle is solved when the tray is empty. */
    function CheckWinCondition(): (won: bool)
      requires Valid()
      reads this, board, board.cells, tray
      ensures won <==> tray.items == []
      ensures won ==> PlacedPieces(board.Contents(), board.nextId) == pool
    {
      tray.CheckWinCondition()
    }
  }
}
