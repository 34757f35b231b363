/**
 * The game board object: a 7 x 7 array of cells updated in place by
 * painting and removal, a read-only catalogue of processed pieces, and a
 * counter that hands out placement ids.
 */
module Boards {
  import opened Wrappers
  import opened Shapes
  import opened Catalogue
  import opened Grids
  import opened Placement
  import opened ShapeIndex

  /** A piece fixed on the board when the puzzle loads. */
  datatype StartPieceInfo = StartPieceInfo(id: PieceId, shapeIndex: int, row: int, col: int)

  /** A puzzle: blocked cells, start pieces and the ids put in the tray. */
  datatype Puzzle = Puzzle(level: int, blockedCells: seq<(int, int)>, startPieces: seq<StartPieceInfo>, piecesLeft: seq<PieceId>)

  /** What painting a start piece needs: its id is in the catalogue, it has
      orientations, and its index, reduced as the source reduces it, names
      one of them (a negative index that is not a multiple of the count
      would give a negative index and no shape). */
  predicate StartPaintable(pieces: map<PieceId, Piece>, s: StartPieceInfo)
  {
    s.id in pieces && |pieces[s.id].allShapes| > 0 &&
    0 <= StartShapeIndex(s.shapeIndex, |pieces[s.id].allShapes|)
  }

  /** The orientation a start piece is painted in. */
  function StartShape(pieces: map<PieceId, Piece>, s: StartPieceInfo): Shape
    requires StartPaintable(pieces, s)
  {
    pieces[s.id].allShapes[StartShapeIndex(s.shapeIndex, |pieces[s.id].allShapes|)]
  }

  /** The board once the puzzle is loaded: the blocked cells, then the start
      pieces painted one after another. */
  function StartGrid(pieces: map<PieceId, Piece>, blockedCells: seq<(int, int)>, starts: seq<StartPieceInfo>): (g: Grid)
    requires forall k :: 0 <= k < |starts| ==> StartPaintable(pieces, starts[k])
    ensures IsGrid(g)
    decreases |starts|
  {
    if starts == [] then InitialGrid(blockedCells)
    else
      var last := starts[|starts| - 1];
      Painted(StartGrid(pieces, blockedCells, starts[..|starts| - 1]), StartShape(pieces, last), last.row, last.col, StartPaint)
  }

  /** A loaded board is valid, carries no placement data, and its blocked
      cells are exactly the listed ones that lie on the board. */
  lemma {:induction false} StartGridValid(pieces: map<PieceId, Piece>, blockedCells: seq<(int, int)>, starts: seq<StartPieceInfo>)
    requires forall k :: 0 <= k < |starts| ==> StartPaintable(pieces, starts[k])
    ensures ValidGrid(StartGrid(pieces, blockedCells, starts), 0)
    ensures forall i, j :: InBounds(i, j) ==>
      StartGrid(pieces, blockedCells, starts)[i][j].tag.None? &&
      (StartGrid(pieces, blockedCells, starts)[i][j].blocked <==> (i, j) in blockedCells)
    decreases |starts|
  {
    if starts == [] {
      InitialGridValid(blockedCells);
    } else {
      var n := |starts| - 1;
      var last := starts[n];
      StartGridValid(pieces, blockedCells, starts[..n]);
      var g := StartGrid(pieces, blockedCells, starts[..n]);
      StartPaintKeepsValid(g, 0, StartShape(pieces, last), last.row, last.col);
      PaintKeepsBlocked(g, StartShape(pieces, last), last.row, last.col, StartPaint);
    }
  }

  /** A start piece covers board cell (i, j). */
  predicate StartCovers(pieces: map<PieceId, Piece>, starts: seq<StartPieceInfo>, k: int, i: int, j: int)
    requires forall k :: 0 <= k < |starts| ==> StartPaintable(pieces, starts[k])
  {
    0 <= k < |starts| && Hits(StartShape(pieces, starts[k]), starts[k].row, starts[k].col, i, j)
  }

  /** On a loaded board a cell is filled exactly when it is blocked or
      covered by one of the start pieces. */
  lemma {:induction false} StartGridFilled(pieces: map<PieceId, Piece>, blockedCells: seq<(int, int)>, starts: seq<StartPieceInfo>, i: int, j: int)
    requires forall k :: 0 <= k < |starts| ==> StartPaintable(pieces, starts[k])
    requires InBounds(i, j)
    ensures StartGrid(pieces, blockedCells, starts)[i][j].filled <==>
      (i, j) in blockedCells || exists k :: StartCovers(pieces, starts, k, i, j)
    decreases |starts|
  {
    if starts == [] {
      assert !exists k :: StartCovers(pieces, starts, k, i, j);
    } else {
      var n := |starts| - 1;
      var prefix := starts[..n];
      var last := starts[n];
      var hit := Hits(StartShape(pieces, last), last.row, last.col, i, j);
      StartGridFilled(pieces, blockedCells, prefix, i, j);
      var g: Grid := StartGrid(pieces, blockedCells, prefix);
      assert StartGrid(pieces, blockedCells, starts)[i][j].filled <==> g[i][j].filled || hit;
      assert (exists k :: StartCovers(pieces, starts, k, i, j)) <==>
        (exists k :: StartCovers(pieces, prefix, k, i, j)) || hit
      by {
        forall k | 0 <= k < n
          ensures StartCovers(pieces, prefix, k, i, j) == StartCovers(pieces, starts, k, i, j)
        {
          assert prefix[k] == starts[k];
        }
        assert StartCovers(pieces, starts, n, i, j) == hit;
      }
    }
  }

  class Board {
    /** The processed catalogue the board looks pieces up in. */
    const catalogue: map<PieceId, Piece>
    const cells: array2<Cell>
    /** The next placement id; stands for a freshly generated unique id. */
    var nextId: nat

    ghost predicate Shaped()
    {
      cells.Length0 == ROWS && cells.Length1 == COLS
    }

    /** The cells as a board value. */
    ghost function Contents(): (g: Grid)
      requires Shaped()
      reads cells
      ensures IsGrid(g)
    {
      seq(ROWS, i requires 0 <= i < ROWS reads cells => seq(COLS, j requires 0 <= j < COLS reads cells => cells[i, j]))
    }

    ghost predicate Valid()
      reads this, cells
    {
      Shaped() && ValidGrid(Contents(), nextId)
    }

    /** Builds the board of a puzzle: marks the blocked cells in two nested
        loops, then paints the start pieces. */
    constructor CreateBoard(pieces: map<PieceId, Piece>, puzzle: Puzzle)
      requires forall k :: 0 <= k < |puzzle.startPieces| ==> StartPaintable(pieces, puzzle.startPieces[k])
      ensures Shaped() && fresh(cells)
      ensures catalogue == pieces && nextId == 0
      ensures Contents() == StartGrid(pieces, puzzle.blockedCells, puzzle.startPieces)
      ensures Valid()
    {
      catalogue := pieces;
      cells := new Cell[ROWS, COLS]((i, j) => Cell(false, false, false, None));
      nextId := 0;
      new;
      for r := 0 to ROWS
        invariant nextId == 0
        invariant forall i, j :: InBounds(i, j) ==>
          cells[i, j] == if i < r then InitialGrid(puzzle.blockedCells)[i][j] else Cell(false, false, false, None)
      {
        for c := 0 to COLS
          invariant nextId == 0
          invariant forall i, j :: InBounds(i, j) ==>
            cells[i, j] ==
              if i < r || (i == r && j < c) then InitialGrid(puzzle.blockedCells)[i][j] else Cell(false, false, false, None)
        {
          var blocked := (r, c) in puzzle.blockedCells;
          cells[r, c] := Cell(blocked, blocked, false, None);
        }
      }
      assert Contents() == StartGrid(pieces, puzzle.blockedCells, []) by {
        assert forall i :: 0 <= i < ROWS ==> Contents()[i] == InitialGrid(puzzle.blockedCells)[i];
      }
      var starts := puzzle.startPieces;
      for k := 0 to |starts|
        invariant nextId == 0
        invariant Contents() == StartGrid(pieces, puzzle.blockedCells, starts[..k])
      {
        var pieceInfo := starts[k];
        var pieceData := catalogue[pieceInfo.id];
        var shape := pieceData.allShapes[StartShapeIndex(pieceInfo.shapeIndex, |pieceData.allShapes|)];
        PaintPiece(shape, pieceInfo.row, pieceInfo.col, "", 0, true);
        assert starts[..k + 1][..k] == starts[..k];
      }
      assert starts[..|starts|] == starts;
      StartGridValid(pieces, puzzle.blockedCells, starts);
    }

    /** The cell at (row, col), or nothing off the board. */
    function GetBoardCell(row: int, col: int): (cell: Option<Cell>)
      requires Shaped()
      reads cells
      ensures cell.Some? <==> InBounds(row, col)
      ensures cell.Some? ==> cell.value == Contents()[row][col]
    {
      if InBounds(row, col) then Some(cells[row, col]) else None
    }

    /** Paints a footprint: every covered cell on the board is marked filled,
        and either as part of a start piece or with the data of a new user
        placement under a fresh id. */
    method PaintPiece(shape: Shape, startRow: int, startCol: int, pieceId: PieceId, shapeIndex: int, isStartPiece: bool)
      requires Shaped()
      modifies this, cells
      ensures nextId == if isStartPiece then old(nextId) else old(nextId) + 1
      ensures Contents() == Painted(old(Contents()), shape, startRow, startCol,
        if isStartPiece then StartPaint else UserPaint(Tag(old(nextId), pieceId, shapeIndex)))
      ensures old(Valid()) && !isStartPiece && Fits(old(Contents()), shape, startRow, startCol) ==> Valid()
    {
      ghost var g0 := Contents();
      ghost var wasValid := Valid();
      ghost var n0 := nextId;
      var paint := StartPaint;
      if !isStartPiece {
        var instanceId := nextId;
        nextId := nextId + 1;
        paint := UserPaint(Tag(instanceId, pieceId, shapeIndex));
      }
      ghost var n1 := nextId;
      for r := 0 to |shape|
        invariant nextId == n1
        invariant forall i, j :: InBounds(i, j) ==>
          cells[i, j] == if Hits(shape, startRow, startCol, i, j) && i - startRow < r then PaintCell(paint, g0[i][j]) else g0[i][j]
      {
        for c := 0 to |shape[0]|
          invariant nextId == n1
          invariant forall i, j :: InBounds(i, j) ==>
            cells[i, j] ==
              if Hits(shape, startRow, startCol, i, j) && (i - startRow < r || (i - startRow == r && j - startCol < c))
              then PaintCell(paint, g0[i][j]) else g0[i][j]
        {
          if c < |shape[r]| && shape[r][c] == 1 {
            var boardRow := startRow + r;
            var boardCol := startCol + c;
            var cellToColor := GetBoardCell(boardRow, boardCol);
            if cellToColor.Some? {
              cells[boardRow, boardCol] := PaintCell(paint, cellToColor.value);
            }
          }
        }
      }
      assert forall i :: 0 <= i < ROWS ==> Contents()[i] == Painted(g0, shape, startRow, startCol, paint)[i];
      if wasValid && !isStartPiece && Fits(g0, shape, startRow, startCol) {
        PlaceKeepsValid(g0, n0, shape, startRow, startCol, pieceId, shapeIndex);
      }
    }

    /** The collision check: row by row, refuse as soon as a covered cell
        falls off the board or on a filled cell. */
    method IsValidMove(shape: Shape, startRow: int, startCol: int) returns (ok: bool)
      requires Shaped()
      ensures ok == Fits(Contents(), shape, startRow, startCol)
    {
      for r := 0 to |shape|
        invariant forall r', c' :: Covers(shape, r', c') && r' < r ==>
          InBounds(startRow + r', startCol + c') && !cells[startRow + r', startCol + c'].filled
      {
        for c := 0 to |shape[0]|
          invariant forall r', c' :: Covers(shape, r', c') && (r' < r || (r' == r && c' < c)) ==>
            InBounds(startRow + r', startCol + c') && !cells[startRow + r', startCol + c'].filled
        {
          if c < |shape[r]| && shape[r][c] == 1 {
            var boardRow := startRow + r;
            var boardCol := startCol + c;
            if boardRow >= ROWS || boardCol >= COLS {
              FitsCell(Contents(), shape, startRow, startCol, r, c);
              return false;
            }
            var cell := GetBoardCell(boardRow, boardCol);
            if cell.None? || cell.value.filled {
              FitsCell(Contents(), shape, startRow, startCol, r, c);
              return false;
            }
          }
        }
      }
      return true;
    }

    /** The cells carrying an instance id, in document order. */
    method CellsOfInstance(instanceId: nat) returns (found: seq<(int, int)>)
      requires Shaped()
      ensures found == InstanceCells(Contents(), instanceId, ROWS * COLS)
    {
      found := [];
      for k := 0 to ROWS * COLS
        invariant found == InstanceCells(Contents(), instanceId, k)
      {
        var i, j := k / COLS, k % COLS;
        if cells[i, j].tag.Some? && cells[i, j].tag.value.instanceId == instanceId {
          found := found + [(i, j)];
        }
      }
    }

    /** Takes the `filled` mark and the placement data off the listed cells. */
    method ClearCells(found: seq<(int, int)>)
      requires Shaped()
      requires forall n :: 0 <= n < |found| ==> InBounds(found[n].0, found[n].1)
      modifies cells
      ensures forall i, j :: InBounds(i, j) ==>
        Contents()[i][j] == if (i, j) in found then ClearedCell(old(Contents())[i][j]) else old(Contents())[i][j]
    {
      ghost var g0 := Contents();
      for n := 0 to |found|
        invariant forall i, j :: InBounds(i, j) ==>
          cells[i, j] == if (i, j) in found[..n] then ClearedCell(g0[i][j]) else g0[i][j]
      {
        var (i, j) := found[n];
        cells[i, j] := cells[i, j].(filled := false, tag := None);
        assert found[..n + 1] == found[..n] + [(i, j)];
      }
      assert found[..|found|] == found;
    }

    /** Removes one placement: collects the cells carrying the id in document
        order, reads the piece id and orientation off the first of them, and
        clears them all; reports no piece and -1 when no cell carries the id
        or the stored piece is not in the catalogue. */
    method RemovePieceFromBoard(instanceId: nat) returns (pieceId: Option<PieceId>, shapeIndex: int)
      requires Shaped()
      modifies cells
      ensures Removal(pieceId, shapeIndex) == RemovalResult(old(Contents()), instanceId, catalogue.Keys)
      ensures Contents() == RemovalGrid(old(Contents()), instanceId, catalogue.Keys)
      ensures old(Valid()) ==> Valid()
    {
      ghost var g0 := Contents();
      ghost var wasValid := Valid();
      var allCellsOfPiece := CellsOfInstance(instanceId);
      if |allCellsOfPiece| == 0 {
        return None, -1;
      }
      var first := cells[allCellsOfPiece[0].0, allCellsOfPiece[0].1];
      var storedId := first.tag.value.pieceId;
      var storedIndex := first.tag.value.shapeIndex;
      if storedId !in catalogue {
        return None, -1;
      }
      InstanceCellsExact(g0, instanceId, ROWS * COLS);
      ClearCells(allCellsOfPiece);
      assert forall i :: 0 <= i < ROWS ==> Contents()[i] == Removed(g0, instanceId)[i];
      if wasValid {
        RemoveKeepsValid(g0, nextId, instanceId);
      }
      return Some(storedId), storedIndex;
    }
  }
}
