/**
 * Laws of the board values: the collision check, placement and removal
 * keep the board invariant, a removal undoes a placement exactly, and the
 * blocked cells and start pieces are never touched.
 */
module Placement {
  import opened Wrappers
  import opened Shapes
  import opened Catalogue
  import opened Grids

  /** The cells of an id in document order are exactly the cells carrying
      it, listed in strictly increasing position. */
  lemma {:induction false} InstanceCellsExact(g: Grid, id: nat, k: nat)
    requires IsGrid(g) && k <= ROWS * COLS
    ensures forall i, j :: InBounds(i, j) && i * COLS + j < k && HasInstance(g[i][j], id) ==>
      (i, j) in InstanceCells(g, id, k)
    ensures forall n, m :: 0 <= n < m < |InstanceCells(g, id, k)| ==>
      InstanceCells(g, id, k)[n].0 * COLS + InstanceCells(g, id, k)[n].1 <
      InstanceCells(g, id, k)[m].0 * COLS + InstanceCells(g, id, k)[m].1
  {
    if k > 0 {
      InstanceCellsExact(g, id, k - 1);
      var i0, j0 := (k - 1) / COLS, (k - 1) % COLS;
      forall i, j | InBounds(i, j) && i * COLS + j == k - 1
        ensures i == i0 && j == j0
      {
      }
    }
  }

  /** The next id is on no cell of a valid board. */
  lemma FreshId(g: Grid, nextId: nat)
    requires ValidGrid(g, nextId)
    ensures forall i, j :: InBounds(i, j) ==> !HasInstance(g[i][j], nextId)
  {
  }

  /** On a valid board a cell that is not filled is empty: no mark and no
      placement data. */
  lemma UnfilledIsEmpty(g: Grid, nextId: nat, i: int, j: int)
    requires ValidGrid(g, nextId) && InBounds(i, j) && !g[i][j].filled
    ensures IsEmpty(g[i][j])
  {
  }

  /** The collision check spelled out for one covered cell: a drop is refused
      as soon as one covered cell falls off the board or on a filled cell. */
  lemma FitsCell(g: Grid, shape: Shape, row0: int, col0: int, r: int, c: int)
    requires IsGrid(g) && Covers(shape, r, c)
    requires !InBounds(row0 + r, col0 + c) || g[row0 + r][col0 + c].filled
    ensures !Fits(g, shape, row0, col0)
  {
  }

  /** A placement that fits turns exactly the covered cells into cells of
      the new placement and leaves every other cell as it was. */
  lemma PlaceFootprint(g: Grid, nextId: nat, shape: Shape, row0: int, col0: int, t: Tag)
    requires ValidGrid(g, nextId) && Fits(g, shape, row0, col0)
    ensures forall i, j :: InBounds(i, j) ==>
      Painted(g, shape, row0, col0, UserPaint(t))[i][j] ==
        if Hits(shape, row0, col0, i, j) then Cell(false, true, false, Some(t)) else g[i][j]
  {
    var out := Painted(g, shape, row0, col0, UserPaint(t));
    forall i, j | InBounds(i, j) && Hits(shape, row0, col0, i, j)
      ensures out[i][j] == Cell(false, true, false, Some(t))
    {
      assert InBounds(row0 + (i - row0), col0 + (j - col0));
      UnfilledIsEmpty(g, nextId, i, j);
    }
  }

  /** With a fresh id, the cells of the new placement are exactly the covered
      cells. */
  lemma PlaceInstanceCells(g: Grid, nextId: nat, shape: Shape, row0: int, col0: int, pieceId: PieceId, shapeIndex: int)
    requires ValidGrid(g, nextId) && Fits(g, shape, row0, col0)
    ensures forall i, j :: InBounds(i, j) ==>
      HasInstance(Painted(g, shape, row0, col0, UserPaint(Tag(nextId, pieceId, shapeIndex)))[i][j], nextId) ==
      Hits(shape, row0, col0, i, j)
  {
    PlaceFootprint(g, nextId, shape, row0, col0, Tag(nextId, pieceId, shapeIndex));
  }

  /** A fitting placement under the next id keeps the board valid once the
      counter has moved on. */
  lemma PlaceKeepsValid(g: Grid, nextId: nat, shape: Shape, row0: int, col0: int, pieceId: PieceId, shapeIndex: int)
    requires ValidGrid(g, nextId) && Fits(g, shape, row0, col0)
    ensures ValidGrid(Painted(g, shape, row0, col0, UserPaint(Tag(nextId, pieceId, shapeIndex))), nextId + 1)
  {
    PlaceFootprint(g, nextId, shape, row0, col0, Tag(nextId, pieceId, shapeIndex));
  }

  /** A start piece painted over cells without placement data keeps the
      board valid; it may cover blocked cells and other start pieces. */
  lemma StartPaintKeepsValid(g: Grid, nextId: nat, shape: Shape, row0: int, col0: int)
    requires ValidGrid(g, nextId)
    requires forall i, j :: InBounds(i, j) ==> g[i][j].tag.None?
    ensures ValidGrid(Painted(g, shape, row0, col0, StartPaint), nextId)
    ensures forall i, j :: InBounds(i, j) ==> Painted(g, shape, row0, col0, StartPaint)[i][j].tag.None?
  {
  }

  /** No painting ever changes which cells are blocked. */
  lemma PaintKeepsBlocked(g: Grid, shape: Shape, row0: int, col0: int, p: Paint)
    requires IsGrid(g)
    ensures forall i, j :: InBounds(i, j) ==>
      Painted(g, shape, row0, col0, p)[i][j].blocked == g[i][j].blocked
  {
  }

  /** A fitting user placement leaves blocked cells and start pieces as they
      were. */
  lemma PlaceSparesFilled(g: Grid, nextId: nat, shape: Shape, row0: int, col0: int, t: Tag)
    requires ValidGrid(g, nextId) && Fits(g, shape, row0, col0)
    ensures forall i, j :: InBounds(i, j) && (g[i][j].blocked || g[i][j].startPiece) ==>
      Painted(g, shape, row0, col0, UserPaint(t))[i][j] == g[i][j]
  {
    PlaceFootprint(g, nextId, shape, row0, col0, t);
  }

  /** Clearing a placement empties exactly its cells: blocked cells, start
      pieces and the cells of other placements are left as they were. */
  lemma RemoveCells(g: Grid, nextId: nat, id: nat)
    requires ValidGrid(g, nextId)
    ensures forall i, j :: InBounds(i, j) ==>
      Removed(g, id)[i][j] == if HasInstance(g[i][j], id) then Cell(false, false, false, None) else g[i][j]
    ensures forall i, j :: InBounds(i, j) && (g[i][j].blocked || g[i][j].startPiece) ==>
      Removed(g, id)[i][j] == g[i][j]
  {
  }

  /** Clearing a placement keeps the board valid. */
  lemma RemoveKeepsValid(g: Grid, nextId: nat, id: nat)
    requires ValidGrid(g, nextId)
    ensures ValidGrid(Removed(g, id), nextId)
  {
    RemoveCells(g, nextId, id);
  }

  /** An id that no cell carries: removal reports no piece and -1 and the
      board stays as it was. */
  lemma RemoveAbsent(g: Grid, id: nat, known: set<PieceId>)
    requires IsGrid(g)
    requires forall i, j :: InBounds(i, j) ==> !HasInstance(g[i][j], id)
    ensures RemovalResult(g, id, known) == Removal(None, -1)
    ensures RemovalGrid(g, id, known) == g
  {
  }

  /** On a valid board, removing an id some cell carries reports the piece id
      and orientation stored on any of its cells (when the piece is in the
      catalogue) and clears exactly that placement. */
  lemma RemovePresent(g: Grid, nextId: nat, id: nat, known: set<PieceId>, i: int, j: int)
    requires ValidGrid(g, nextId) && InBounds(i, j) && HasInstance(g[i][j], id)
    ensures RemovalResult(g, id, known) ==
      if g[i][j].tag.value.pieceId in known
      then Removal(Some(g[i][j].tag.value.pieceId), g[i][j].tag.value.shapeIndex)
      else Removal(None, -1)
    ensures RemovalGrid(g, id, known) == if g[i][j].tag.value.pieceId in known then Removed(g, id) else g
  {
    InstanceCellsExact(g, id, ROWS * COLS);
    assert (i, j) in InstanceCells(g, id, ROWS * COLS);
  }

  /** The round trip: a fitting placement under the next id followed by the
      removal of that id gives back the board cell for cell, and the removal
      reports the piece and orientation that were placed. */
  lemma PlaceThenRemove(g: Grid, nextId: nat, shape: Shape, row0: int, col0: int,
                        pieceId: PieceId, shapeIndex: int, known: set<PieceId>, r: int, c: int)
    requires ValidGrid(g, nextId) && Fits(g, shape, row0, col0)
    requires Covers(shape, r, c) && pieceId in known
    ensures Removed(Painted(g, shape, row0, col0, UserPaint(Tag(nextId, pieceId, shapeIndex))), nextId) == g
    ensures RemovalResult(Painted(g, shape, row0, col0, UserPaint(Tag(nextId, pieceId, shapeIndex))), nextId, known)
      == Removal(Some(pieceId), shapeIndex)
    ensures RemovalGrid(Painted(g, shape, row0, col0, UserPaint(Tag(nextId, pieceId, shapeIndex))), nextId, known) == g
  {
    var t := Tag(nextId, pieceId, shapeIndex);
    var placed := Painted(g, shape, row0, col0, UserPaint(t));
    PlaceFootprint(g, nextId, shape, row0, col0, t);
    PlaceKeepsValid(g, nextId, shape, row0, col0, pieceId, shapeIndex);
    var back := Removed(placed, nextId);
    forall i | 0 <= i < ROWS
      ensures back[i] == g[i]
    {
      forall j | 0 <= j < COLS
        ensures back[i][j] == g[i][j]
      {
        if Hits(shape, row0, col0, i, j) {
          assert InBounds(row0 + (i - row0), col0 + (j - col0));
          UnfilledIsEmpty(g, nextId, i, j);
        } else {
          FreshId(g, nextId);
        }
      }
    }
    assert InBounds(row0 + r, col0 + c);
    assert Hits(shape, row0, col0, row0 + r, col0 + c);
    RemovePresent(placed, nextId + 1, nextId, known, row0 + r, col0 + c);
  }

  /** Once a placement is on the board, no drop that covers one of its
      cells fits. */
  lemma OverlapRefused(g: Grid, nextId: nat, shape: Shape, row0: int, col0: int, t: Tag,
                       other: Shape, row1: int, col1: int, i: int, j: int)
    requires ValidGrid(g, nextId) && Fits(g, shape, row0, col0)
    requires InBounds(i, j) && Hits(shape, row0, col0, i, j) && Hits(other, row1, col1, i, j)
    ensures !Fits(Painted(g, shape, row0, col0, UserPaint(t)), other, row1, col1)
  {
    var out: Grid := Painted(g, shape, row0, col0, UserPaint(t));
    PlaceFootprint(g, nextId, shape, row0, col0, t);
    assert out[row1 + (i - row1)][col1 + (j - col1)].filled;
  }

  /** On a valid board the click guard accepts exactly the cells of user
      placements, so a start piece can never be removed. */
  lemma RemovableIsPlaced(g: Grid, nextId: nat, i: int, j: int)
    requires ValidGrid(g, nextId) && InBounds(i, j)
    ensures Removable(g[i][j]) <==> g[i][j].tag.Some?
    ensures g[i][j].startPiece || g[i][j].blocked ==> !Removable(g[i][j])
  {
  }

  /** A freshly built board is valid and carries no placement data. */
  lemma InitialGridValid(blockedCells: seq<(int, int)>)
    ensures ValidGrid(InitialGrid(blockedCells), 0)
    ensures forall i, j :: InBounds(i, j) ==>
      InitialGrid(blockedCells)[i][j].tag.None? &&
      (InitialGrid(blockedCells)[i][j].blocked <==> (i, j) in blockedCells)
  {
  }

  /** A rectangular footprint with at least one 1 covers some cell. */
  lemma CoveredCell(m: Shape)
    requires Rectangular(m) && Ones(m) > 0
    ensures exists r, c :: Covers(m, r, c)
  {
    var p: (int, int) :| p in Cells(m);
    assert Covers(m, p.0, p.1);
  }
}
