/**
 * Which pieces are on the board: one per placement id that some cell
 * carries, read off that placement's first cell. A placement under the
 * next id adds exactly its piece; clearing a placement takes exactly its
 * piece away.
 */
module Occupancy {
  import opened Wrappers
  import opened Shapes
  import opened Catalogue
  import opened Grids
  import opened Placement

  /** The piece a placement id stands for: the piece id on its first cell in
      document order, or none when no cell carries the id. */
  function InstancePiece(g: Grid, id: nat): Option<PieceId>
    requires IsGrid(g)
  {
    var cells := InstanceCells(g, id, ROWS * COLS);
    if |cells| == 0 then None else Some(g[cells[0].0][cells[0].1].tag.value.pieceId)
  }

  /** The piece of each placement id below n, in id order. */
  function InstancePieces(g: Grid, n: nat): (s: seq<Option<PieceId>>)
    requires IsGrid(g)
    ensures |s| == n && forall id :: 0 <= id < n ==> s[id] == InstancePiece(g, id)
  {
    seq(n, id requires 0 <= id < n => InstancePiece(g, id))
  }

  /** No piece, or one. */
  function Bag(p: Option<PieceId>): multiset<PieceId>
  {
    if p.Some? then multiset{p.value} else multiset{}
  }

  /** The pieces a list of optional pieces holds. */
  function BagOf(s: seq<Option<PieceId>>): multiset<PieceId>
  {
    if s == [] then multiset{} else BagOf(s[..|s| - 1]) + Bag(s[|s| - 1])
  }

  /** The pieces on the board among the placement ids below n. */
  function PlacedPieces(g: Grid, n: nat): multiset<PieceId>
    requires IsGrid(g)
  {
    BagOf(InstancePieces(g, n))
  }

  /** Two lists that differ only at one position, which holds a piece in the
      first and nothing in the second, differ by exactly that piece. */
  lemma {:induction false} BagOfExcept(s: seq<Option<PieceId>>, t: seq<Option<PieceId>>, k: nat, p: PieceId)
    requires |s| == |t| && k < |s| && s[k] == Some(p) && t[k] == None
    requires forall l :: 0 <= l < |s| && l != k ==> s[l] == t[l]
    ensures BagOf(s) == BagOf(t) + multiset{p}
  {
    var n := |s|;
    var s', t' := s[..n - 1], t[..n - 1];
    if k == n - 1 {
      assert s' == t';
    } else {
      BagOfExcept(s', t', k, p);
      assert s[n - 1] == t[n - 1];
      BagSwap(BagOf(t'), Bag(t[n - 1]), multiset{p});
    }
  }

  lemma BagSwap(a: multiset<PieceId>, x: multiset<PieceId>, y: multiset<PieceId>)
    ensures (a + y) + x == (a + x) + y
  {
  }

  /** Two boards that agree on every cell carrying an id, and on which cells
      carry it, list the same cells for it. */
  lemma {:induction false} SameInstanceCells(g: Grid, h: Grid, id: nat, k: nat)
    requires IsGrid(g) && IsGrid(h) && k <= ROWS * COLS
    requires forall i, j :: InBounds(i, j) ==> HasInstance(g[i][j], id) == HasInstance(h[i][j], id)
    ensures InstanceCells(g, id, k) == InstanceCells(h, id, k)
  {
    if k > 0 {
      SameInstanceCells(g, h, id, k - 1);
    }
  }

  /** ... and so they map the id to the same piece. */
  lemma SameInstancePiece(g: Grid, h: Grid, id: nat)
    requires IsGrid(g) && IsGrid(h)
    requires forall i, j :: InBounds(i, j) ==> HasInstance(g[i][j], id) == HasInstance(h[i][j], id)
    requires forall i, j :: InBounds(i, j) && HasInstance(g[i][j], id) ==> g[i][j] == h[i][j]
    ensures InstancePiece(g, id) == InstancePiece(h, id)
  {
    SameInstanceCells(g, h, id, ROWS * COLS);
  }

  /** On a valid board, an id that a cell carries stands for the piece on
      that cell. */
  lemma InstancePiecePresent(g: Grid, nextId: nat, id: nat, i: int, j: int)
    requires ValidGrid(g, nextId) && InBounds(i, j) && HasInstance(g[i][j], id)
    ensures InstancePiece(g, id) == Some(g[i][j].tag.value.pieceId)
  {
    InstanceCellsExact(g, id, ROWS * COLS);
    assert (i, j) in InstanceCells(g, id, ROWS * COLS);
  }

  /** A fitting placement of a footprint that covers a cell, under the next
      id, adds exactly its piece to the board once the counter has moved on. */
  lemma PlaceAddsPiece(g: Grid, nextId: nat, shape: Shape, row0: int, col0: int,
                       pieceId: PieceId, shapeIndex: int, r: int, c: int)
    requires ValidGrid(g, nextId) && Fits(g, shape, row0, col0) && Covers(shape, r, c)
    ensures PlacedPieces(Painted(g, shape, row0, col0, UserPaint(Tag(nextId, pieceId, shapeIndex))), nextId + 1)
      == PlacedPieces(g, nextId) + multiset{pieceId}
  {
    var t := Tag(nextId, pieceId, shapeIndex);
    var out: Grid := Painted(g, shape, row0, col0, UserPaint(t));
    PlaceFootprint(g, nextId, shape, row0, col0, t);
    PlaceKeepsValid(g, nextId, shape, row0, col0, pieceId, shapeIndex);
    forall i, j | InBounds(i, j) && Hits(shape, row0, col0, i, j)
      ensures IsEmpty(g[i][j])
    {
      assert InBounds(row0 + (i - row0), col0 + (j - col0));
      UnfilledIsEmpty(g, nextId, i, j);
    }
    forall id | 0 <= id < nextId
      ensures InstancePiece(out, id) == InstancePiece(g, id)
    {
      SameInstancePiece(out, g, id);
    }
    assert InBounds(row0 + r, col0 + c) && Hits(shape, row0, col0, row0 + r, col0 + c);
    InstancePiecePresent(out, nextId + 1, nextId, row0 + r, col0 + c);
    var s := InstancePieces(out, nextId + 1);
    assert s[..nextId] == InstancePieces(g, nextId);
  }

  /** Clearing the placement a cell belongs to takes exactly the piece on
      that cell off the board. */
  lemma RemoveTakesPiece(g: Grid, nextId: nat, id: nat, i: int, j: int)
    requires ValidGrid(g, nextId) && InBounds(i, j) && HasInstance(g[i][j], id)
    ensures PlacedPieces(g, nextId) == PlacedPieces(Removed(g, id), nextId) + multiset{g[i][j].tag.value.pieceId}
  {
    var out := Removed(g, id);
    RemoveCells(g, nextId, id);
    forall other | 0 <= other < nextId && other != id
      ensures InstancePiece(g, other) == InstancePiece(out, other)
    {
      SameInstancePiece(g, out, other);
    }
    InstancePiecePresent(g, nextId, id, i, j);
    assert InstancePiece(out, id) == None;
    BagOfExcept(InstancePieces(g, nextId), InstancePieces(out, nextId), id, g[i][j].tag.value.pieceId);
  }
}
