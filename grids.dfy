/**
 * The 7 x 7 board as a value: what each cell records, which cells a
 * footprint covers when anchored at a cell, and the effect of painting a
 * footprint and of clearing one placement. The board object in Boards
 * is specified by these functions.
 */
module Grids {
  import opened Wrappers
  import opened Shapes
  import opened Catalogue

  const ROWS := 7
  const COLS := 7

  /** What a placed piece leaves on each of its cells: the id of that one
      placement, the piece it came from and the orientation it was dropped in. */
  datatype Tag = Tag(instanceId: nat, pieceId: PieceId, shapeIndex: int)

  /** The part of a board cell the game reads: the `blocked`, `filled` and
      `start-piece` classes and the placement data of a user-placed piece. */
  datatype Cell = Cell(blocked: bool, filled: bool, startPiece: bool, tag: Option<Tag>)

  type Grid = seq<seq<Cell>>

  predicate IsGrid(g: Grid)
  {
    |g| == ROWS && forall i :: 0 <= i < ROWS ==> |g[i]| == COLS
  }

  predicate InBounds(row: int, col: int)
  {
    0 <= row < ROWS && 0 <= col < COLS
  }

  /** The three states a cell of a well-formed board can be in. */
  predicate IsEmpty(c: Cell)
  {
    c == Cell(false, false, false, None)
  }

  predicate HasInstance(c: Cell, id: nat)
  {
    c.tag.Some? && c.tag.value.instanceId == id
  }

  /** A cell is filled exactly when it is blocked, part of a start piece or
      part of a placement; a placement never shares a cell with a blocked
      cell or a start piece, and its id was handed out already. */
  predicate WellFormedCell(c: Cell, nextId: nat)
  {
    c.filled == (c.blocked || c.startPiece || c.tag.Some?) &&
    (c.tag.Some? ==> !c.blocked && !c.startPiece && c.tag.value.instanceId < nextId)
  }

  /** The board invariant: every cell well formed, and all cells of one
      placement carrying the same piece id and orientation. */
  ghost predicate ValidGrid(g: Grid, nextId: nat)
  {
    IsGrid(g) &&
    (forall i, j :: InBounds(i, j) ==> WellFormedCell(g[i][j], nextId)) &&
    (forall i, j, k, l ::
      InBounds(i, j) && InBounds(k, l) && g[i][j].tag.Some? && g[k][l].tag.Some? &&
      g[i][j].tag.value.instanceId == g[k][l].tag.value.instanceId
      ==> g[i][j].tag == g[k][l].tag)
  }

  /** Row r, column c of the footprint is covered: the loops run over the
      rows and over as many columns as the first row has, and a missing
      entry of a shorter row is not 1. */
  predicate Covers(shape: Shape, r: int, c: int)
  {
    0 <= r < |shape| && 0 <= c < |shape[0]| && c < |shape[r]| && shape[r][c] == 1
  }

  /** The footprint anchored at (row0, col0) covers board cell (i, j). */
  predicate Hits(shape: Shape, row0: int, col0: int, i: int, j: int)
  {
    Covers(shape, i - row0, j - col0)
  }

  /** A drop is allowed when every covered cell lands on the board on a cell
      that is not filled. */
  ghost predicate Fits(g: Grid, shape: Shape, row0: int, col0: int)
    requires IsGrid(g)
  {
    forall r, c :: Covers(shape, r, c) ==>
      InBounds(row0 + r, col0 + c) && !g[row0 + r][col0 + c].filled
  }

  /** The board right after it is built: blocked cells are blocked and
      filled, every other cell is empty. */
  function InitialGrid(blockedCells: seq<(int, int)>): (g: Grid)
    ensures IsGrid(g)
  {
    seq(ROWS, i requires 0 <= i < ROWS => seq(COLS, j requires 0 <= j < COLS =>
      var b := (i, j) in blockedCells; Cell(b, b, false, None)))
  }

  /** How a cell is painted: a start piece marks it as such, a user piece
      leaves its placement data. */
  datatype Paint = StartPaint | UserPaint(tag: Tag)

  function PaintCell(p: Paint, c: Cell): Cell
  {
    match p
    case StartPaint => c.(filled := true, startPiece := true)
    case UserPaint(t) => c.(filled := true, tag := Some(t))
  }

  /** The board after painting a footprint: the covered cells that lie on
      the board are painted, covered positions off the board are skipped. */
  function Painted(g: Grid, shape: Shape, row0: int, col0: int, p: Paint): (out: Grid)
    requires IsGrid(g)
    ensures IsGrid(out)
  {
    seq(ROWS, i requires 0 <= i < ROWS => seq(COLS, j requires 0 <= j < COLS =>
      if Hits(shape, row0, col0, i, j) then PaintCell(p, g[i][j]) else g[i][j]))
  }

  /** Removing a placement takes the `filled` mark and the placement data off
      its cells and keeps the `blocked` and `start-piece` marks. */
  function ClearedCell(c: Cell): Cell
  {
    c.(filled := false, tag := None)
  }

  /** The board after clearing every cell that carries the instance id. */
  function Removed(g: Grid, id: nat): (out: Grid)
    requires IsGrid(g)
    ensures IsGrid(out)
  {
    seq(ROWS, i requires 0 <= i < ROWS => seq(COLS, j requires 0 <= j < COLS =>
      if HasInstance(g[i][j], id) then ClearedCell(g[i][j]) else g[i][j]))
  }

  /** The cells carrying an instance id among the first k cells in document
      order (row by row, left to right), in that order. */
  function InstanceCells(g: Grid, id: nat, k: nat): (cells: seq<(int, int)>)
    requires IsGrid(g) && k <= ROWS * COLS
    ensures forall n :: 0 <= n < |cells| ==>
      InBounds(cells[n].0, cells[n].1) && HasInstance(g[cells[n].0][cells[n].1], id) &&
      cells[n].0 * COLS + cells[n].1 < k
  {
    if k == 0 then []
    else
      var rest := InstanceCells(g, id, k - 1);
      var i, j := (k - 1) / COLS, (k - 1) % COLS;
      if HasInstance(g[i][j], id) then rest + [(i, j)] else rest
  }

  /** What removing a placement reports: the piece id and orientation stored
      on its first cell in document order, or no piece and -1 when no cell
      carries the id or the stored piece id is not in the catalogue. */
  datatype Removal = Removal(pieceId: Option<PieceId>, shapeIndex: int)

  function RemovalResult(g: Grid, id: nat, known: set<PieceId>): Removal
    requires IsGrid(g)
  {
    var cells := InstanceCells(g, id, ROWS * COLS);
    if |cells| == 0 then Removal(None, -1)
    else
      var t := g[cells[0].0][cells[0].1].tag.value;
      if t.pieceId in known then Removal(Some(t.pieceId), t.shapeIndex) else Removal(None, -1)
  }

  /** The board that removal leaves: cleared when a known piece was found,
      untouched otherwise. */
  function RemovalGrid(g: Grid, id: nat, known: set<PieceId>): (out: Grid)
    requires IsGrid(g)
    ensures IsGrid(out)
  {
    if RemovalResult(g, id, known).pieceId.Some? then Removed(g, id) else g
  }

  /** The guard of a board click: only a filled cell that is neither blocked
      nor part of a start piece and carries placement data may be removed. */
  predicate Removable(c: Cell)
  {
    c.filled && !c.blocked && !c.startPiece && c.tag.Some?
  }
}
