/**
 * Footprints of polyomino pieces and the two geometric moves on them:
 * a quarter turn clockwise and a mirror of every row.
 */
module Shapes {

  /** One orientation of a piece: a matrix of 0/1 flags, 1 marking a covered cell. */
  type Shape = seq<seq<int>>

  /** A footprint that the rotation accepts: at least one row, at least one
      column, and every row as long as the first. */
  predicate Rectangular(m: Shape)
  {
    |m| > 0 && |m[0]| > 0 && forall r :: 0 <= r < |m| ==> |m[r]| == |m[0]|
  }

  /** The number of columns, read from the first row as the source does. */
  function Width(m: Shape): nat
  {
    if |m| == 0 then 0 else |m[0]|
  }

  /** Quarter turn clockwise: an M x N matrix becomes N x M and the cell at
      (r, c) moves to (c, M - 1 - r). */
  function Rotated(m: Shape): (out: Shape)
    requires Rectangular(m)
    ensures Rectangular(out)
    ensures |out| == Width(m) && Width(out) == |m|
  {
    seq(Width(m), c requires 0 <= c < Width(m) =>
      seq(|m|, j requires 0 <= j < |m| => m[|m| - 1 - j][c]))
  }

  /** The cell at (r, c) of an M-row footprint lands at (c, M - 1 - r) of its
      quarter turn. */
  lemma RotatedCell(m: Shape, r: int, c: int)
    requires Rectangular(m) && 0 <= r < |m| && 0 <= c < Width(m)
    ensures Rotated(m)[c][|m| - 1 - r] == m[r][c]
  {
  }

  /** The quarter turn cell by cell: every cell of an M x N footprint moves
      from (r, c) to (c, M - 1 - r), and nothing else is in the result. */
  lemma RotatedCells(m: Shape)
    requires Rectangular(m)
    ensures |Rotated(m)| == Width(m)
    ensures forall c :: 0 <= c < Width(m) ==> |Rotated(m)[c]| == |m|
    ensures forall r, c :: 0 <= r < |m| && 0 <= c < Width(m) ==> Rotated(m)[c][|m| - 1 - r] == m[r][c]
  {
    forall r, c | 0 <= r < |m| && 0 <= c < Width(m)
      ensures Rotated(m)[c][|m| - 1 - r] == m[r][c]
    {
      RotatedCell(m, r, c);
    }
  }

  /** The imperative rotation: a zero-filled N x M matrix is written cell by
      cell in two nested loops. */
  method Rotate(matrix: Shape) returns (newMatrix: Shape)
    requires Rectangular(matrix)
    ensures newMatrix == Rotated(matrix)
  {
    var M := |matrix|;
    var N := |matrix[0]|;
    newMatrix := seq(N, _ => seq(M, _ => 0));
    for r := 0 to M
      invariant |newMatrix| == N
      invariant forall c :: 0 <= c < N ==> |newMatrix[c]| == M
      invariant forall c, j :: 0 <= c < N && 0 <= j < M ==>
        newMatrix[c][j] == if M - 1 - j < r then matrix[M - 1 - j][c] else 0
    {
      for c := 0 to N
        invariant |newMatrix| == N
        invariant forall c' :: 0 <= c' < N ==> |newMatrix[c']| == M
        invariant forall c', j :: 0 <= c' < N && 0 <= j < M ==>
          newMatrix[c'][j] ==
            if M - 1 - j < r || (M - 1 - j == r && c' < c) then matrix[M - 1 - j][c'] else 0
      {
        newMatrix := newMatrix[c := newMatrix[c][M - 1 - r := matrix[r][c]]];
      }
    }
    var expected := Rotated(matrix);
    assert forall c :: 0 <= c < N ==> newMatrix[c] == expected[c];
  }

  /** A quarter turn is determined by where it sends each cell: a footprint
      that agrees with the turn cell by cell is the turn. */
  lemma RotatedEquals(m: Shape, e: Shape)
    requires Rectangular(m)
    requires |e| == Width(m) && forall c :: 0 <= c < |e| ==> |e[c]| == |m|
    requires forall c, j :: 0 <= c < |e| && 0 <= j < |m| ==> e[c][j] == m[|m| - 1 - j][c]
    ensures Rotated(m) == e
  {
    assert forall c :: 0 <= c < |e| ==> Rotated(m)[c] == e[c];
  }

  /** A row read from right to left. */
  function Reversed(row: seq<int>): (out: seq<int>)
    ensures |out| == |row|
    ensures forall c :: 0 <= c < |row| ==> out[c] == row[|row| - 1 - c]
  {
    seq(|row|, c requires 0 <= c < |row| => row[|row| - 1 - c])
  }

  /** Reading a row backwards twice gives the row back. */
  lemma ReversedTwice(row: seq<int>)
    ensures Reversed(Reversed(row)) == row
  {
    assert forall c :: 0 <= c < |row| ==> Reversed(Reversed(row))[c] == row[c];
  }

  /** Reading a row backwards keeps its flags: the same number of each value. */
  lemma {:induction false} ReversedSameFlags(row: seq<int>)
    ensures multiset(Reversed(row)) == multiset(row)
    decreases |row|
  {
    if |row| > 0 {
      var front := row[..|row| - 1];
      assert Reversed(row) == [row[|row| - 1]] + Reversed(front);
      ReversedSameFlags(front);
      assert row == front + [row[|row| - 1]];
    }
  }

  /** Mirror image across the vertical axis: every row reversed. */
  function Flipped(m: Shape): (out: Shape)
    ensures |out| == |m|
    ensures forall r :: 0 <= r < |m| ==> |out[r]| == |m[r]|
    ensures forall r, c :: 0 <= r < |m| && 0 <= c < |m[r]| ==> out[r][c] == m[r][|m[r]| - 1 - c]
    ensures Rectangular(m) ==> Rectangular(out) && Width(out) == Width(m)
  {
    seq(|m|, r requires 0 <= r < |m| => Reversed(m[r]))
  }

  /** A footprint that agrees with the mirror image cell by cell is the
      mirror image. */
  lemma FlippedEquals(m: Shape, e: Shape)
    requires |e| == |m| && forall r :: 0 <= r < |m| ==> |e[r]| == |m[r]|
    requires forall r, c :: 0 <= r < |m| && 0 <= c < |m[r]| ==> e[r][c] == m[r][|m[r]| - 1 - c]
    ensures Flipped(m) == e
  {
    assert forall r :: 0 <= r < |m| ==> Flipped(m)[r] == e[r];
  }

  /** Mirroring twice gives back the footprint. */
  lemma FlipInvolution(m: Shape)
    ensures Flipped(Flipped(m)) == m
  {
    var f := Flipped(Flipped(m));
    forall r | 0 <= r < |m|
      ensures f[r] == m[r]
    {
      assert forall c :: 0 <= c < |m[r]| ==> f[r][c] == Flipped(m)[r][|m[r]| - 1 - c];
    }
  }

  /** Two quarter turns are the half turn: the cell at (i, j) of the result
      is the input's cell at (M - 1 - i, N - 1 - j). */
  lemma RotatedTwiceAt(m: Shape, i: int, j: int)
    requires Rectangular(m) && 0 <= i < |m| && 0 <= j < Width(m)
    ensures Rectangular(Rotated(Rotated(m)))
    ensures |Rotated(Rotated(m))| == |m| && Width(Rotated(Rotated(m))) == Width(m)
    ensures Rotated(Rotated(m))[i][j] == m[|m| - 1 - i][Width(m) - 1 - j]
  {
    var once := Rotated(m);
    var r, c := |m| - 1 - i, Width(m) - 1 - j;
    RotatedCell(m, r, c);
    RotatedCell(once, c, |m| - 1 - r);
  }

  /** Four quarter turns give back the footprint. */
  lemma RotatedFourTimes(m: Shape)
    requires Rectangular(m)
    ensures Rotated(Rotated(Rotated(Rotated(m)))) == m
  {
    var half := Rotated(Rotated(m));
    RotatedTwiceAt(m, 0, 0);
    var full := Rotated(Rotated(half));
    RotatedTwiceAt(half, 0, 0);
    forall r | 0 <= r < |m|
      ensures full[r] == m[r]
    {
      forall c | 0 <= c < Width(m)
        ensures full[r][c] == m[r][c]
      {
        RotatedTwiceAt(half, r, c);
        RotatedTwiceAt(m, |m| - 1 - r, Width(m) - 1 - c);
      }
    }
  }

  /** The covered cells of a footprint, as (row, column) pairs. */
  function Cells(m: Shape): set<(int, int)>
  {
    set r, c | 0 <= r < |m| && 0 <= c < |m[r]| && m[r][c] == 1 :: (r, c)
  }

  /** The number of covered cells. */
  function Ones(m: Shape): nat
  {
    |Cells(m)|
  }

  /** Where a quarter turn of an M-row footprint sends a cell. */
  function TurnCell(M: int, p: (int, int)): (int, int)
  {
    (p.1, M - 1 - p.0)
  }

  /** Where a mirror of an N-column footprint sends a cell. */
  function MirrorCell(N: int, p: (int, int)): (int, int)
  {
    (p.0, N - 1 - p.1)
  }

  lemma {:induction false} TurnImageSize(S: set<(int, int)>, M: int)
    ensures |set p | p in S :: TurnCell(M, p)| == |S|
    decreases |S|
  {
    if S != {} {
      var x :| x in S;
      var rest := S - {x};
      TurnImageSize(rest, M);
      assert (set p | p in S :: TurnCell(M, p)) == (set p | p in rest :: TurnCell(M, p)) + {TurnCell(M, x)};
      assert TurnCell(M, x) !in (set p | p in rest :: TurnCell(M, p));
    }
  }

  lemma {:induction false} MirrorImageSize(S: set<(int, int)>, N: int)
    ensures |set p | p in S :: MirrorCell(N, p)| == |S|
    decreases |S|
  {
    if S != {} {
      var x :| x in S;
      var rest := S - {x};
      MirrorImageSize(rest, N);
      assert (set p | p in S :: MirrorCell(N, p)) == (set p | p in rest :: MirrorCell(N, p)) + {MirrorCell(N, x)};
      assert MirrorCell(N, x) !in (set p | p in rest :: MirrorCell(N, p));
    }
  }

  /** A quarter turn covers as many cells as the footprint it turns. */
  lemma RotatedOnes(m: Shape)
    requires Rectangular(m)
    ensures Ones(Rotated(m)) == Ones(m)
  {
    var out := Rotated(m);
    var image := set p | p in Cells(m) :: TurnCell(|m|, p);
    forall q | q in Cells(out)
      ensures q in image
    {
      var c, j := q.0, q.1;
      var r := |m| - 1 - j;
      RotatedCell(m, r, c);
      assert (r, c) in Cells(m);
      assert TurnCell(|m|, (r, c)) == q;
    }
    forall p | p in Cells(m)
      ensures TurnCell(|m|, p) in Cells(out)
    {
      RotatedCell(m, p.0, p.1);
    }
    assert Cells(out) == image;
    TurnImageSize(Cells(m), |m|);
  }

  /** A mirror covers as many cells as the footprint it mirrors. */
  lemma FlippedOnes(m: Shape)
    requires Rectangular(m)
    ensures Ones(Flipped(m)) == Ones(m)
  {
    var out := Flipped(m);
    var N := Width(m);
    var image := set p | p in Cells(m) :: MirrorCell(N, p);
    forall q | q in Cells(out)
      ensures q in image
    {
      var r, c := q.0, q.1;
      assert out[r][c] == m[r][N - 1 - c];
      assert (r, N - 1 - c) in Cells(m);
      assert MirrorCell(N, (r, N - 1 - c)) == q;
    }
    forall p | p in Cells(m)
      ensures MirrorCell(N, p) in Cells(out)
    {
      assert out[p.0][N - 1 - p.1] == m[p.0][N - 1 - (N - 1 - p.1)];
    }
    assert Cells(out) == image;
    MirrorImageSize(Cells(m), N);
  }
}
