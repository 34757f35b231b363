/**
 * The piece catalogue: the ten base footprints of the puzzle and the loop
 * that turns each definition into a piece with its orientation set.
 */
module Catalogue {
  import opened Shapes
  import opened OrientationSets

  type PieceId = string

  /** A piece as the catalogue defines it; the colour is an opaque tag. */
  datatype PieceDefinition = PieceDefinition(id: PieceId, color: string, baseShape: Shape)

  /** A processed piece: its orientation set computed once, read-only after. */
  datatype Piece = Piece(id: PieceId, color: string, allShapes: seq<Shape>)

  /** The four tetrominoes and six pentominoes of the set. */
  const PieceDefinitions: map<PieceId, PieceDefinition> := map[
    "z-tetra-y" := PieceDefinition("z-tetra-y", "color-yellow", [[1, 1, 0], [0, 1, 1]]),
    "t-tetra-p" := PieceDefinition("t-tetra-p", "color-purple", [[1, 1, 1], [0, 1, 0]]),
    "j-tetra-db" := PieceDefinition("j-tetra-db", "color-d-blue", [[0, 1], [0, 1], [1, 1]]),
    "o-tetra-o" := PieceDefinition("o-tetra-o", "color-orange", [[1, 1], [1, 1]]),
    "z-pento-lb" := PieceDefinition("z-pento-lb", "color-l-blue", [[1, 1, 0], [0, 1, 0], [0, 1, 1]]),
    "x-pento-pk" := PieceDefinition("x-pento-pk", "color-pink", [[0, 1, 0], [1, 1, 1], [0, 1, 0]]),
    "f-pento-bo" := PieceDefinition("f-pento-bo", "color-b-orange", [[0, 1, 1], [1, 1, 0], [0, 1, 0]]),
    "u-pento-dg" := PieceDefinition("u-pento-dg", "color-d-green", [[1, 0, 1], [1, 1, 1]]),
    "z-pento-r" := PieceDefinition("z-pento-r", "color-red", [[1, 1, 0], [0, 1, 0], [0, 1, 1]]),
    "t-pento-lg" := PieceDefinition("t-pento-lg", "color-l-green", [[1, 1, 1], [0, 1, 0], [0, 1, 0]])
  ]

  /** What the rest of the game relies on in a processed catalogue: every
      piece is filed under its own id, has at least one orientation, every orientation is rectangular
      and covers at least one cell, and a piece with more than four
      orientations has an even number of them, as every generated set does;
      for such counts two flips give back the orientation one started from
      (see FlipIndexInvolution). */
  predicate ValidCatalogue(pieces: map<PieceId, Piece>)
  {
    forall id :: id in pieces ==> pieces[id].id == id && ValidShapes(pieces[id].allShapes)
  }

  /** The loop that builds the processed catalogue from the definitions. */
  method BuildPieces(definitions: map<PieceId, PieceDefinition>) returns (pieces: map<PieceId, Piece>)
    requires forall id :: id in definitions ==> Rectangular(definitions[id].baseShape)
    ensures pieces.Keys == definitions.Keys
    ensures forall id :: id in definitions ==>
      pieces[id].id == definitions[id].id && pieces[id].color == definitions[id].color &&
      pieces[id].allShapes == Orientations(definitions[id].baseShape)
  {
    pieces := map[];
    var remaining := definitions.Keys;
    while remaining != {}
      invariant remaining <= definitions.Keys
      invariant pieces.Keys == definitions.Keys - remaining
      invariant forall id :: id in pieces ==>
        pieces[id].id == definitions[id].id && pieces[id].color == definitions[id].color &&
        pieces[id].allShapes == Orientations(definitions[id].baseShape)
      decreases remaining
    {
      var id :| id in remaining;
      var piece := definitions[id];
      var allShapes := GenerateOrientations(piece.baseShape);
      pieces := pieces[id := Piece(piece.id, piece.color, allShapes)];
      remaining := remaining - {id};
    }
  }

  /** Any catalogue built from definitions filed under their own ids, with
      rectangular, non-empty base footprints whose orientation counts are 1,
      2, 4 or 8, is valid. */
  lemma BuiltCatalogueValid(definitions: map<PieceId, PieceDefinition>, pieces: map<PieceId, Piece>)
    requires forall id :: id in definitions ==> Rectangular(definitions[id].baseShape)
    requires forall id :: id in definitions ==> |Orientations(definitions[id].baseShape)| in {1, 2, 4, 8}
    requires forall id :: id in definitions ==> Ones(definitions[id].baseShape) > 0
    requires forall id :: id in definitions ==> definitions[id].id == id
    requires pieces.Keys == definitions.Keys
    requires forall id :: id in definitions ==>
      pieces[id].id == definitions[id].id && pieces[id].allShapes == Orientations(definitions[id].baseShape)
    ensures ValidCatalogue(pieces)
  {
    forall id | id in pieces
      ensures ValidShapes(pieces[id].allShapes)
    {
      OrientationsValid(definitions[id].baseShape);
    }
  }

  /** The per-piece part of a valid catalogue. */
  predicate ValidShapes(shapes: seq<Shape>)
  {
    |shapes| > 0 && (|shapes| > 4 ==> |shapes| % 2 == 0) &&
    forall k :: 0 <= k < |shapes| ==> Rectangular(shapes[k]) && Ones(shapes[k]) > 0
  }

  /** The orientation set of a rectangular, non-empty footprint with 1, 2, 4
      or 8 orientations meets the per-piece part of a valid catalogue. */
  lemma OrientationsValid(base: Shape)
    requires Rectangular(base) && Ones(base) > 0
    requires |Orientations(base)| in {1, 2, 4, 8}
    ensures ValidShapes(Orientations(base))
  {
    OrientationsOnes(base);
  }

  /** A mirror-symmetric footprint: the mirrored turns repeat the plain turns in order. */
  lemma DedupMirrorSymmetric<T>(a: T, b: T, c: T, d: T)
    requires a != b && a != c && a != d && b != c && b != d && c != d
    ensures Dedup([a, b, c, d, a, b, c, d]) == [a, b, c, d]
  {
    var q := [a, b, c, d];
    assert [a, b, c, d, a, b, c, d] == q + q;
    DedupAbsorb(q, q);
    DedupOfDistinct(q);
  }

  /** A footprint symmetric under a half turn only: each half repeats its first two turns. */
  lemma DedupHalfTurnSymmetric<T>(a: T, b: T, c: T, d: T)
    requires a != b && a != c && a != d && b != c && b != d && c != d
    ensures Dedup([a, b, a, b, c, d, c, d]) == [a, b, c, d]
  {
    var x, y := [a, b], [c, d];
    assert Dedup(x + x) == x by {
      DedupAbsorb(x, x);
      DedupOfDistinct(x);
    }
    assert Dedup(y + y) == y by {
      DedupAbsorb(y, y);
      DedupOfDistinct(y);
    }
    assert Dedup((x + x) + (y + y)) == Dedup(x + x) + Dedup(y + y) by {
      DedupAppendDisjoint(x + x, y + y);
    }
    assert [a, b, a, b, c, d, c, d] == (x + x) + (y + y);
    assert x + y == [a, b, c, d];
  }

  /** A footprint without symmetry: the eight candidates are all kept. */
  lemma DedupAllDistinct<T>(a: T, b: T, c: T, d: T, e: T, f: T, g: T, h: T)
    requires a != b && a != c && a != d && a != e && a != f && a != g && a != h
      && b != c && b != d && b != e && b != f && b != g && b != h && c != d
      && c != e && c != f && c != g && c != h && d != e && d != f && d != g
      && d != h && e != f && e != g && e != h && f != g && f != h && g != h
    ensures Dedup([a, b, c, d, e, f, g, h]) == [a, b, c, d, e, f, g, h]
  {
    DedupOfDistinct([a, b, c, d, e, f, g, h]);
  }

  // Quarter turns and mirror images of the footprint sizes the catalogue uses.

  lemma Turn2x2(a: int, b: int, c: int, d: int)
    ensures Rotated([[a, b], [c, d]]) == [[c, a], [d, b]]
  {
    RotatedEquals([[a, b], [c, d]], [[c, a], [d, b]]);
  }

  lemma Turn2x3(a: int, b: int, c: int, d: int, e: int, f: int)
    ensures Rotated([[a, b, c], [d, e, f]]) == [[d, a], [e, b], [f, c]]
  {
    RotatedEquals([[a, b, c], [d, e, f]], [[d, a], [e, b], [f, c]]);
  }

  lemma Turn3x2(a: int, b: int, c: int, d: int, e: int, f: int)
    ensures Rotated([[a, b], [c, d], [e, f]]) == [[e, c, a], [f, d, b]]
  {
    RotatedEquals([[a, b], [c, d], [e, f]], [[e, c, a], [f, d, b]]);
  }

  lemma Turn3x3(a: int, b: int, c: int, d: int, e: int, f: int, g: int, h: int, i: int)
    ensures Rotated([[a, b, c], [d, e, f], [g, h, i]]) == [[g, d, a], [h, e, b], [i, f, c]]
  {
    RotatedEquals([[a, b, c], [d, e, f], [g, h, i]], [[g, d, a], [h, e, b], [i, f, c]]);
  }

  lemma Mirror2x2(a: int, b: int, c: int, d: int)
    ensures Flipped([[a, b], [c, d]]) == [[b, a], [d, c]]
  {
    FlippedEquals([[a, b], [c, d]], [[b, a], [d, c]]);
  }

  lemma Mirror2x3(a: int, b: int, c: int, d: int, e: int, f: int)
    ensures Flipped([[a, b, c], [d, e, f]]) == [[c, b, a], [f, e, d]]
  {
    FlippedEquals([[a, b, c], [d, e, f]], [[c, b, a], [f, e, d]]);
  }

  lemma Mirror3x2(a: int, b: int, c: int, d: int, e: int, f: int)
    ensures Flipped([[a, b], [c, d], [e, f]]) == [[b, a], [d, c], [f, e]]
  {
    FlippedEquals([[a, b], [c, d], [e, f]], [[b, a], [d, c], [f, e]]);
  }

  lemma Mirror3x3(a: int, b: int, c: int, d: int, e: int, f: int, g: int, h: int, i: int)
    ensures Flipped([[a, b, c], [d, e, f], [g, h, i]]) == [[c, b, a], [f, e, d], [i, h, g]]
  {
    FlippedEquals([[a, b, c], [d, e, f], [g, h, i]], [[c, b, a], [f, e, d], [i, h, g]]);
  }
  /** The eight candidates generated from the Z tetromino (game.js:59). */
  lemma ZTetrominoCandidates()
    ensures Candidates([[1, 1, 0], [0, 1, 1]]) ==
      [[[1, 1, 0], [0, 1, 1]], [[0, 1], [1, 1], [1, 0]], [[1, 1, 0], [0, 1, 1]], [[0, 1], [1, 1], [1, 0]], [[0, 1, 1], [1, 1, 0]], [[1, 0], [1, 1], [0, 1]], [[0, 1, 1], [1, 1, 0]], [[1, 0], [1, 1], [0, 1]]]
  {
    Mirror2x3(1, 1, 0, 0, 1, 1);
    Turn2x3(1, 1, 0, 0, 1, 1);
    Turn3x2(0, 1, 1, 1, 1, 0);
    Turn2x3(0, 1, 1, 1, 1, 0);
    Turn3x2(1, 0, 1, 1, 0, 1);
    CandidatesFrom([[1, 1, 0], [0, 1, 1]], [[0, 1], [1, 1], [1, 0]], [[1, 1, 0], [0, 1, 1]], [[0, 1], [1, 1], [1, 0]], [[0, 1, 1], [1, 1, 0]], [[1, 0], [1, 1], [0, 1]], [[0, 1, 1], [1, 1, 0]], [[1, 0], [1, 1], [0, 1]]);
  }

  /** The Z tetromino has 4 orientations, listed in generation order. */
  lemma ZTetrominoOrientations()
    ensures Orientations([[1, 1, 0], [0, 1, 1]]) ==
      [[[1, 1, 0], [0, 1, 1]], [[0, 1], [1, 1], [1, 0]], [[0, 1, 1], [1, 1, 0]], [[1, 0], [1, 1], [0, 1]]]
    ensures |Orientations([[1, 1, 0], [0, 1, 1]])| == 4
  {
    ZTetrominoCandidates();
    var u0 := [[1, 1, 0], [0, 1, 1]];
    var u1 := [[0, 1], [1, 1], [1, 0]];
    var u2 := [[0, 1, 1], [1, 1, 0]];
    var u3 := [[1, 0], [1, 1], [0, 1]];
    assert |u0| != |u1|;
    assert u0[0][0] != u2[0][0];
    assert |u0| != |u3|;
    assert |u1| != |u2|;
    assert u1[0][0] != u3[0][0];
    assert |u2| != |u3|;
    DedupHalfTurnSymmetric(u0, u1, u2, u3);
  }

  /** The eight candidates generated from the T tetromino (game.js:64). */
  lemma TTetrominoCandidates()
    ensures Candidates([[1, 1, 1], [0, 1, 0]]) ==
      [[[1, 1, 1], [0, 1, 0]], [[0, 1], [1, 1], [0, 1]], [[0, 1, 0], [1, 1, 1]], [[1, 0], [1, 1], [1, 0]], [[1, 1, 1], [0, 1, 0]], [[0, 1], [1, 1], [0, 1]], [[0, 1, 0], [1, 1, 1]], [[1, 0], [1, 1], [1, 0]]]
  {
    Mirror2x3(1, 1, 1, 0, 1, 0);
    Turn2x3(1, 1, 1, 0, 1, 0);
    Turn3x2(0, 1, 1, 1, 0, 1);
    Turn2x3(0, 1, 0, 1, 1, 1);
    CandidatesFrom([[1, 1, 1], [0, 1, 0]], [[0, 1], [1, 1], [0, 1]], [[0, 1, 0], [1, 1, 1]], [[1, 0], [1, 1], [1, 0]], [[1, 1, 1], [0, 1, 0]], [[0, 1], [1, 1], [0, 1]], [[0, 1, 0], [1, 1, 1]], [[1, 0], [1, 1], [1, 0]]);
  }

  /** The T tetromino has 4 orientations, listed in generation order. */
  lemma TTetrominoOrientations()
    ensures Orientations([[1, 1, 1], [0, 1, 0]]) ==
      [[[1, 1, 1], [0, 1, 0]], [[0, 1], [1, 1], [0, 1]], [[0, 1, 0], [1, 1, 1]], [[1, 0], [1, 1], [1, 0]]]
    ensures |Orientations([[1, 1, 1], [0, 1, 0]])| == 4
  {
    TTetrominoCandidates();
    var u0 := [[1, 1, 1], [0, 1, 0]];
    var u1 := [[0, 1], [1, 1], [0, 1]];
    var u2 := [[0, 1, 0], [1, 1, 1]];
    var u3 := [[1, 0], [1, 1], [1, 0]];
    assert |u0| != |u1|;
    assert u0[0][0] != u2[0][0];
    assert |u0| != |u3|;
    assert |u1| != |u2|;
    assert u1[0][0] != u3[0][0];
    assert |u2| != |u3|;
    DedupMirrorSymmetric(u0, u1, u2, u3);
  }

  /** The eight candidates generated from the J tetromino (game.js:69). */
  lemma JTetrominoCandidates()
    ensures Candidates([[0, 1], [0, 1], [1, 1]]) ==
      [[[0, 1], [0, 1], [1, 1]], [[1, 0, 0], [1, 1, 1]], [[1, 1], [1, 0], [1, 0]], [[1, 1, 1], [0, 0, 1]], [[1, 0], [1, 0], [1, 1]], [[1, 1, 1], [1, 0, 0]], [[1, 1], [0, 1], [0, 1]], [[0, 0, 1], [1, 1, 1]]]
  {
    Mirror3x2(0, 1, 0, 1, 1, 1);
    Turn3x2(0, 1, 0, 1, 1, 1);
    Turn2x3(1, 0, 0, 1, 1, 1);
    Turn3x2(1, 1, 1, 0, 1, 0);
    Turn3x2(1, 0, 1, 0, 1, 1);
    Turn2x3(1, 1, 1, 1, 0, 0);
    Turn3x2(1, 1, 0, 1, 0, 1);
    CandidatesFrom([[0, 1], [0, 1], [1, 1]], [[1, 0, 0], [1, 1, 1]], [[1, 1], [1, 0], [1, 0]], [[1, 1, 1], [0, 0, 1]], [[1, 0], [1, 0], [1, 1]], [[1, 1, 1], [1, 0, 0]], [[1, 1], [0, 1], [0, 1]], [[0, 0, 1], [1, 1, 1]]);
  }

  /** The J tetromino has 8 orientations, listed in generation order. */
  lemma JTetrominoOrientations()
    ensures Orientations([[0, 1], [0, 1], [1, 1]]) ==
      [[[0, 1], [0, 1], [1, 1]], [[1, 0, 0], [1, 1, 1]], [[1, 1], [1, 0], [1, 0]], [[1, 1, 1], [0, 0, 1]], [[1, 0], [1, 0], [1, 1]], [[1, 1, 1], [1, 0, 0]], [[1, 1], [0, 1], [0, 1]], [[0, 0, 1], [1, 1, 1]]]
    ensures |Orientations([[0, 1], [0, 1], [1, 1]])| == 8
  {
    JTetrominoCandidates();
    var u0 := [[0, 1], [0, 1], [1, 1]];
    var u1 := [[1, 0, 0], [1, 1, 1]];
    var u2 := [[1, 1], [1, 0], [1, 0]];
    var u3 := [[1, 1, 1], [0, 0, 1]];
    var u4 := [[1, 0], [1, 0], [1, 1]];
    var u5 := [[1, 1, 1], [1, 0, 0]];
    var u6 := [[1, 1], [0, 1], [0, 1]];
    var u7 := [[0, 0, 1], [1, 1, 1]];
    assert |u0| != |u1|;
    assert u0[0][0] != u2[0][0];
    assert |u0| != |u3|;
    assert u0[0][0] != u4[0][0];
    assert |u0| != |u5|;
    assert u0[0][0] != u6[0][0];
    assert |u0| != |u7|;
    assert |u1| != |u2|;
    assert u1[0][1] != u3[0][1];
    assert |u1| != |u4|;
    assert u1[0][1] != u5[0][1];
    assert |u1| != |u6|;
    assert u1[0][0] != u7[0][0];
    assert |u2| != |u3|;
    assert u2[0][1] != u4[0][1];
    assert |u2| != |u5|;
    assert u2[1][0] != u6[1][0];
    assert |u2| != |u7|;
    assert |u3| != |u4|;
    assert u3[1][0] != u5[1][0];
    assert |u3| != |u6|;
    assert u3[0][0] != u7[0][0];
    assert |u4| != |u5|;
    assert u4[0][1] != u6[0][1];
    assert |u4| != |u7|;
    assert |u5| != |u6|;
    assert u5[0][0] != u7[0][0];
    assert |u6| != |u7|;
    DedupAllDistinct(u0, u1, u2, u3, u4, u5, u6, u7);
  }

  /** The eight candidates generated from the square tetromino (game.js:74). */
  lemma OTetrominoCandidates()
    ensures Candidates([[1, 1], [1, 1]]) ==
      [[[1, 1], [1, 1]], [[1, 1], [1, 1]], [[1, 1], [1, 1]], [[1, 1], [1, 1]], [[1, 1], [1, 1]], [[1, 1], [1, 1]], [[1, 1], [1, 1]], [[1, 1], [1, 1]]]
  {
    Mirror2x2(1, 1, 1, 1);
    Turn2x2(1, 1, 1, 1);
    CandidatesFrom([[1, 1], [1, 1]], [[1, 1], [1, 1]], [[1, 1], [1, 1]], [[1, 1], [1, 1]], [[1, 1], [1, 1]], [[1, 1], [1, 1]], [[1, 1], [1, 1]], [[1, 1], [1, 1]]);
  }

  /** The square tetromino has 1 orientation, listed in generation order. */
  lemma OTetrominoOrientations()
    ensures Orientations([[1, 1], [1, 1]]) ==
      [[[1, 1], [1, 1]]]
    ensures |Orientations([[1, 1], [1, 1]])| == 1
  {
    OTetrominoCandidates();
    var u0 := [[1, 1], [1, 1]];
    DedupConstant(Candidates([[1, 1], [1, 1]]), u0);
  }

  /** The eight candidates generated from the Z pentomino (game.js:81 and 101). */
  lemma ZPentominoCandidates()
    ensures Candidates([[1, 1, 0], [0, 1, 0], [0, 1, 1]]) ==
      [[[1, 1, 0], [0, 1, 0], [0, 1, 1]], [[0, 0, 1], [1, 1, 1], [1, 0, 0]], [[1, 1, 0], [0, 1, 0], [0, 1, 1]], [[0, 0, 1], [1, 1, 1], [1, 0, 0]], [[0, 1, 1], [0, 1, 0], [1, 1, 0]], [[1, 0, 0], [1, 1, 1], [0, 0, 1]], [[0, 1, 1], [0, 1, 0], [1, 1, 0]], [[1, 0, 0], [1, 1, 1], [0, 0, 1]]]
  {
    Mirror3x3(1, 1, 0, 0, 1, 0, 0, 1, 1);
    Turn3x3(1, 1, 0, 0, 1, 0, 0, 1, 1);
    Turn3x3(0, 0, 1, 1, 1, 1, 1, 0, 0);
    Turn3x3(0, 1, 1, 0, 1, 0, 1, 1, 0);
    Turn3x3(1, 0, 0, 1, 1, 1, 0, 0, 1);
    CandidatesFrom([[1, 1, 0], [0, 1, 0], [0, 1, 1]], [[0, 0, 1], [1, 1, 1], [1, 0, 0]], [[1, 1, 0], [0, 1, 0], [0, 1, 1]], [[0, 0, 1], [1, 1, 1], [1, 0, 0]], [[0, 1, 1], [0, 1, 0], [1, 1, 0]], [[1, 0, 0], [1, 1, 1], [0, 0, 1]], [[0, 1, 1], [0, 1, 0], [1, 1, 0]], [[1, 0, 0], [1, 1, 1], [0, 0, 1]]);
  }

  /** The Z pentomino has 4 orientations, listed in generation order. */
  lemma ZPentominoOrientations()
    ensures Orientations([[1, 1, 0], [0, 1, 0], [0, 1, 1]]) ==
      [[[1, 1, 0], [0, 1, 0], [0, 1, 1]], [[0, 0, 1], [1, 1, 1], [1, 0, 0]], [[0, 1, 1], [0, 1, 0], [1, 1, 0]], [[1, 0, 0], [1, 1, 1], [0, 0, 1]]]
    ensures |Orientations([[1, 1, 0], [0, 1, 0], [0, 1, 1]])| == 4
  {
    ZPentominoCandidates();
    var u0 := [[1, 1, 0], [0, 1, 0], [0, 1, 1]];
    var u1 := [[0, 0, 1], [1, 1, 1], [1, 0, 0]];
    var u2 := [[0, 1, 1], [0, 1, 0], [1, 1, 0]];
    var u3 := [[1, 0, 0], [1, 1, 1], [0, 0, 1]];
    assert u0[0][0] != u1[0][0];
    assert u0[0][0] != u2[0][0];
    assert u0[0][1] != u3[0][1];
    assert u1[0][1] != u2[0][1];
    assert u1[0][0] != u3[0][0];
    assert u2[0][0] != u3[0][0];
    DedupHalfTurnSymmetric(u0, u1, u2, u3);
  }

  /** The eight candidates generated from the X pentomino (game.js:86). */
  lemma XPentominoCandidates()
    ensures Candidates([[0, 1, 0], [1, 1, 1], [0, 1, 0]]) ==
      [[[0, 1, 0], [1, 1, 1], [0, 1, 0]], [[0, 1, 0], [1, 1, 1], [0, 1, 0]], [[0, 1, 0], [1, 1, 1], [0, 1, 0]], [[0, 1, 0], [1, 1, 1], [0, 1, 0]], [[0, 1, 0], [1, 1, 1], [0, 1, 0]], [[0, 1, 0], [1, 1, 1], [0, 1, 0]], [[0, 1, 0], [1, 1, 1], [0, 1, 0]], [[0, 1, 0], [1, 1, 1], [0, 1, 0]]]
  {
    Mirror3x3(0, 1, 0, 1, 1, 1, 0, 1, 0);
    Turn3x3(0, 1, 0, 1, 1, 1, 0, 1, 0);
    CandidatesFrom([[0, 1, 0], [1, 1, 1], [0, 1, 0]], [[0, 1, 0], [1, 1, 1], [0, 1, 0]], [[0, 1, 0], [1, 1, 1], [0, 1, 0]], [[0, 1, 0], [1, 1, 1], [0, 1, 0]], [[0, 1, 0], [1, 1, 1], [0, 1, 0]], [[0, 1, 0], [1, 1, 1], [0, 1, 0]], [[0, 1, 0], [1, 1, 1], [0, 1, 0]], [[0, 1, 0], [1, 1, 1], [0, 1, 0]]);
  }

  /** The X pentomino has 1 orientation, listed in generation order. */
  lemma XPentominoOrientations()
    ensures Orientations([[0, 1, 0], [1, 1, 1], [0, 1, 0]]) ==
      [[[0, 1, 0], [1, 1, 1], [0, 1, 0]]]
    ensures |Orientations([[0, 1, 0], [1, 1, 1], [0, 1, 0]])| == 1
  {
    XPentominoCandidates();
    var u0 := [[0, 1, 0], [1, 1, 1], [0, 1, 0]];
    DedupConstant(Candidates([[0, 1, 0], [1, 1, 1], [0, 1, 0]]), u0);
  }

  /** The eight candidates generated from the F pentomino (game.js:91). */
  lemma FPentominoCandidates()
    ensures Candidates([[0, 1, 1], [1, 1, 0], [0, 1, 0]]) ==
      [[[0, 1, 1], [1, 1, 0], [0, 1, 0]], [[0, 1, 0], [1, 1, 1], [0, 0, 1]], [[0, 1, 0], [0, 1, 1], [1, 1, 0]], [[1, 0, 0], [1, 1, 1], [0, 1, 0]], [[1, 1, 0], [0, 1, 1], [0, 1, 0]], [[0, 0, 1], [1, 1, 1], [0, 1, 0]], [[0, 1, 0], [1, 1, 0], [0, 1, 1]], [[0, 1, 0], [1, 1, 1], [1, 0, 0]]]
  {
    Mirror3x3(0, 1, 1, 1, 1, 0, 0, 1, 0);
    Turn3x3(0, 1, 1, 1, 1, 0, 0, 1, 0);
    Turn3x3(0, 1, 0, 1, 1, 1, 0, 0, 1);
    Turn3x3(0, 1, 0, 0, 1, 1, 1, 1, 0);
    Turn3x3(1, 1, 0, 0, 1, 1, 0, 1, 0);
    Turn3x3(0, 0, 1, 1, 1, 1, 0, 1, 0);
    Turn3x3(0, 1, 0, 1, 1, 0, 0, 1, 1);
    CandidatesFrom([[0, 1, 1], [1, 1, 0], [0, 1, 0]], [[0, 1, 0], [1, 1, 1], [0, 0, 1]], [[0, 1, 0], [0, 1, 1], [1, 1, 0]], [[1, 0, 0], [1, 1, 1], [0, 1, 0]], [[1, 1, 0], [0, 1, 1], [0, 1, 0]], [[0, 0, 1], [1, 1, 1], [0, 1, 0]], [[0, 1, 0], [1, 1, 0], [0, 1, 1]], [[0, 1, 0], [1, 1, 1], [1, 0, 0]]);
  }

  /** The F pentomino has 8 orientations, listed in generation order. */
  lemma FPentominoOrientations()
    ensures Orientations([[0, 1, 1], [1, 1, 0], [0, 1, 0]]) ==
      [[[0, 1, 1], [1, 1, 0], [0, 1, 0]], [[0, 1, 0], [1, 1, 1], [0, 0, 1]], [[0, 1, 0], [0, 1, 1], [1, 1, 0]], [[1, 0, 0], [1, 1, 1], [0, 1, 0]], [[1, 1, 0], [0, 1, 1], [0, 1, 0]], [[0, 0, 1], [1, 1, 1], [0, 1, 0]], [[0, 1, 0], [1, 1, 0], [0, 1, 1]], [[0, 1, 0], [1, 1, 1], [1, 0, 0]]]
    ensures |Orientations([[0, 1, 1], [1, 1, 0], [0, 1, 0]])| == 8
  {
    FPentominoCandidates();
    var u0 := [[0, 1, 1], [1, 1, 0], [0, 1, 0]];
    var u1 := [[0, 1, 0], [1, 1, 1], [0, 0, 1]];
    var u2 := [[0, 1, 0], [0, 1, 1], [1, 1, 0]];
    var u3 := [[1, 0, 0], [1, 1, 1], [0, 1, 0]];
    var u4 := [[1, 1, 0], [0, 1, 1], [0, 1, 0]];
    var u5 := [[0, 0, 1], [1, 1, 1], [0, 1, 0]];
    var u6 := [[0, 1, 0], [1, 1, 0], [0, 1, 1]];
    var u7 := [[0, 1, 0], [1, 1, 1], [1, 0, 0]];
    assert u0[0][2] != u1[0][2];
    assert u0[0][2] != u2[0][2];
    assert u0[0][0] != u3[0][0];
    assert u0[0][0] != u4[0][0];
    assert u0[0][1] != u5[0][1];
    assert u0[0][2] != u6[0][2];
    assert u0[0][2] != u7[0][2];
    assert u1[1][0] != u2[1][0];
    assert u1[0][0] != u3[0][0];
    assert u1[0][0] != u4[0][0];
    assert u1[0][1] != u5[0][1];
    assert u1[1][2] != u6[1][2];
    assert u1[2][0] != u7[2][0];
    assert u2[0][0] != u3[0][0];
    assert u2[0][0] != u4[0][0];
    assert u2[0][1] != u5[0][1];
    assert u2[1][0] != u6[1][0];
    assert u2[1][0] != u7[1][0];
    assert u3[0][1] != u4[0][1];
    assert u3[0][0] != u5[0][0];
    assert u3[0][0] != u6[0][0];
    assert u3[0][0] != u7[0][0];
    assert u4[0][0] != u5[0][0];
    assert u4[0][0] != u6[0][0];
    assert u4[0][0] != u7[0][0];
    assert u5[0][1] != u6[0][1];
    assert u5[0][1] != u7[0][1];
    assert u6[1][2] != u7[1][2];
    DedupAllDistinct(u0, u1, u2, u3, u4, u5, u6, u7);
  }

  /** The eight candidates generated from the U pentomino (game.js:96). */
  lemma UPentominoCandidates()
    ensures Candidates([[1, 0, 1], [1, 1, 1]]) ==
      [[[1, 0, 1], [1, 1, 1]], [[1, 1], [1, 0], [1, 1]], [[1, 1, 1], [1, 0, 1]], [[1, 1], [0, 1], [1, 1]], [[1, 0, 1], [1, 1, 1]], [[1, 1], [1, 0], [1, 1]], [[1, 1, 1], [1, 0, 1]], [[1, 1], [0, 1], [1, 1]]]
  {
    Mirror2x3(1, 0, 1, 1, 1, 1);
    Turn2x3(1, 0, 1, 1, 1, 1);
    Turn3x2(1, 1, 1, 0, 1, 1);
    Turn2x3(1, 1, 1, 1, 0, 1);
    CandidatesFrom([[1, 0, 1], [1, 1, 1]], [[1, 1], [1, 0], [1, 1]], [[1, 1, 1], [1, 0, 1]], [[1, 1], [0, 1], [1, 1]], [[1, 0, 1], [1, 1, 1]], [[1, 1], [1, 0], [1, 1]], [[1, 1, 1], [1, 0, 1]], [[1, 1], [0, 1], [1, 1]]);
  }

  /** The U pentomino has 4 orientations, listed in generation order. */
  lemma UPentominoOrientations()
    ensures Orientations([[1, 0, 1], [1, 1, 1]]) ==
      [[[1, 0, 1], [1, 1, 1]], [[1, 1], [1, 0], [1, 1]], [[1, 1, 1], [1, 0, 1]], [[1, 1], [0, 1], [1, 1]]]
    ensures |Orientations([[1, 0, 1], [1, 1, 1]])| == 4
  {
    UPentominoCandidates();
    var u0 := [[1, 0, 1], [1, 1, 1]];
    var u1 := [[1, 1], [1, 0], [1, 1]];
    var u2 := [[1, 1, 1], [1, 0, 1]];
    var u3 := [[1, 1], [0, 1], [1, 1]];
    assert |u0| != |u1|;
    assert u0[0][1] != u2[0][1];
    assert |u0| != |u3|;
    assert |u1| != |u2|;
    assert u1[1][0] != u3[1][0];
    assert |u2| != |u3|;
    DedupMirrorSymmetric(u0, u1, u2, u3);
  }

  /** The eight candidates generated from the T pentomino (game.js:106). */
  lemma TPentominoCandidates()
    ensures Candidates([[1, 1, 1], [0, 1, 0], [0, 1, 0]]) ==
      [[[1, 1, 1], [0, 1, 0], [0, 1, 0]], [[0, 0, 1], [1, 1, 1], [0, 0, 1]], [[0, 1, 0], [0, 1, 0], [1, 1, 1]], [[1, 0, 0], [1, 1, 1], [1, 0, 0]], [[1, 1, 1], [0, 1, 0], [0, 1, 0]], [[0, 0, 1], [1, 1, 1], [0, 0, 1]], [[0, 1, 0], [0, 1, 0], [1, 1, 1]], [[1, 0, 0], [1, 1, 1], [1, 0, 0]]]
  {
    Mirror3x3(1, 1, 1, 0, 1, 0, 0, 1, 0);
    Turn3x3(1, 1, 1, 0, 1, 0, 0, 1, 0);
    Turn3x3(0, 0, 1, 1, 1, 1, 0, 0, 1);
    Turn3x3(0, 1, 0, 0, 1, 0, 1, 1, 1);
    CandidatesFrom([[1, 1, 1], [0, 1, 0], [0, 1, 0]], [[0, 0, 1], [1, 1, 1], [0, 0, 1]], [[0, 1, 0], [0, 1, 0], [1, 1, 1]], [[1, 0, 0], [1, 1, 1], [1, 0, 0]], [[1, 1, 1], [0, 1, 0], [0, 1, 0]], [[0, 0, 1], [1, 1, 1], [0, 0, 1]], [[0, 1, 0], [0, 1, 0], [1, 1, 1]], [[1, 0, 0], [1, 1, 1], [1, 0, 0]]);
  }

  /** The T pentomino has 4 orientations, listed in generation order. */
  lemma TPentominoOrientations()
    ensures Orientations([[1, 1, 1], [0, 1, 0], [0, 1, 0]]) ==
      [[[1, 1, 1], [0, 1, 0], [0, 1, 0]], [[0, 0, 1], [1, 1, 1], [0, 0, 1]], [[0, 1, 0], [0, 1, 0], [1, 1, 1]], [[1, 0, 0], [1, 1, 1], [1, 0, 0]]]
    ensures |Orientations([[1, 1, 1], [0, 1, 0], [0, 1, 0]])| == 4
  {
    TPentominoCandidates();
    var u0 := [[1, 1, 1], [0, 1, 0], [0, 1, 0]];
    var u1 := [[0, 0, 1], [1, 1, 1], [0, 0, 1]];
    var u2 := [[0, 1, 0], [0, 1, 0], [1, 1, 1]];
    var u3 := [[1, 0, 0], [1, 1, 1], [1, 0, 0]];
    assert u0[0][0] != u1[0][0];
    assert u0[0][0] != u2[0][0];
    assert u0[0][1] != u3[0][1];
    assert u1[0][1] != u2[0][1];
    assert u1[0][0] != u3[0][0];
    assert u2[0][0] != u3[0][0];
    DedupMirrorSymmetric(u0, u1, u2, u3);
  }


  /** Catalogue entry "z-tetra-y" is rectangular and has 4 orientations. */
  lemma ZTetraYCount()
    ensures Rectangular(PieceDefinitions["z-tetra-y"].baseShape)
    ensures |Orientations(PieceDefinitions["z-tetra-y"].baseShape)| == 4
  {
    ZTetrominoOrientations();
  }

  /** Catalogue entry "t-tetra-p" is rectangular and has 4 orientations. */
  lemma TTetraPCount()
    ensures Rectangular(PieceDefinitions["t-tetra-p"].baseShape)
    ensures |Orientations(PieceDefinitions["t-tetra-p"].baseShape)| == 4
  {
    TTetrominoOrientations();
  }

  /** Catalogue entry "j-tetra-db" is rectangular and has 8 orientations. */
  lemma JTetraDbCount()
    ensures Rectangular(PieceDefinitions["j-tetra-db"].baseShape)
    ensures |Orientations(PieceDefinitions["j-tetra-db"].baseShape)| == 8
  {
    JTetrominoOrientations();
  }

  /** Catalogue entry "o-tetra-o" is rectangular and has 1 orientation. */
  lemma OTetraOCount()
    ensures Rectangular(PieceDefinitions["o-tetra-o"].baseShape)
    ensures |Orientations(PieceDefinitions["o-tetra-o"].baseShape)| == 1
  {
    OTetrominoOrientations();
  }

  /** Catalogue entries "z-pento-lb" and "z-pento-r" share one base shape,
      which is rectangular and has 4 orientations. */
  lemma ZPentominoCounts()
    ensures PieceDefinitions["z-pento-lb"].baseShape == PieceDefinitions["z-pento-r"].baseShape
    ensures Rectangular(PieceDefinitions["z-pento-lb"].baseShape)
    ensures |Orientations(PieceDefinitions["z-pento-lb"].baseShape)| == 4
  {
    ZPentominoOrientations();
  }

  /** Catalogue entry "x-pento-pk" is rectangular and has 1 orientation. */
  lemma XPentoPkCount()
    ensures Rectangular(PieceDefinitions["x-pento-pk"].baseShape)
    ensures |Orientations(PieceDefinitions["x-pento-pk"].baseShape)| == 1
  {
    XPentominoOrientations();
  }

  /** Catalogue entry "f-pento-bo" is rectangular and has 8 orientations. */
  lemma FPentoBoCount()
    ensures Rectangular(PieceDefinitions["f-pento-bo"].baseShape)
    ensures |Orientations(PieceDefinitions["f-pento-bo"].baseShape)| == 8
  {
    FPentominoOrientations();
  }

  /** Catalogue entry "u-pento-dg" is rectangular and has 4 orientations. */
  lemma UPentoDgCount()
    ensures Rectangular(PieceDefinitions["u-pento-dg"].baseShape)
    ensures |Orientations(PieceDefinitions["u-pento-dg"].baseShape)| == 4
  {
    UPentominoOrientations();
  }

  /** Catalogue entry "t-pento-lg" is rectangular and has 4 orientations. */
  lemma TPentoLgCount()
    ensures Rectangular(PieceDefinitions["t-pento-lg"].baseShape)
    ensures |Orientations(PieceDefinitions["t-pento-lg"].baseShape)| == 4
  {
    TPentominoOrientations();
  }

  /** Every base footprint of the catalogue is rectangular, and every
      orientation count is 1, 4 or 8. */
  lemma CatalogueOrientationCounts()
    ensures forall id :: id in PieceDefinitions ==> Rectangular(PieceDefinitions[id].baseShape)
    ensures forall id :: id in PieceDefinitions ==> |Orientations(PieceDefinitions[id].baseShape)| in {1, 4, 8}
  {
    forall id | id in PieceDefinitions
      ensures Rectangular(PieceDefinitions[id].baseShape)
      ensures |Orientations(PieceDefinitions[id].baseShape)| in {1, 4, 8}
    {
      if id == "z-tetra-y" {
        ZTetraYCount();
      } else if id == "t-tetra-p" {
        TTetraPCount();
      } else if id == "j-tetra-db" {
        JTetraDbCount();
      } else if id == "o-tetra-o" {
        OTetraOCount();
      } else if id == "z-pento-lb" || id == "z-pento-r" {
        ZPentominoCounts();
      } else if id == "x-pento-pk" {
        XPentoPkCount();
      } else if id == "f-pento-bo" {
        FPentoBoCount();
      } else if id == "u-pento-dg" {
        UPentoDgCount();
      } else {
        TPentoLgCount();
      }
    }
  }

  /** A footprint with a 1 somewhere covers at least one cell. */
  lemma OnesPositive(m: Shape, r: int, c: int)
    requires 0 <= r < |m| && 0 <= c < |m[r]| && m[r][c] == 1
    ensures Ones(m) > 0
  {
    assert (r, c) in Cells(m);
  }

  /** Every definition is filed under its own id, and every base footprint
      covers at least one cell. */
  lemma CatalogueFootprintsCover()
    ensures forall id :: id in PieceDefinitions ==> PieceDefinitions[id].id == id
    ensures forall id :: id in PieceDefinitions ==> Ones(PieceDefinitions[id].baseShape) > 0
  {
    forall id | id in PieceDefinitions
      ensures PieceDefinitions[id].id == id && Ones(PieceDefinitions[id].baseShape) > 0
    {
      var m := PieceDefinitions[id].baseShape;
      if m[0][1] == 1 {
        OnesPositive(m, 0, 1);
      } else {
        OnesPositive(m, 1, 1);
      }
    }
  }

  /** The processed catalogue the game runs on, built from the ten
      definitions; it is valid, so every later lookup and index step is
      well defined. */
  method BuildCatalogue() returns (pieces: map<PieceId, Piece>)
    ensures pieces.Keys == PieceDefinitions.Keys
    ensures forall id :: id in PieceDefinitions ==> pieces[id].allShapes == Orientations(PieceDefinitions[id].baseShape)
    ensures ValidCatalogue(pieces)
  {
    CatalogueOrientationCounts();
    CatalogueFootprintsCover();
    pieces := BuildPieces(PieceDefinitions);
    BuiltCatalogueValid(PieceDefinitions, pieces);
  }
}
