/**
 * The orientation set of a piece is closed under the two moves: turning
 * or mirroring any of its orientations gives an orientation of the same
 * set, and generating the set again from any of its members gives the
 * same set.
 */
module Symmetries {
  import opened Shapes
  import opened OrientationSets

  /** k quarter turns followed by l more are k + l quarter turns. */
  lemma {:induction false} TurnsAdd(m: Shape, k: nat, l: nat)
    requires Rectangular(m)
    ensures Turns(Turns(m, k), l) == Turns(m, k + l)
    decreases l
  {
    if l > 0 {
      TurnsAdd(m, k, l - 1);
    }
  }

  /** Three and four quarter turns, unrolled; four give back the footprint. */
  lemma TurnsUnrolled(m: Shape)
    requires Rectangular(m)
    ensures Turns(m, 3) == Rotated(Rotated(Rotated(m)))
    ensures Turns(m, 4) == m
  {
    assert Turns(m, 1) == Rotated(m);
    assert Turns(m, 2) == Rotated(Turns(m, 1));
    assert Turns(m, 3) == Rotated(Turns(m, 2));
    assert Turns(m, 4) == Rotated(Turns(m, 3));
    RotatedFourTimes(m);
  }

  /** Four more quarter turns change nothing. */
  lemma TurnsPeriod(m: Shape, k: nat)
    requires Rectangular(m)
    ensures Turns(m, k + 4) == Turns(m, k)
  {
    TurnsAdd(m, k, 4);
    TurnsUnrolled(Turns(m, k));
  }

  lemma ModStep(k: nat)
    requires k >= 4
    ensures (k - 4) % 4 == k % 4
  {
  }

  /** Only the number of quarter turns modulo four matters. */
  lemma {:induction false} TurnsMod(m: Shape, k: nat)
    requires Rectangular(m)
    ensures Turns(m, k) == Turns(m, k % 4)
    decreases k
  {
    if k >= 4 {
      var j: nat := k - 4;
      TurnsMod(m, j);
      TurnsPeriod(m, j);
      ModStep(k);
    }
  }

  /** Turning, mirroring and turning again is the mirror image. */
  lemma TurnMirrorTurn(m: Shape)
    requires Rectangular(m)
    ensures Rotated(Flipped(Rotated(m))) == Flipped(m)
  {
    var t := Flipped(Rotated(m));
    var e := Flipped(m);
    forall c, j | 0 <= c < |e| && 0 <= j < |t|
      ensures e[c][j] == t[|t| - 1 - j][c]
    {
      RotatedCell(m, c, Width(m) - 1 - j);
    }
    RotatedEquals(t, e);
  }

  /** Mirroring a turned footprint is turning its mirror image three times. */
  lemma MirrorTurn(m: Shape)
    requires Rectangular(m)
    ensures Flipped(Rotated(m)) == Turns(Flipped(m), 3)
  {
    var t := Flipped(Rotated(m));
    TurnMirrorTurn(m);
    RotatedFourTimes(t);
    TurnsUnrolled(Flipped(m));
  }

  /** Mirroring k quarter turns of a footprint is 3 k quarter turns of its
      mirror image. */
  lemma {:induction false} MirrorTurns(m: Shape, k: nat)
    requires Rectangular(m)
    ensures Flipped(Turns(m, k)) == Turns(Flipped(m), 3 * k)
    decreases k
  {
    if k > 0 {
      var prev := Turns(m, k - 1);
      var j: nat := 3 * (k - 1);
      assert Turns(m, k) == Rotated(prev);
      MirrorTurns(m, k - 1);
      MirrorTurn(prev);
      TurnsAdd(Flipped(m), j, 3);
      assert j + 3 == 3 * k;
    }
  }

  /** Every number of quarter turns of the base, and of its mirror image,
      is in the orientation set. */
  lemma TurnsInOrientations(base: Shape, k: nat)
    requires Rectangular(base)
    ensures Turns(base, k) in Orientations(base)
    ensures Turns(Flipped(base), k) in Orientations(base)
  {
    TurnsMod(base, k);
    TurnsMod(Flipped(base), k);
    CandidatesAreTurns(base);
    OrientationsProperties(base);
    assert Candidates(base)[k % 4] == Turns(base, k % 4);
    assert Candidates(base)[k % 4 + 4] == Turns(Flipped(base), k % 4);
  }

  /** Each orientation is some number of quarter turns of the base or of its
      mirror image. */
  lemma OrientationForm(base: Shape, x: Shape) returns (k: nat, mirrored: bool)
    requires Rectangular(base) && x in Orientations(base)
    ensures k < 4 && x == Turns(if mirrored then Flipped(base) else base, k)
  {
    OrientationsProperties(base);
    CandidatesAreTurns(base);
    var i :| 0 <= i < 8 && Candidates(base)[i] == x;
    if i < 4 {
      k, mirrored := i, false;
    } else {
      k, mirrored := i - 4, true;
    }
  }

  /** Turning any orientation gives an orientation of the same set. */
  lemma RotatedClosed(base: Shape, x: Shape)
    requires Rectangular(base) && x in Orientations(base)
    ensures Rectangular(x) && Rotated(x) in Orientations(base)
  {
    var k, mirrored := OrientationForm(base, x);
    var start := if mirrored then Flipped(base) else base;
    assert Rotated(x) == Turns(start, k + 1);
    TurnsInOrientations(base, k + 1);
  }

  /** Any number of turns of an orientation stays in the set. */
  lemma {:induction false} TurnsClosed(base: Shape, x: Shape, l: nat)
    requires Rectangular(base) && x in Orientations(base)
    ensures Rectangular(x) && Turns(x, l) in Orientations(base)
    decreases l
  {
    OrientationsOnes(base);
    if l > 0 {
      TurnsClosed(base, x, l - 1);
      RotatedClosed(base, Turns(x, l - 1));
    }
  }

  /** Mirroring any orientation gives an orientation of the same set. */
  lemma FlippedClosed(base: Shape, x: Shape)
    requires Rectangular(base) && x in Orientations(base)
    ensures Flipped(x) in Orientations(base)
  {
    var k, mirrored := OrientationForm(base, x);
    if mirrored {
      MirrorTurns(Flipped(base), k);
      FlipInvolution(base);
      TurnsInOrientations(base, 3 * k);
    } else {
      MirrorTurns(base, k);
      TurnsInOrientations(base, 3 * k);
    }
  }

  /** The orientations generated from a member of the set lie in the set. */
  lemma SubOrbit(base: Shape, x: Shape)
    requires Rectangular(base) && x in Orientations(base)
    ensures Rectangular(x)
    ensures forall y :: y in Orientations(x) ==> y in Orientations(base)
  {
    OrientationsOnes(base);
    FlippedClosed(base, x);
    forall y | y in Orientations(x)
      ensures y in Orientations(base)
    {
      var k, mirrored := OrientationForm(x, y);
      if mirrored {
        TurnsClosed(base, Flipped(x), k);
      } else {
        TurnsClosed(base, x, k);
      }
    }
  }

  /** The base is among the orientations generated from any member. */
  lemma BaseRegenerated(base: Shape, x: Shape)
    requires Rectangular(base) && x in Orientations(base)
    ensures Rectangular(x) && base in Orientations(x)
  {
    OrientationsOnes(base);
    var k, mirrored := OrientationForm(base, x);
    var start := if mirrored then Flipped(base) else base;
    FlippedOnes(base);
    TurnsAdd(start, k, 4 - k);
    TurnsUnrolled(start);
    TurnsInOrientations(x, 4 - k);
    if mirrored {
      FlippedClosed(x, start);
      FlipInvolution(base);
    }
  }

  /** Generating the orientations from any member of a piece's set gives
      back exactly that set. */
  lemma RegeneratedOrientations(base: Shape, x: Shape)
    requires Rectangular(base) && x in Orientations(base)
    ensures Rectangular(x)
    ensures forall y :: y in Orientations(x) <==> y in Orientations(base)
  {
    SubOrbit(base, x);
    BaseRegenerated(base, x);
    SubOrbit(x, base);
  }
}
