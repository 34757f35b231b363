/**
 * The orientation-index arithmetic of the tray and of the keyboard: a
 * rotation steps to the next index, a flip jumps to the other half of an
 * eight-orientation set, and a start piece's index is reduced modulo the
 * number of orientations.
 */
module ShapeIndex {
  import opened Shapes
  import opened OrientationSets

  /** The remainder of JavaScript's `%` for a positive divisor: it truncates
      toward zero, so a negative dividend gives a non-positive result. Either
      way the dividend and the remainder differ by a multiple of the divisor. */
  function JsRem(a: int, n: int): (r: int)
    requires n > 0
    ensures 0 <= a ==> 0 <= r < n
    ensures a < 0 ==> -n < r <= 0
    ensures (a - r) % n == 0
  {
    if a >= 0 then
      MultipleMod(a / n, n);
      assert a - a % n == n * (a / n);
      a % n
    else
      MultipleMod(-((-a) / n), n);
      assert a + (-a) % n == n * (-((-a) / n));
      -((-a) % n)
  }

  /** A multiple of the divisor leaves no remainder. */
  lemma MultipleMod(q: int, n: int)
    requires n > 0
    ensures (n * q) % n == 0
  {
    var d, m := (n * q) / n, (n * q) % n;
    assert n * q == n * d + m && 0 <= m < n;
    assert n * (q - d) == m by {
      assert n * (q - d) == n * q - n * d;
    }
    if q - d >= 1 {
      MulAtLeast(n, q - d);
    } else if q - d <= -1 {
      MulAtLeast(n, d - q);
    }
  }

  lemma {:induction false} MulAtLeast(n: int, k: int)
    requires n > 0 && k >= 1
    ensures n * k >= n
    decreases k
  {
    if k > 1 {
      MulAtLeast(n, k - 1);
      assert n * k == n * (k - 1) + n;
    }
  }

  /** Below the divisor the remainder is the dividend; between n and 2n it
      wraps around once. */
  lemma JsRemCases(a: int, n: int)
    requires n > 0
    ensures 0 <= a < n ==> JsRem(a, n) == a
    ensures n <= a < 2 * n ==> JsRem(a, n) == a - n
  {
    if 0 <= a < n {
      ModSmall(a, n);
    } else if n <= a < 2 * n {
      ModOnce(a, n);
    }
  }

  lemma ModSmall(a: int, n: int)
    requires 0 <= a < n
    ensures a % n == a
  {
  }

  lemma ModOnce(a: int, n: int)
    requires 0 < n <= a < 2 * n
    ensures a % n == a - n
  {
    assert a == 1 * n + (a - n);
  }

  /** One press of "rotate": the next index, wrapping from the last to 0. */
  function RotateIndex(i: int, n: int): (j: int)
    requires n > 0
    ensures 0 <= i < n ==> 0 <= j < n && j == if i == n - 1 then 0 else i + 1
  {
    JsRemCases(i + 1, n);
    JsRem(i + 1, n)
  }

  /** The text of r / 2 read back by parseInt: the half truncated toward
      zero. */
  function ParsedHalf(r: int): (h: int)
    ensures r >= 0 ==> 0 <= r - 2 * h <= 1
    ensures r < 0 ==> -1 <= r - 2 * h <= 0
  {
    if r >= 0 then r / 2 else -((-r) / 2)
  }

  /** One press of "flip": with more than four orientations the index moves
      by half the count, otherwise it is left alone. For an odd count above
      four the half is fractional; the fractional index is stored as text and
      every later reader parses it back to an integer, truncating it. In
      integers, (i + n / 2) % n over the reals is half of JsRem(2 i + n, 2 n). */
  function FlipIndex(i: int, n: int): (j: int)
    requires n > 0
    ensures n <= 4 ==> j == i
    ensures n > 4 && n % 2 == 0 && 0 <= i < n ==>
      0 <= j < n && j == if i < n / 2 then i + n / 2 else i - n / 2
    ensures n > 4 && n % 2 == 1 && 0 <= i < n ==>
      0 <= j < n && j == if i <= n / 2 then i + n / 2 else i - n / 2 - 1
  {
    if n > 4 then
      JsRemCases(2 * i + n, 2 * n);
      ParsedHalf(JsRem(2 * i + n, 2 * n))
    else
      i
  }

  /** The orientation a start piece is drawn in: its index modulo the count,
      with JavaScript's sign rule for a negative index. */
  function StartShapeIndex(i: int, n: int): (j: int)
    requires n > 0
    ensures 0 <= i ==> 0 <= j < n && j == i % n
    ensures 0 <= i < n ==> j == i
    ensures i < 0 ==> -n < j <= 0
    ensures (i - j) % n == 0
  {
    JsRemCases(i, n);
    JsRem(i, n)
  }

  /** Pressing "rotate" k times from index i. */
  function RotateTimes(i: int, n: int, k: nat): int
    requires n > 0
  {
    if k == 0 then i else RotateIndex(RotateTimes(i, n, k - 1), n)
  }

  /** Rotating k times from a valid index moves it k places forward,
      wrapping around: past the end it continues from 0. */
  lemma {:induction false} RotateTimesShift(i: int, n: int, k: nat)
    requires n > 0 && 0 <= i < n && k <= n
    ensures RotateTimes(i, n, k) == if i + k < n then i + k else i + k - n
  {
    if k > 0 {
      RotateTimesShift(i, n, k - 1);
    }
  }

  /** n presses of "rotate" bring every valid index back to itself, and
      fewer presses never do. */
  lemma RotateCycle(i: int, n: int)
    requires n > 0 && 0 <= i < n
    ensures RotateTimes(i, n, n) == i
    ensures forall k: nat :: 0 < k < n ==> RotateTimes(i, n, k) != i
  {
    RotateTimesShift(i, n, n);
    forall k: nat | 0 < k < n
      ensures RotateTimes(i, n, k) != i
    {
      RotateTimesShift(i, n, k);
    }
  }

  /** Flipping twice gives back the index when the count is even or at most
      four. */
  lemma FlipIndexInvolution(i: int, n: int)
    requires n > 0 && (n > 4 ==> n % 2 == 0) && 0 <= i < n
    ensures FlipIndex(FlipIndex(i, n), n) == i
  {
  }

  /** With an odd count above four, two flips from index 0 end on the last
      index instead of returning. */
  lemma OddFlipTwice(n: int)
    requires n > 4 && n % 2 == 1
    ensures FlipIndex(FlipIndex(0, n), n) == n - 1 != 0
  {
  }

  /** On an eight-orientation piece the flip sends the k-th turn of the base
      to the k-th turn of its mirror image and back. */
  lemma FlipIndexMirrors(base: Shape, i: int)
    requires Rectangular(base) && |Orientations(base)| == 8 && 0 <= i < 8
    ensures Orientations(base)[FlipIndex(i, 8)] ==
      if i < 4 then Turns(Flipped(base), i) else Turns(base, i - 4)
  {
    EightOrientations(base);
  }

  /** On an eight-orientation piece a rotate press within a half shows the
      next quarter turn; from the last turn of either half it crosses to the
      first shape of the other half, which is a mirror image and not a turn. */
  lemma RotateIndexTurns(base: Shape, i: int)
    requires Rectangular(base) && |Orientations(base)| == 8 && 0 <= i < 8
    ensures i < 3 ==> Orientations(base)[RotateIndex(i, 8)] == Turns(base, i + 1)
    ensures 4 <= i < 7 ==> Orientations(base)[RotateIndex(i, 8)] == Turns(Flipped(base), i - 3)
    ensures i == 3 ==> Orientations(base)[RotateIndex(i, 8)] == Flipped(base)
    ensures i == 7 ==> Orientations(base)[RotateIndex(i, 8)] == base
  {
    EightOrientations(base);
  }
}
