/**
 * The orientation set of a piece: the four quarter turns of its base
 * footprint, then the four quarter turns of its mirror image, with repeated
 * footprints dropped and the first occurrence of each kept in place.
 */
module OrientationSets {
  import opened Shapes

  /** The footprint after k quarter turns. */
  function Turns(m: Shape, k: nat): (out: Shape)
    requires Rectangular(m)
    ensures Rectangular(out)
  {
    if k == 0 then m else Rotated(Turns(m, k - 1))
  }

  /** The eight candidates in the order they are generated: the base and its
      three turns, then the mirrored base and its three turns. */
  function Candidates(base: Shape): (cands: seq<Shape>)
    requires Rectangular(base)
    ensures |cands| == 8
  {
    var f := Flipped(base);
    [base, Rotated(base), Rotated(Rotated(base)), Rotated(Rotated(Rotated(base))),
     f, Rotated(f), Rotated(Rotated(f)), Rotated(Rotated(Rotated(f)))]
  }

  /** Candidate k is the k-th turn of the base for k < 4 and the (k-4)-th
      turn of the mirrored base after that. */
  lemma CandidatesAreTurns(base: Shape)
    requires Rectangular(base)
    ensures forall k :: 0 <= k < 4 ==>
      Candidates(base)[k] == Turns(base, k) && Candidates(base)[k + 4] == Turns(Flipped(base), k)
  {
    var f := Flipped(base);
    var c := Candidates(base);
    assert Turns(base, 1) == Rotated(base) && Turns(f, 1) == Rotated(f);
    assert Turns(base, 2) == Rotated(Turns(base, 1)) && Turns(f, 2) == Rotated(Turns(f, 1));
    assert Turns(base, 3) == Rotated(Turns(base, 2)) && Turns(f, 3) == Rotated(Turns(f, 2));
    assert c[0] == base && c[1] == Turns(base, 1) && c[2] == Turns(base, 2) && c[3] == Turns(base, 3);
    assert c[4] == f && c[5] == Turns(f, 1) && c[6] == Turns(f, 2) && c[7] == Turns(f, 3);
  }

  /** The candidate list, given each footprint along the turn-and-mirror chain. */
  lemma CandidatesFrom(b: Shape, r1: Shape, r2: Shape, r3: Shape, f: Shape, f1: Shape, f2: Shape, f3: Shape)
    requires Rectangular(b)
    requires Rotated(b) == r1 && Rotated(r1) == r2 && Rotated(r2) == r3
    requires Flipped(b) == f && Rotated(f) == f1 && Rotated(f1) == f2 && Rotated(f2) == f3
    ensures Candidates(b) == [b, r1, r2, r3, f, f1, f2, f3]
  {
  }

  lemma CandidatesPrefix(base: Shape, k: nat)
    requires Rectangular(base) && k < 8
    ensures Candidates(base)[..k + 1] ==
      Candidates(base)[..k] + [if k < 4 then Turns(base, k) else Turns(Flipped(base), k - 4)]
  {
    CandidatesAreTurns(base);
  }

  /** No footprint occurs twice. */
  predicate Distinct<T(==)>(s: seq<T>)
  {
    forall i, j :: 0 <= i < j < |s| ==> s[i] != s[j]
  }

  /** A left-to-right pass that keeps an element only if it has not been kept
      before: the loop over the candidates with its set of seen shapes. */
  function Dedup<T(==)>(s: seq<T>): seq<T>
    decreases |s|
  {
    if s == [] then []
    else
      var kept := Dedup(s[..|s| - 1]);
      if s[|s| - 1] in kept then kept else kept + [s[|s| - 1]]
  }

  /** The positions of first occurrences in s, in increasing order. */
  function FirstIndices<T(==)>(s: seq<T>): seq<nat>
    decreases |s|
  {
    if s == [] then []
    else
      var p := s[..|s| - 1];
      FirstIndices(p) + if s[|s| - 1] in p then [] else [|s| - 1]
  }

  /** The orientation set of a base footprint. */
  function Orientations(base: Shape): seq<Shape>
    requires Rectangular(base)
  {
    Dedup(Candidates(base))
  }

  lemma DedupSnoc<T>(s: seq<T>, x: T)
    ensures Dedup(s + [x]) == if x in Dedup(s) then Dedup(s) else Dedup(s) + [x]
  {
    assert (s + [x])[..|s|] == s;
  }

  /** Deduplication keeps exactly the elements of its input. */
  lemma {:induction false} DedupElements<T>(s: seq<T>)
    ensures forall x :: x in Dedup(s) <==> x in s
    ensures |Dedup(s)| <= |s|
    decreases |s|
  {
    if s != [] {
      var p := s[..|s| - 1];
      DedupElements(p);
      assert s == p + [s[|s| - 1]];
    }
  }

  /** Deduplication leaves no element twice. */
  lemma {:induction false} DedupDistinct<T>(s: seq<T>)
    ensures Distinct(Dedup(s))
    decreases |s|
  {
    if s != [] {
      DedupDistinct(s[..|s| - 1]);
    }
  }

  /** The first element survives, in front. */
  lemma {:induction false} DedupHead<T>(s: seq<T>)
    requires |s| > 0
    ensures |Dedup(s)| > 0 && Dedup(s)[0] == s[0]
    decreases |s|
  {
    if |s| > 1 {
      var p := s[..|s| - 1];
      DedupHead(p);
      assert p[0] == s[0];
    }
  }

  /** A sequence with one repeated element collapses to that element. */
  lemma {:induction false} DedupConstant<T>(s: seq<T>, a: T)
    requires |s| > 0 && forall i :: 0 <= i < |s| ==> s[i] == a
    ensures Dedup(s) == [a]
    decreases |s|
  {
    if |s| > 1 {
      DedupConstant(s[..|s| - 1], a);
    }
  }

  /** Appending elements already present changes nothing. */
  lemma {:induction false} DedupAbsorb<T>(q: seq<T>, r: seq<T>)
    requires forall i :: 0 <= i < |r| ==> r[i] in q
    ensures Dedup(q + r) == Dedup(q)
    decreases |r|
  {
    if r != [] {
      var r' := r[..|r| - 1];
      DedupAbsorb(q, r');
      assert q + r == (q + r') + [r[|r| - 1]];
      DedupSnoc(q + r', r[|r| - 1]);
      DedupElements(q);
    } else {
      assert q + r == q;
    }
  }

  /** Two stretches with no element in common deduplicate separately. */
  lemma {:induction false} DedupAppendDisjoint<T>(x: seq<T>, y: seq<T>)
    requires forall i :: 0 <= i < |y| ==> y[i] !in x
    ensures Dedup(x + y) == Dedup(x) + Dedup(y)
    decreases |y|
  {
    if y != [] {
      var y' := y[..|y| - 1];
      var e := y[|y| - 1];
      DedupAppendDisjoint(x, y');
      assert x + y == (x + y') + [e];
      assert y == y' + [e];
      DedupSnoc(x + y', e);
      DedupSnoc(y', e);
      DedupElements(x);
    } else {
      assert x + y == x;
    }
  }

  /** A sequence without repeats is left as it is. */
  lemma {:induction false} DedupOfDistinct<T>(s: seq<T>)
    requires Distinct(s)
    ensures Dedup(s) == s
    decreases |s|
  {
    if s != [] {
      var p := s[..|s| - 1];
      DedupOfDistinct(p);
      assert s[|s| - 1] !in p;
      assert s == p + [s[|s| - 1]];
    }
  }

  /** Deduplication is the subsequence of first occurrences: it lists
      s[FirstIndices(s)[0]], s[FirstIndices(s)[1]], ...; those positions
      increase, so generation order is kept; and a position is among them
      exactly when its element does not occur earlier. */
  lemma {:induction false} DedupFirstOccurrences<T>(s: seq<T>)
    ensures |FirstIndices(s)| == |Dedup(s)|
    ensures forall k :: 0 <= k < |Dedup(s)| ==>
      FirstIndices(s)[k] < |s| && Dedup(s)[k] == s[FirstIndices(s)[k]]
    ensures forall k, l :: 0 <= k < l < |FirstIndices(s)| ==> FirstIndices(s)[k] < FirstIndices(s)[l]
    ensures forall i :: 0 <= i < |s| ==> (i in FirstIndices(s) <==> s[i] !in s[..i])
    decreases |s|
  {
    FirstIndicesOrdered(s);
    FirstIndicesExact(s);
    if s != [] {
      var n := |s| - 1;
      var p := s[..n];
      DedupFirstOccurrences(p);
      DedupElements(p);
    }
  }

  /** First-occurrence positions are positions of s, in increasing order. */
  lemma {:induction false} FirstIndicesOrdered<T>(s: seq<T>)
    ensures forall k :: 0 <= k < |FirstIndices(s)| ==> FirstIndices(s)[k] < |s|
    ensures forall k, l :: 0 <= k < l < |FirstIndices(s)| ==> FirstIndices(s)[k] < FirstIndices(s)[l]
    decreases |s|
  {
    if s != [] {
      FirstIndicesOrdered(s[..|s| - 1]);
    }
  }

  /** A position is listed exactly when its element does not occur before it. */
  lemma {:induction false} FirstIndicesExact<T>(s: seq<T>)
    ensures forall i :: 0 <= i < |s| ==> (i in FirstIndices(s) <==> s[i] !in s[..i])
    decreases |s|
  {
    if s != [] {
      var n := |s| - 1;
      var p := s[..n];
      FirstIndicesExact(p);
      FirstIndicesOrdered(p);
      forall i | 0 <= i < n
        ensures s[..i] == p[..i] && s[i] == p[i]
      {
      }
    }
  }

  /** The imperative generation: two loops push the turns of the base and of
      its mirror image, a third keeps the shapes not seen before. */
  method GenerateOrientations(baseShape: Shape) returns (uniqueShapes: seq<Shape>)
    requires Rectangular(baseShape)
    ensures uniqueShapes == Orientations(baseShape)
  {
    ghost var cands := Candidates(baseShape);
    var shapes: seq<Shape> := [];
    var currentShape := baseShape;
    for i := 0 to 4
      invariant shapes == cands[..i]
      invariant currentShape == Turns(baseShape, i)
    {
      CandidatesPrefix(baseShape, i);
      shapes := shapes + [currentShape];
      currentShape := Rotate(currentShape);
    }
    currentShape := Flipped(baseShape);
    for i := 0 to 4
      invariant shapes == cands[..4 + i]
      invariant currentShape == Turns(Flipped(baseShape), i)
    {
      CandidatesPrefix(baseShape, 4 + i);
      shapes := shapes + [currentShape];
      currentShape := Rotate(currentShape);
    }
    assert shapes == cands;
    uniqueShapes := [];
    var shapeStrings: set<Shape> := {};
    for i := 0 to |shapes|
      invariant uniqueShapes == Dedup(shapes[..i])
      invariant forall x :: x in shapeStrings <==> x in uniqueShapes
    {
      var shape := shapes[i];
      assert shapes[..i + 1] == shapes[..i] + [shape];
      DedupSnoc(shapes[..i], shape);
      if shape !in shapeStrings {
        shapeStrings := shapeStrings + {shape};
        uniqueShapes := uniqueShapes + [shape];
      }
    }
    assert shapes[..|shapes|] == shapes;
  }

  /** The orientation set is non-empty, starts with the base footprint itself,
      has no repeats, holds between one and eight footprints, contains every
      candidate and nothing else. */
  lemma OrientationsProperties(base: Shape)
    requires Rectangular(base)
    ensures 1 <= |Orientations(base)| <= 8
    ensures Orientations(base)[0] == base
    ensures Distinct(Orientations(base))
    ensures forall k :: 0 <= k < 8 ==> Candidates(base)[k] in Orientations(base)
    ensures forall x :: x in Orientations(base) ==> x in Candidates(base)
  {
    var cands := Candidates(base);
    DedupElements(cands);
    DedupDistinct(cands);
    DedupHead(cands);
  }

  /** The orientation set lists the candidates that do not repeat an earlier
      candidate, in generation order. */
  lemma OrientationsOrder(base: Shape)
    requires Rectangular(base)
    ensures |FirstIndices(Candidates(base))| == |Orientations(base)|
    ensures forall k :: 0 <= k < |Orientations(base)| ==>
      FirstIndices(Candidates(base))[k] < 8 &&
      Orientations(base)[k] == Candidates(base)[FirstIndices(Candidates(base))[k]]
    ensures forall k, l :: 0 <= k < l < |Orientations(base)| ==>
      FirstIndices(Candidates(base))[k] < FirstIndices(Candidates(base))[l]
    ensures forall i :: 0 <= i < 8 ==>
      (i in FirstIndices(Candidates(base)) <==> Candidates(base)[i] !in Candidates(base)[..i])
  {
    DedupFirstOccurrences(Candidates(base));
  }

  lemma {:induction false} TurnsOnes(m: Shape, k: nat)
    requires Rectangular(m)
    ensures Ones(Turns(m, k)) == Ones(m)
  {
    if k > 0 {
      TurnsOnes(m, k - 1);
      RotatedOnes(Turns(m, k - 1));
    }
  }

  /** Every orientation is a rectangular footprint covering as many cells as
      the base. */
  lemma OrientationsOnes(base: Shape)
    requires Rectangular(base)
    ensures forall x :: x in Orientations(base) ==> Rectangular(x) && Ones(x) == Ones(base)
  {
    var cands := Candidates(base);
    DedupElements(cands);
    FlippedOnes(base);
    forall k | 0 <= k < 8
      ensures Rectangular(cands[k]) && Ones(cands[k]) == Ones(base)
    {
      CandidatesAreTurns(base);
      if k < 4 {
        TurnsOnes(base, k);
      } else {
        TurnsOnes(Flipped(base), k - 4);
      }
    }
  }

  /** When no candidate repeats, the orientation set is the candidate list
      itself: the four turns of the base, then the four turns of the mirror. */
  lemma EightOrientations(base: Shape)
    requires Rectangular(base)
    requires |Orientations(base)| == 8
    ensures Orientations(base) == Candidates(base)
    ensures forall i :: 0 <= i < 4 ==>
      Orientations(base)[i] == Turns(base, i) && Orientations(base)[i + 4] == Turns(Flipped(base), i)
  {
    var cands := Candidates(base);
    DedupElements(cands);
    DedupDistinct(cands);
    DedupLengthDistinct(cands);
    CandidatesAreTurns(base);
  }

  /** Deduplication that drops nothing leaves its input unchanged. */
  lemma {:induction false} DedupLengthDistinct<T>(s: seq<T>)
    requires |Dedup(s)| == |s|
    ensures Dedup(s) == s
    decreases |s|
  {
    if s != [] {
      var p := s[..|s| - 1];
      DedupElements(p);
      if s[|s| - 1] !in Dedup(p) {
        DedupLengthDistinct(p);
        assert s == p + [s[|s| - 1]];
      }
    }
  }
}
