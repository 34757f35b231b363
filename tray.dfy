/**
 * The piece tray: the pieces not yet on the board, each shown in one
 * orientation, in the order they were put in the tray.
 */
module Trays {
  import opened Wrappers
  import opened Shapes
  import opened Catalogue
  import opened ShapeIndex
  import opened OrientationSets

  /** A piece in the tray and the orientation it is shown in. */
  datatype TrayPiece = TrayPiece(pieceId: PieceId, shapeIndex: int)

  /** The tray a puzzle starts with: the listed ids the catalogue knows, in
      order, each in orientation 0. */
  function Rendered(pieceIds: seq<PieceId>, pieces: map<PieceId, Piece>): (items: seq<TrayPiece>)
    ensures |items| <= |pieceIds|
    ensures forall x :: x in items <==> x.pieceId in pieceIds && x.pieceId in pieces && x.shapeIndex == 0
    decreases |pieceIds|
  {
    if pieceIds == [] then []
    else
      var rest := Rendered(pieceIds[..|pieceIds| - 1], pieces);
      var id := pieceIds[|pieceIds| - 1];
      assert forall x :: x in pieceIds <==> x in pieceIds[..|pieceIds| - 1] || x == id;
      if id in pieces then rest + [TrayPiece(id, 0)] else rest
  }

  /** When the catalogue knows every listed id, the tray lists them all, in
      order, in orientation 0. */
  lemma {:induction false} RenderedAllKnown(pieceIds: seq<PieceId>, pieces: map<PieceId, Piece>)
    requires forall k :: 0 <= k < |pieceIds| ==> pieceIds[k] in pieces
    ensures |Rendered(pieceIds, pieces)| == |pieceIds|
    ensures forall k :: 0 <= k < |pieceIds| ==> Rendered(pieceIds, pieces)[k] == TrayPiece(pieceIds[k], 0)
    decreases |pieceIds|
  {
    if pieceIds != [] {
      RenderedAllKnown(pieceIds[..|pieceIds| - 1], pieces);
    }
  }

  /** The position of the first tray piece with the given id, as a lookup by
      piece id finds it. */
  function FirstIndexOf(items: seq<TrayPiece>, pieceId: PieceId): (k: Option<nat>)
    ensures k.Some? ==> k.value < |items| && items[k.value].pieceId == pieceId
    ensures k.Some? ==> forall l :: 0 <= l < k.value ==> items[l].pieceId != pieceId
    ensures k.None? ==> forall l :: 0 <= l < |items| ==> items[l].pieceId != pieceId
  {
    if items == [] then None
    else if items[0].pieceId == pieceId then Some(0)
    else match FirstIndexOf(items[1..], pieceId)
      case None => None
      case Some(k) => Some(k + 1)
  }

  /** The tray after the piece at position k leaves it. */
  function Without(items: seq<TrayPiece>, k: nat): (out: seq<TrayPiece>)
    requires k < |items|
    ensures |out| == |items| - 1
    ensures multiset(out) + multiset{items[k]} == multiset(items)
  {
    assert items == items[..k] + [items[k]] + items[k + 1..];
    items[..k] + items[k + 1..]
  }

  /** The piece ids in the tray, in order. */
  function Ids(items: seq<TrayPiece>): (ids: seq<PieceId>)
    ensures |ids| == |items| && forall k :: 0 <= k < |items| ==> ids[k] == items[k].pieceId
  {
    seq(|items|, k requires 0 <= k < |items| => items[k].pieceId)
  }

  /** Taking out the piece at position k takes exactly its id out of the
      tray's ids. */
  lemma IdsWithout(items: seq<TrayPiece>, k: nat)
    requires k < |items|
    ensures multiset(Ids(Without(items, k))) + multiset{items[k].pieceId} == multiset(Ids(items))
    ensures forall x :: x in Without(items, k) ==> x in items
  {
    var ids := Ids(items);
    assert Ids(Without(items, k)) == ids[..k] + ids[k + 1..];
    assert ids == ids[..k] + [ids[k]] + ids[k + 1..];
    assert forall x :: x in Without(items, k) ==> x in multiset(items);
  }

  /** Appending a piece adds exactly its id. */
  lemma IdsAppend(items: seq<TrayPiece>, x: TrayPiece)
    ensures multiset(Ids(items + [x])) == multiset(Ids(items)) + multiset{x.pieceId}
  {
    assert Ids(items + [x]) == Ids(items) + [x.pieceId];
  }

  /** Every piece in the tray is in the catalogue and shown in one of its
      orientations. */
  ghost predicate ValidItems(items: seq<TrayPiece>, catalogue: map<PieceId, Piece>)
  {
    forall k :: 0 <= k < |items| ==>
      items[k].pieceId in catalogue && 0 <= items[k].shapeIndex < |catalogue[items[k].pieceId].allShapes|
  }

  /** Which key press changes the orientation in which way. A key is the
      text of the pressed key, as the keyboard event reports it. */
  function KeyIndex(key: string, i: int, n: int): (j: int)
    requires n > 0
    ensures key == "r" || key == "R" ==> j == RotateIndex(i, n)
    ensures key == "f" || key == "F" ==> j == FlipIndex(i, n)
    ensures key !in {"r", "R", "f", "F"} ==> j == i
    ensures 0 <= i < n ==> 0 <= j < n
  {
    if key == "r" || key == "R" then RotateIndex(i, n)
    else if key == "f" || key == "F" then FlipIndex(i, n)
    else i
  }

  class Tray {
    const catalogue: map<PieceId, Piece>
    var items: seq<TrayPiece>

    ghost predicate Valid()
      reads this
    {
      ValidCatalogue(catalogue) && ValidItems(items, catalogue)
    }

    /** Fills the tray for a puzzle: one piece per listed id the catalogue
        knows, each shown in orientation 0. */
    constructor RenderPieces(pieces: map<PieceId, Piece>, pieceIds: seq<PieceId>)
      requires ValidCatalogue(pieces)
      ensures catalogue == pieces && items == Rendered(pieceIds, pieces)
      ensures Valid()
    {
      catalogue := pieces;
      items := [];
      new;
      for k := 0 to |pieceIds|
        invariant catalogue == pieces
        invariant items == Rendered(pieceIds[..k], pieces)
      {
        var id := pieceIds[k];
        if id in catalogue {
          items := items + [TrayPiece(id, 0)];
        }
        assert pieceIds[..k + 1][..k] == pieceIds[..k];
      }
      assert pieceIds[..|pieceIds|] == pieceIds;
    }

    /** Takes the piece at position k out of the tray. */
    method RemoveAt(k: nat)
      requires k < |items|
      modifies this
      ensures items == Without(old(items), k)
    {
      items := items[..k] + items[k + 1..];
    }

    /** Appends a piece in the given orientation, unless the catalogue does
        not know its id or the piece has no orientation at that index (the
        element for it cannot be built, so nothing reaches the tray). */
    method AddPieceToTray(pieceId: PieceId, shapeIndex: int) returns (added: bool)
      modifies this
      ensures added <==> pieceId in catalogue && 0 <= shapeIndex < |catalogue[pieceId].allShapes|
      ensures items == if added then old(items) + [TrayPiece(pieceId, shapeIndex)] else old(items)
      ensures old(Valid()) ==> Valid()
    {
      if pieceId !in catalogue || !(0 <= shapeIndex < |catalogue[pieceId].allShapes|) {
        return false;
      }
      items := items + [TrayPiece(pieceId, shapeIndex)];
      return true;
    }

    /** A click on the piece at position k shows its next orientation. */
    method RotatePieceInTray(k: nat)
      requires k < |items| && items[k].pieceId in catalogue && |catalogue[items[k].pieceId].allShapes| > 0
      modifies this
      ensures items == old(items)[k := TrayPiece(old(items[k].pieceId),
        RotateIndex(old(items[k].shapeIndex), |catalogue[old(items[k].pieceId)].allShapes|))]
      ensures old(Valid()) ==> Valid()
    {
      if Valid() {
        IndexMovesKeepItemsValid(items, catalogue, k, "r");
      }
      var piece := catalogue[items[k].pieceId];
      var currentShapeIndex := items[k].shapeIndex;
      currentShapeIndex := RotateIndex(currentShapeIndex, |piece.allShapes|);
      items := items[k := items[k].(shapeIndex := currentShapeIndex)];
    }

    /** A right click on the piece at position k shows its mirror image when
        it has more than four orientations. */
    method FlipPieceInTray(k: nat)
      requires k < |items| && items[k].pieceId in catalogue
      requires |catalogue[items[k].pieceId].allShapes| > 0
      modifies this
      ensures items == old(items)[k := TrayPiece(old(items[k].pieceId),
        FlipIndex(old(items[k].shapeIndex), |catalogue[old(items[k].pieceId)].allShapes|))]
      ensures old(Valid()) ==> Valid()
    {
      if Valid() {
        IndexMovesKeepItemsValid(items, catalogue, k, "f");
      }
      var piece := catalogue[items[k].pieceId];
      var currentShapeIndex := items[k].shapeIndex;
      var maxShapes := |piece.allShapes|;
      if maxShapes > 4 {
        // the half-way jump, read back through parseInt
        currentShapeIndex := ParsedHalf(JsRem(2 * currentShapeIndex + maxShapes, 2 * maxShapes));
      }
      items := items[k := items[k].(shapeIndex := currentShapeIndex)];
    }

    /** A key press while the piece at position k is dragged: "r" rotates,
        "f" flips, any other key leaves the orientation. */
    method HandleKeyPress(k: nat, key: string)
      requires k < |items| && items[k].pieceId in catalogue
      requires |catalogue[items[k].pieceId].allShapes| > 0
      modifies this
      ensures items == old(items)[k := TrayPiece(old(items[k].pieceId),
        KeyIndex(key, old(items[k].shapeIndex), |catalogue[old(items[k].pieceId)].allShapes|))]
      ensures old(Valid()) ==> Valid()
    {
      if Valid() {
        IndexMovesKeepItemsValid(items, catalogue, k, key);
      }
      var piece := catalogue[items[k].pieceId];
      var currentShapeIndex := items[k].shapeIndex;
      var maxShapes := |piece.allShapes|;
      if key == "r" || key == "R" {
        currentShapeIndex := JsRem(currentShapeIndex + 1, maxShapes);
      } else if key == "f" || key == "F" {
        if maxShapes > 4 {
          currentShapeIndex := ParsedHalf(JsRem(2 * currentShapeIndex + maxShapes, 2 * maxShapes));
        }
      }
      items := items[k := items[k].(shapeIndex := currentShapeIndex)];
    }

    /** The puzzle is solved when the tray is empty: no piece id can be
        found in it any more. */
    function CheckWinCondition(): (won: bool)
      reads this
      ensures won <==> forall id :: FirstIndexOf(items, id).None?
    {
      assert items != [] ==> FirstIndexOf(items, items[0].pieceId).Some?;
      items == []
    }
  }

  /** Rotating, flipping or a key press on a valid tray keeps every piece in
      one of its orientations. */
  lemma IndexMovesKeepItemsValid(items: seq<TrayPiece>, catalogue: map<PieceId, Piece>, k: nat, key: string)
    requires ValidCatalogue(catalogue) && ValidItems(items, catalogue) && k < |items|
    ensures var n := |catalogue[items[k].pieceId].allShapes|;
      ValidItems(items[k := items[k].(shapeIndex := KeyIndex(key, items[k].shapeIndex, n))], catalogue)
  {
  }

  /** The Z tetromino has four orientations, so a flip leaves its index as
      it is; yet its mirror image is a different orientation of the set,
      reached only by rotating. */
  lemma FlipKeepsZTetromino(i: int)
    requires 0 <= i < 4
    ensures |Orientations(PieceDefinitions["z-tetra-y"].baseShape)| == 4
    ensures FlipIndex(i, 4) == i
    ensures Flipped(Orientations(PieceDefinitions["z-tetra-y"].baseShape)[0]) ==
      Orientations(PieceDefinitions["z-tetra-y"].baseShape)[2]
    ensures Orientations(PieceDefinitions["z-tetra-y"].baseShape)[2] !=
      Orientations(PieceDefinitions["z-tetra-y"].baseShape)[0]
  {
    ZTetrominoOrientations();
    Mirror2x3(1, 1, 0, 0, 1, 1);
  }
}
