/**
 * Where each placement sits. A placement's cells carry only its id, piece
 * and orientation; the cell a piece was dropped on is not recorded. Given
 * that anchor, the cells of a placement are exactly the cells its
 * orientation covers from there, all of them on the board.
 */
module Footprints {
  import opened Wrappers
  import opened Shapes
  import opened Catalogue
  import opened Grids
  import opened Placement

  /** The placement with the given id occupies exactly the cells the
      footprint covers with its top-left corner at the anchor, and every
      covered cell lies on the board. */
  ghost predicate Occupies(g: Grid, id: nat, shape: Shape, anchor: (int, int))
    requires IsGrid(g)
  {
    (forall r, c :: Covers(shape, r, c) ==> InBounds(anchor.0 + r, anchor.1 + c)) &&
    forall k, l :: InBounds(k, l) ==> (HasInstance(g[k][l], id) <==> Hits(shape, anchor.0, anchor.1, k, l))
  }

  /** Every placement on the board has an anchor and occupies exactly its
      piece's orientation there. */
  ghost predicate PlacementsExact(g: Grid, catalogue: map<PieceId, Piece>, anchors: map<nat, (int, int)>)
    requires IsGrid(g)
  {
    forall i, j :: InBounds(i, j) && g[i][j].tag.Some? ==> TagExact(g, catalogue, anchors, g[i][j].tag.value)
  }

  /** The placement a tag describes is of a known piece in one of its
      orientations, has an anchor, and occupies exactly that orientation at
      the anchor. */
  ghost predicate TagExact(g: Grid, catalogue: map<PieceId, Piece>, anchors: map<nat, (int, int)>, t: Tag)
    requires IsGrid(g)
  {
    t.pieceId in catalogue && 0 <= t.shapeIndex < |catalogue[t.pieceId].allShapes| &&
    t.instanceId in anchors &&
    Occupies(g, t.instanceId, catalogue[t.pieceId].allShapes[t.shapeIndex], anchors[t.instanceId])
  }

  /** A board with no placements satisfies the invariant for any anchors. */
  lemma NoPlacementsExact(g: Grid, catalogue: map<PieceId, Piece>, anchors: map<nat, (int, int)>)
    requires IsGrid(g) && forall i, j :: InBounds(i, j) ==> g[i][j].tag.None?
    ensures PlacementsExact(g, catalogue, anchors)
  {
  }

  /** Painting a fitting placement under the next id leaves the cells of
      every other id as they were. */
  lemma PaintSparesOthers(g: Grid, nextId: nat, shape: Shape, row0: int, col0: int, t: Tag, id: nat)
    requires ValidGrid(g, nextId) && Fits(g, shape, row0, col0) && id != t.instanceId
    ensures forall k, l :: InBounds(k, l) ==>
      (HasInstance(Painted(g, shape, row0, col0, UserPaint(t))[k][l], id) <==> HasInstance(g[k][l], id))
  {
    PlaceFootprint(g, nextId, shape, row0, col0, t);
    forall k, l | InBounds(k, l) && Hits(shape, row0, col0, k, l)
      ensures !HasInstance(g[k][l], id)
    {
      assert Covers(shape, k - row0, l - col0);
    }
  }

  /** A fitting drop of a known piece under the next id, recorded at the
      cell it was dropped on, keeps every placement exact, the new one
      included. */
  lemma DropKeepsExact(g: Grid, nextId: nat, catalogue: map<PieceId, Piece>, anchors: map<nat, (int, int)>,
                       pieceId: PieceId, index: int, row0: int, col0: int)
    requires ValidGrid(g, nextId) && PlacementsExact(g, catalogue, anchors)
    requires pieceId in catalogue && 0 <= index < |catalogue[pieceId].allShapes|
    requires Fits(g, catalogue[pieceId].allShapes[index], row0, col0)
    ensures PlacementsExact(Painted(g, catalogue[pieceId].allShapes[index], row0, col0,
        UserPaint(Tag(nextId, pieceId, index))), catalogue, anchors[nextId := (row0, col0)])
  {
    var shape := catalogue[pieceId].allShapes[index];
    var t := Tag(nextId, pieceId, index);
    var out: Grid := Painted(g, shape, row0, col0, UserPaint(t));
    var anchors' := anchors[nextId := (row0, col0)];
    PlaceFootprint(g, nextId, shape, row0, col0, t);
    PlaceInstanceCells(g, nextId, shape, row0, col0, pieceId, index);
    forall i, j | InBounds(i, j) && out[i][j].tag.Some?
      ensures TagExact(out, catalogue, anchors', out[i][j].tag.value)
    {
      if Hits(shape, row0, col0, i, j) {
        assert out[i][j].tag.value == t;
      } else {
        var u := g[i][j].tag.value;
        assert out[i][j] == g[i][j];
        PaintSparesOthers(g, nextId, shape, row0, col0, t, u.instanceId);
      }
    }
  }

  /** Clearing a placement keeps every remaining placement exact. */
  lemma RemoveKeepsExact(g: Grid, nextId: nat, catalogue: map<PieceId, Piece>, anchors: map<nat, (int, int)>, id: nat)
    requires ValidGrid(g, nextId) && PlacementsExact(g, catalogue, anchors)
    ensures PlacementsExact(Removed(g, id), catalogue, anchors)
  {
    RemoveCells(g, nextId, id);
  }

  /** Clearing a placement that is exact empties precisely the cells its
      orientation covers from its anchor. */
  lemma RemoveClearsFootprint(g: Grid, nextId: nat, catalogue: map<PieceId, Piece>, anchors: map<nat, (int, int)>,
                              i: int, j: int)
    requires ValidGrid(g, nextId) && PlacementsExact(g, catalogue, anchors)
    requires InBounds(i, j) && g[i][j].tag.Some?
    ensures var t := g[i][j].tag.value;
      var anchor := anchors[t.instanceId];
      forall k, l :: InBounds(k, l) ==>
        Removed(g, t.instanceId)[k][l] ==
          if Hits(catalogue[t.pieceId].allShapes[t.shapeIndex], anchor.0, anchor.1, k, l)
          then Cell(false, false, false, None) else g[k][l]
  {
    RemoveCells(g, nextId, g[i][j].tag.value.instanceId);
  }
}
