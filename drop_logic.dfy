/** `handleTileDrop`: where a released tile goes. The drop point snaps to a cell of the
    dragged tile's family; the tile swaps with another same-family tile on that cell,
    otherwise moves there if a same-family tile borders it, otherwise animates back. */
module DropLogic {
  import opened Common
  import opened HexMath
  import opened Shapes

  /** The dragged canvas object: its `data` and its current `left`/`top`. */
  datatype DraggedObject = DraggedObject(data: ShapedTile, left: real, top: real)

  /** The three outcomes. `Swap` and `Move` both end in the call
      `moveOrSwapTile(id, target)`; `Revert` animates the object to `home`. */
  datatype DropOutcome =
    | Swap(id: TileId, target: GridCoord, partner: TileId)
    | Move(id: TileId, target: GridCoord)
    | Revert(home: Point)

  /** A store call `moveOrSwapTile(id, coord)`. */
  datatype MoveCall = MoveCall(id: TileId, target: GridCoord)

  /** The cell under the drop point, on the dragged tile's grid. */
  function DropTarget(obj: DraggedObject, s: real): GridCoord
    requires IsSqrt3(s)
  {
    PixelToCoord(Point(obj.left, obj.top), IsHexShape(obj.data.shape), s)
  }

  /** `t` is another tile of the dragged tile's family sitting on `target`. */
  predicate Occupies(t: ShapedTile, obj: DraggedObject, target: GridCoord) {
    var hex := IsHexShape(obj.data.shape);
    SameFamily(t, hex) && CoordOf(t, hex) == target && t.id != obj.data.id
  }

  /** `t` is another tile of the dragged tile's family bordering `target`. */
  predicate Borders(t: ShapedTile, obj: DraggedObject, target: GridCoord) {
    var hex := IsHexShape(obj.data.shape);
    t.id != obj.data.id && SameFamily(t, hex) && target in NeighborCoords(CoordOf(t, hex))
  }

  /** The `find` for a swap partner. */
  function TargetTile(allTiles: seq<ShapedTile>, obj: DraggedObject, target: GridCoord): (t: Option<ShapedTile>)
    ensures t.None? <==> forall i :: 0 <= i < |allTiles| ==> !Occupies(allTiles[i], obj, target)
    ensures t.Some? ==> t.value in allTiles && Occupies(t.value, obj, target)
  {
    Find(allTiles, (t: ShapedTile) => Occupies(t, obj, target))
  }

  /** The `some` for a same-family neighbour. */
  predicate HasNeighbor(allTiles: seq<ShapedTile>, obj: DraggedObject, target: GridCoord) {
    exists i :: 0 <= i < |allTiles| && Borders(allTiles[i], obj, target)
  }

  /** The decision once the drop point has been snapped to `target`. Exactly one outcome
      applies: swap when another same-family tile sits on the target, move when none does
      but one borders it, revert to `home` otherwise. */
  function Decide(obj: DraggedObject, allTiles: seq<ShapedTile>, target: GridCoord, home: Point): (o: DropOutcome)
    ensures o.Swap? <==> exists i :: 0 <= i < |allTiles| && Occupies(allTiles[i], obj, target)
    ensures o.Move? <==> (forall i :: 0 <= i < |allTiles| ==> !Occupies(allTiles[i], obj, target))
                         && HasNeighbor(allTiles, obj, target)
    ensures o.Revert? <==> (forall i :: 0 <= i < |allTiles| ==> !Occupies(allTiles[i], obj, target))
                           && !HasNeighbor(allTiles, obj, target)
    ensures (o.Swap? || o.Move?) ==> o.id == obj.data.id && o.target == target
    ensures o.Swap? ==> exists t :: t in allTiles && t.id == o.partner && Occupies(t, obj, target)
    ensures o.Revert? ==> o.home == home
  {
    match TargetTile(allTiles, obj, target)
    case Some(t) => Swap(obj.data.id, target, t.id)
    case None =>
      if HasNeighbor(allTiles, obj, target) then Move(obj.data.id, target) else Revert(home)
  }

  /** The centre of the dragged tile's old cell, where a revert animates it to. */
  function HomePosition(obj: DraggedObject, s: real): Point
    requires IsSqrt3(s)
  {
    CoordToPixel(CoordOf(obj.data, IsHexShape(obj.data.shape)), s)
  }

  /** `handleTileDrop`: snap the drop point to the dragged tile's grid, then decide. */
  function HandleTileDrop(obj: DraggedObject, allTiles: seq<ShapedTile>, s: real): DropOutcome
    requires IsSqrt3(s)
  {
    Decide(obj, allTiles, DropTarget(obj, s), HomePosition(obj, s))
  }

  /** The store call an outcome makes: the same call for a swap and a move, none for a revert. */
  function StoreCall(o: DropOutcome): (c: Option<MoveCall>)
    ensures c.None? <==> o.Revert?
  {
    match o
    case Swap(id, target, _) => Some(MoveCall(id, target))
    case Move(id, target) => Some(MoveCall(id, target))
    case Revert(_) => None
  }

  /** A revert sends the tile back onto its own cell: snapping the animation's end
      point gives the dragged tile's old cell. */
  lemma RevertReturnsHome(obj: DraggedObject, allTiles: seq<ShapedTile>, s: real)
    requires IsSqrt3(s)
    ensures var o := HandleTileDrop(obj, allTiles, s);
            var hex := IsHexShape(obj.data.shape);
            o.Revert? ==> PixelToCoord(o.home, hex, s) == CoordOf(obj.data, hex)
                          && o.home == CoordToPixel(CoordOf(obj.data, hex), s)
  {
    var hex := IsHexShape(obj.data.shape);
    CoordRoundTrip(CoordOf(obj.data, hex), s);
  }

  /** Tiles of the other family and tiles carrying the dragged id never affect the decision. */
  lemma DropIgnoresOtherTiles(obj: DraggedObject, allTiles: seq<ShapedTile>, extra: seq<ShapedTile>, s: real)
    requires IsSqrt3(s)
    requires forall e :: e in extra ==> e.id == obj.data.id || !SameFamily(e, IsHexShape(obj.data.shape))
    ensures HandleTileDrop(obj, allTiles + extra, s) == HandleTileDrop(obj, allTiles, s)
  {
    var target := DropTarget(obj, s);
    var all := allTiles + extra;
    var p := (t: ShapedTile) => Occupies(t, obj, target);
    FindAppendUnmatched(allTiles, extra, p);
    assert forall k :: 0 <= k < |extra| ==> all[|allTiles| + k] == extra[k];
    if HasNeighbor(all, obj, target) {
      var i :| 0 <= i < |all| && Borders(all[i], obj, target);
      assert all[i] == allTiles[i];
    }
    if HasNeighbor(allTiles, obj, target) {
      var i :| 0 <= i < |allTiles| && Borders(allTiles[i], obj, target);
      assert all[i] == allTiles[i];
    }
  }

  /** Appending elements that fail the predicate leaves `find` unchanged. */
  lemma {:induction false} FindAppendUnmatched<T>(a: seq<T>, b: seq<T>, p: T -> bool)
    requires forall i :: 0 <= i < |b| ==> !p(b[i])
    ensures Find(a + b, p) == Find(a, p)
  {
    var ab := a + b;
    var ka := FindIndex(a, p);
    var kab := FindIndex(ab, p);
    assert forall i :: 0 <= i < |a| ==> ab[i] == a[i];
    assert forall i :: 0 <= i < |b| ==> ab[|a| + i] == b[i];
    match ka
    case None => {
      assert kab.None?;
    }
    case Some(k) => {
      assert kab == Some(k);
    }
  }

  /** The hex tile `id` at `(q, r)`, as canvas data. */
  function HexTile(id: TileId, q: int, r: int): ShapedTile {
    ShapedTile(id, "hex", q, r, 0, 0)
  }

  /** The hex cell one step east of `(q, r)` borders it; the cell two steps east does not. */
  lemma EastSteps(q: int, r: int)
    ensures HexCoord(q + 1, r) in NeighborCoords(HexCoord(q, r))
    ensures HexCoord(q + 2, r) !in NeighborCoords(HexCoord(q, r))
  {
    HexNeighborCoordsAtDistanceOne(HexCoord(q, r), HexCoord(q + 1, r));
    HexNeighborCoordsAtDistanceOne(HexCoord(q, r), HexCoord(q + 2, r));
  }

  /** With hex tiles `a` at `(q, r)` and `b` one step east, dropping `a` on `b`'s cell swaps them. */
  lemma HexSwapScenario(a: TileId, b: TileId, q: int, r: int, obj: DraggedObject, home: Point)
    requires a != b && obj.data == HexTile(a, q, r)
    ensures Decide(obj, [HexTile(a, q, r), HexTile(b, q + 1, r)], HexCoord(q + 1, r), home)
            == Swap(a, HexCoord(q + 1, r), b)
  {
    var tiles := [HexTile(a, q, r), HexTile(b, q + 1, r)];
    var target := HexCoord(q + 1, r);
    assert !Occupies(tiles[0], obj, target) && Occupies(tiles[1], obj, target);
    assert FindIndex(tiles, (t: ShapedTile) => Occupies(t, obj, target)) == Some(1);
  }

  /** With the same tiles, dropping `a` one step east of `b` moves it there. */
  lemma HexMoveScenario(a: TileId, b: TileId, q: int, r: int, obj: DraggedObject, home: Point)
    requires a != b && obj.data == HexTile(a, q, r)
    ensures Decide(obj, [HexTile(a, q, r), HexTile(b, q + 1, r)], HexCoord(q + 2, r), home)
            == Move(a, HexCoord(q + 2, r))
  {
    var tiles := [HexTile(a, q, r), HexTile(b, q + 1, r)];
    var target := HexCoord(q + 2, r);
    assert !Occupies(tiles[0], obj, target) && !Occupies(tiles[1], obj, target);
    EastSteps(q + 1, r);
    assert Borders(tiles[1], obj, target);
  }

  /** With the same tiles, dropping `a` two steps east of `b` reverts it. */
  lemma HexRevertScenario(a: TileId, b: TileId, q: int, r: int, obj: DraggedObject, home: Point)
    requires a != b && obj.data == HexTile(a, q, r)
    ensures Decide(obj, [HexTile(a, q, r), HexTile(b, q + 1, r)], HexCoord(q + 3, r), home) == Revert(home)
  {
    var tiles := [HexTile(a, q, r), HexTile(b, q + 1, r)];
    var target := HexCoord(q + 3, r);
    assert !Occupies(tiles[0], obj, target) && !Occupies(tiles[1], obj, target);
    EastSteps(q + 1, r);
    assert !Borders(tiles[1], obj, target);
    assert !Borders(tiles[0], obj, target);
  }

  /** A drop released over the centre of a hex cell snaps to that cell, and the home of a
      tile at `(0, 0)` is the canvas origin. */
  lemma HexCentreSnaps(a: TileId, q: int, r: int, s: real)
    requires IsSqrt3(s)
    ensures var p := HexToPixel(q, r, 0.0, 0.0, s);
            var obj := DraggedObject(HexTile(a, 0, 0), p.x, p.y);
            DropTarget(obj, s) == HexCoord(q, r) && HomePosition(obj, s) == Point(0.0, 0.0)
  {
    HexRoundTrip(q, r, 0.0, 0.0, s);
  }
}
