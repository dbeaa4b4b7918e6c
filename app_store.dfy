/** The application store: the tile list and the view state, with the actions that
    replace them. Fresh tile ids (`crypto.randomUUID` in the program) are supplied by
    the caller. */
module AppStore {
  import opened Common
  import opened HexMath
  import opened StoreTiles
  import opened Placement

  const DEFAULT_SETTINGS: Settings := Settings("hex", "m", "forex", "sharp")

  /** The tile list after `addTile(q, r)` with new id `newId`. */
  function AddedTiles(tiles: seq<Tile>, q: Option<int>, r: Option<int>, newId: TileId): seq<Tile> {
    var t := PlacementTarget(tiles, q, r);
    tiles + [Tile(newId, t.q, t.r, EMPTY_CONTENT)]
  }

  /** A prefix's adjacency carries over to any extension of it. */
  lemma AdjacentToAnyExtends(tiles: seq<Tile>, longer: seq<Tile>, c: Axial)
    requires tiles <= longer && AdjacentToAny(tiles, c)
    ensures AdjacentToAny(longer, c)
  {
    var i :| 0 <= i < |tiles| && c in Neighbors(tiles[i].Cell());
    assert longer[i] == tiles[i];
  }

  /** Appending tiles that each touch the old list keeps the connectivity invariant. */
  lemma GrownAppend(tiles: seq<Tile>, extra: seq<Tile>)
    requires Grown(tiles)
    requires |tiles| > 0 || |extra| <= 1
    requires forall k :: 0 <= k < |extra| && (|tiles| > 0 || k > 0) ==> AdjacentToAny(tiles, extra[k].Cell())
    ensures Grown(tiles + extra)
  {
    var all := tiles + extra;
    forall i | 0 < i < |all| ensures AdjacentToAny(all[..i], all[i].Cell()) {
      if i < |tiles| {
        assert all[..i] == tiles[..i];
        assert all[i] == tiles[i];
      } else {
        assert all[i] == extra[i - |tiles|];
        assert tiles <= all[..i];
        AdjacentToAnyExtends(tiles, all[..i], all[i].Cell());
      }
    }
  }

  /** `addTile` appends exactly one tile with content `{type: 'empty', data: null}`, keeps
      the old tiles as they were, puts the new one on a free cell next to the structure
      (anywhere on an empty board), and keeps the list well formed and connected. */
  lemma AddTileSpec(tiles: seq<Tile>, q: Option<int>, r: Option<int>, newId: TileId)
    ensures var res := AddedTiles(tiles, q, r, newId);
            && |res| == |tiles| + 1 && res[..|tiles|] == tiles
            && res[|tiles|].id == newId && res[|tiles|].content == EMPTY_CONTENT
            && res[|tiles|].Cell() !in Cells(tiles)
            && (|tiles| > 0 ==> AdjacentToAny(tiles, res[|tiles|].Cell()))
            && Cells(res) == Cells(tiles) + {res[|tiles|].Cell()}
    ensures WellFormed(tiles) && (forall i :: 0 <= i < |tiles| ==> tiles[i].id != newId) ==>
              WellFormed(AddedTiles(tiles, q, r, newId))
    ensures Grown(tiles) ==> Grown(AddedTiles(tiles, q, r, newId))
  {
    var res := AddedTiles(tiles, q, r, newId);
    PlacementTargetSpec(tiles, q, r);
    assert res[..|tiles|] == tiles;
    var n := |tiles|;
    forall c | c in Cells(res) ensures c in Cells(tiles) + {res[n].Cell()} {
      var k :| 0 <= k < |res| && res[k].Cell() == c;
      if k < n { assert tiles[k] == res[k]; }
    }
    forall c | c in Cells(tiles) ensures c in Cells(res) {
      var k :| 0 <= k < n && tiles[k].Cell() == c;
      assert res[k] == tiles[k];
    }
    assert res[n].Cell() in Cells(res) by {
      assert 0 <= n < |res|;
    }
    if WellFormed(tiles) && (forall i :: 0 <= i < |tiles| ==> tiles[i].id != newId) {
      forall i, j | 0 <= i < j < |res| ensures res[i].Cell() != res[j].Cell() && res[i].id != res[j].id {
        if j == n {
          assert res[i] == tiles[i];
          assert tiles[i].Cell() in Cells(tiles);
        }
      }
    }
    if Grown(tiles) {
      GrownAppend(tiles, [res[n]]);
      assert tiles + [res[n]] == res;
    }
  }

  /** The tiles `addRingAround` appends: one per frontier cell, in traversal order, with
      content `{type: 'empty'}` and the `k`-th fresh id. */
  function RingTiles(tiles: seq<Tile>, ids: nat -> TileId): seq<Tile> {
    var cs := Frontier(tiles);
    seq(|cs|, i requires 0 <= i < |cs| => Tile(ids(i), cs[i].q, cs[i].r, RING_CONTENT))
  }

  /** Ring tile `k` sits on frontier cell `k`. */
  lemma RingCells(tiles: seq<Tile>, ids: nat -> TileId)
    ensures var ring, cs := RingTiles(tiles, ids), Frontier(tiles);
            && |ring| == |cs|
            && (forall k :: 0 <= k < |ring| ==> ring[k].Cell() == cs[k])
            && (forall c :: c in Cells(ring) <==> c in cs)
  {
    var ring, cs := RingTiles(tiles, ids), Frontier(tiles);
    assert forall k :: 0 <= k < |ring| ==> ring[k].Cell() == cs[k];
    forall c | c in cs ensures c in Cells(ring) {
      var k :| 0 <= k < |cs| && cs[k] == c;
      assert ring[k].Cell() == c;
    }
  }

  /** The ring covers exactly the free cells next to the old tiles, once each, with content
      `{type: 'empty'}` and the fresh ids in order; afterwards every neighbour of an old tile
      is occupied. */
  lemma RingAroundSpec(tiles: seq<Tile>, ids: nat -> TileId)
    ensures var ring := RingTiles(tiles, ids);
            && |ring| == |Frontier(tiles)|
            && (forall c :: c in Cells(ring) <==> c !in Cells(tiles) && AdjacentToAny(tiles, c))
            && UniqueCells(ring)
            && (forall k :: 0 <= k < |ring| ==> ring[k].content == RING_CONTENT && ring[k].id == ids(k))
            && (forall i, n :: 0 <= i < |tiles| && n in Neighbors(tiles[i].Cell()) ==> n in Cells(tiles + ring))
  {
    var ring := RingTiles(tiles, ids);
    var cs := Frontier(tiles);
    FrontierSpec(tiles);
    RingCells(tiles, ids);
    var all := tiles + ring;
    forall i, n | 0 <= i < |tiles| && n in Neighbors(tiles[i].Cell()) ensures n in Cells(all) {
      if n in Cells(tiles) {
        var k :| 0 <= k < |tiles| && tiles[k].Cell() == n;
        assert all[k] == tiles[k];
      } else {
        var k :| 0 <= k < |cs| && cs[k] == n;
        assert all[|tiles| + k] == ring[k];
      }
    }
  }

  /** The ring keeps the connectivity invariant. */
  lemma RingAroundGrown(tiles: seq<Tile>, ids: nat -> TileId)
    requires Grown(tiles)
    ensures Grown(tiles + RingTiles(tiles, ids))
  {
    var ring := RingTiles(tiles, ids);
    FrontierSpec(tiles);
    RingCells(tiles, ids);
    if |tiles| == 0 {
      assert Frontier(tiles) == [];
    }
    forall k | 0 <= k < |ring| ensures AdjacentToAny(tiles, ring[k].Cell()) {
      assert ring[k].Cell() in Frontier(tiles);
    }
    GrownAppend(tiles, ring);
  }

  /** With distinct ids that no old tile carries, the ring keeps the list well formed. */
  lemma RingAroundWellFormed(tiles: seq<Tile>, ids: nat -> TileId)
    requires WellFormed(tiles)
    requires forall k, m :: 0 <= k < m < |Frontier(tiles)| ==> ids(k) != ids(m)
    requires forall k, i :: 0 <= k < |Frontier(tiles)| && 0 <= i < |tiles| ==> ids(k) != tiles[i].id
    ensures WellFormed(tiles + RingTiles(tiles, ids))
  {
    var ring := RingTiles(tiles, ids);
    var cs := Frontier(tiles);
    FrontierSpec(tiles);
    RingCells(tiles, ids);
    var all := tiles + ring;
    forall i, j | 0 <= i < j < |all| ensures all[i].Cell() != all[j].Cell() && all[i].id != all[j].id {
      if j >= |tiles| {
        assert all[j] == ring[j - |tiles|];
        if i < |tiles| {
          assert all[i] == tiles[i];
          assert tiles[i].Cell() in Cells(tiles);
          assert ring[j - |tiles|].Cell() in cs;
        } else {
          assert all[i] == ring[i - |tiles|];
        }
      } else {
        assert all[i] == tiles[i] && all[j] == tiles[j];
      }
    }
  }

  /** The store's mutable state. */
  class Store {
    var tiles: seq<Tile>
    var globalSettings: Settings
    var selectedTileId: Option<TileId>
    var viewMode: ViewMode
    var focusedTileId: Option<TileId>

    /** The initial store: no tiles, default settings, overview, nothing selected or focused. */
    constructor()
      ensures tiles == [] && globalSettings == DEFAULT_SETTINGS
      ensures selectedTileId == None && viewMode == Overview && focusedTileId == None
      ensures Valid()
    {
      tiles := [];
      globalSettings := DEFAULT_SETTINGS;
      selectedTileId := None;
      viewMode := Overview;
      focusedTileId := None;
    }

    /** The store's invariant: no id is duplicated and no cell holds two tiles. Every
        operation keeps it (`addTile` and `addRingAround` given fresh ids). */
    predicate Valid()
      reads this
    {
      WellFormed(tiles)
    }

    /** `generateOrderPayload` of the current state. */
    function OrderPayload(): (p: StoreTiles.OrderPayload)
      reads this
      ensures p.config == globalSettings && |p.tiles| == |tiles|
    {
      GenerateOrderPayload(globalSettings, tiles)
    }

    /** `addTile`: resolve the target cell, then append one empty tile there. */
    method AddTile(q: Option<int>, r: Option<int>, newId: TileId)
      modifies this
      ensures tiles == AddedTiles(old(tiles), q, r, newId)
      ensures globalSettings == old(globalSettings) && selectedTileId == old(selectedTileId)
      ensures viewMode == old(viewMode) && focusedTileId == old(focusedTileId)
      ensures old(Valid()) && (forall i :: 0 <= i < |old(tiles)| ==> old(tiles)[i].id != newId) ==> Valid()
      ensures old(Grown(tiles)) ==> Grown(tiles)
    {
      var target, attempts, placed := ResolvePlacement(tiles, q, r);
      AddTileSpec(tiles, q, r, newId);
      if placed {
        var newTile := Tile(newId, target.q, target.r, EMPTY_CONTENT);
        tiles := tiles + [newTile];
      }
    }

    /** `removeTile`: drop the tiles with that id and clear the selection. */
    method RemoveTile(id: TileId)
      modifies this
      ensures tiles == RemoveById(old(tiles), id) && selectedTileId == None
      ensures globalSettings == old(globalSettings)
      ensures viewMode == old(viewMode) && focusedTileId == old(focusedTileId)
      ensures old(Valid()) ==> Valid()
    {
      if WellFormed(tiles) {
        RemoveByIdWellFormed(tiles, id);
      }
      tiles := RemoveById(tiles, id);
      selectedTileId := None;
    }

    /** `updateTileContent`: set `{type, data}` on the tiles with that id. */
    method UpdateTileContent(id: TileId, kind: string, data: ContentData)
      modifies this
      ensures tiles == UpdateContent(old(tiles), id, kind, data)
      ensures globalSettings == old(globalSettings) && selectedTileId == old(selectedTileId)
      ensures viewMode == old(viewMode) && focusedTileId == old(focusedTileId)
      ensures old(Valid()) ==> Valid()
      ensures old(Grown(tiles)) ==> Grown(tiles)
    {
      UpdateContentKeepsLayout(tiles, id, kind, data);
      tiles := UpdateContent(tiles, id, kind, data);
    }

    /** `moveOrSwapTile`. */
    method MoveOrSwapTile(draggedId: TileId, targetQ: int, targetR: int)
      modifies this
      ensures tiles == MoveOrSwap(old(tiles), draggedId, targetQ, targetR)
      ensures globalSettings == old(globalSettings) && selectedTileId == old(selectedTileId)
      ensures viewMode == old(viewMode) && focusedTileId == old(focusedTileId)
      ensures old(Valid()) ==> Valid()
    {
      if WellFormed(tiles) {
        MoveOrSwapWellFormed(tiles, draggedId, targetQ, targetR);
      }
      tiles := MoveOrSwap(tiles, draggedId, targetQ, targetR);
    }

    /** `addRingAround`: collect the frontier, make one tile per cell, append them all. */
    method AddRingAround(ids: nat -> TileId)
      modifies this
      ensures tiles == old(tiles) + RingTiles(old(tiles), ids)
      ensures globalSettings == old(globalSettings) && selectedTileId == old(selectedTileId)
      ensures viewMode == old(viewMode) && focusedTileId == old(focusedTileId)
      ensures old(Grown(tiles)) ==> Grown(tiles)
      ensures old(Valid())
              && (forall k, m :: 0 <= k < m < |Frontier(old(tiles))| ==> ids(k) != ids(m))
              && (forall k, i :: 0 <= k < |Frontier(old(tiles))| && 0 <= i < |old(tiles)| ==> ids(k) != old(tiles)[i].id)
              ==> Valid()
    {
      var candidates := RingCandidates(tiles);
      var newTiles := seq(|candidates|, i requires 0 <= i < |candidates| =>
        Tile(ids(i), candidates[i].q, candidates[i].r, RING_CONTENT));
      RingCells(tiles, ids);
      if Grown(tiles) {
        RingAroundGrown(tiles, ids);
      }
      if WellFormed(tiles)
         && (forall k, m :: 0 <= k < m < |Frontier(tiles)| ==> ids(k) != ids(m))
         && (forall k, i :: 0 <= k < |Frontier(tiles)| && 0 <= i < |tiles| ==> ids(k) != tiles[i].id) {
        RingAroundWellFormed(tiles, ids);
      }
      tiles := tiles + newTiles;
    }

    /** `setFocus`: focus one tile. */
    method SetFocus(tileId: TileId)
      modifies this
      ensures viewMode == Focused && focusedTileId == Some(tileId)
      ensures tiles == old(tiles) && globalSettings == old(globalSettings)
      ensures selectedTileId == old(selectedTileId)
    {
      viewMode := Focused;
      focusedTileId := Some(tileId);
    }

    /** `setOverview`: back to the whole wall. */
    method SetOverview()
      modifies this
      ensures viewMode == Overview && focusedTileId == None
      ensures tiles == old(tiles) && globalSettings == old(globalSettings)
      ensures selectedTileId == old(selectedTileId)
    {
      viewMode := Overview;
      focusedTileId := None;
    }
  }

  /** Starting from an empty store, the first `addTile()` without coordinates puts its
      tile on the origin and the second next to it at `(1, 0)`. */
  lemma FirstTwoTiles(a: TileId, b: TileId)
    ensures var one := AddedTiles([], None, None, a);
            && one == [Tile(a, 0, 0, EMPTY_CONTENT)]
            && AddedTiles(one, None, None, b) == one + [Tile(b, 1, 0, EMPTY_CONTENT)]
  {
    var one := AddedTiles([], None, None, a);
    assert PlacementTarget([], None, None) == Axial(0, 0);
    ClosestFromOrigin(one[0]);
    assert [one[0]] == one;
    var t := PlacementTarget(one, None, None);
    assert Requested(one, None, None) == Axial(1, 0);
    assert Axial(1, 0) !in Cells(one);
    assert one[0].Cell() == Axial(0, 0);
    assert Neighbors(Axial(0, 0))[0] == Axial(1, 0);
    assert AdjacentToAny(one, Axial(1, 0));
  }

  /** A straight row of three tiles running east from `(q, r)`. */
  function Row(a: TileId, b: TileId, c: TileId, q: int, r: int): seq<Tile> {
    [Tile(a, q, r, EMPTY_CONTENT), Tile(b, q + 1, r, EMPTY_CONTENT), Tile(c, q + 2, r, EMPTY_CONTENT)]
  }

  /** The row is a valid, connected wall. */
  lemma RowIsWall(a: TileId, b: TileId, c: TileId, q: int, r: int)
    requires a != b && b != c && a != c
    ensures WellFormed(Row(a, b, c, q, r)) && Grown(Row(a, b, c, q, r))
  {
    var row := Row(a, b, c, q, r);
    var c0, c1, c2 := row[0].Cell(), row[1].Cell(), row[2].Cell();
    assert c1 == Neighbors(c0)[0] && c2 == Neighbors(c1)[0];
    var p1, p2 := row[..1], row[..2];
    assert p1[0].Cell() == c0 && p2[1].Cell() == c1;
    assert AdjacentToAny(p1, c1);
    assert AdjacentToAny(p2, c2);
  }

  /** Moving a tile can disconnect the wall: in a row of three, moving the first tile past
      the far end leaves the middle tile touching no tile before it. Uniqueness survives. */
  lemma MoveCanDisconnect(a: TileId, b: TileId, c: TileId, q: int, r: int)
    requires a != b && b != c && a != c
    ensures var res := MoveOrSwap(Row(a, b, c, q, r), a, q + 3, r);
            res == [Tile(a, q + 3, r, EMPTY_CONTENT), Tile(b, q + 1, r, EMPTY_CONTENT), Tile(c, q + 2, r, EMPTY_CONTENT)]
            && WellFormed(res) && !Grown(res)
  {
    var row := Row(a, b, c, q, r);
    RowIsWall(a, b, c, q, r);
    var target := Axial(q + 3, r);
    assert target !in Cells(row) by {
      forall i | 0 <= i < 3 ensures row[i].Cell() != target { }
    }
    MoveChangesOnlyDragged(row, 0, target);
    var res := MoveOrSwap(row, a, q + 3, r);
    assert res[..1] == [res[0]];
    NeighborsAtDistanceOne(target, res[1].Cell());
    assert !AdjacentToAny(res[..1], res[1].Cell());
  }

  /** Removing a tile can disconnect the wall: taking the middle tile out of a row of
      three leaves the two ends apart. */
  lemma RemoveCanDisconnect(a: TileId, b: TileId, c: TileId, q: int, r: int)
    requires a != b && b != c && a != c
    ensures var res := RemoveById(Row(a, b, c, q, r), b);
            res == [Tile(a, q, r, EMPTY_CONTENT), Tile(c, q + 2, r, EMPTY_CONTENT)] && !Grown(res)
  {
    var row := Row(a, b, c, q, r);
    assert row[1..][1..] == [row[2]] && [row[2]][1..] == [];
    assert RemoveById(row[1..], b) == [row[2]];
    var res := RemoveById(row, b);
    assert res[..1] == [res[0]];
    NeighborsAtDistanceOne(res[0].Cell(), res[1].Cell());
    assert !AdjacentToAny(res[..1], res[1].Cell());
  }
}
