/** The store's tile records and the updates that rebuild the tile list with
    `map`/`filter`: move-or-swap, removal, content edits and the order payload. */
module StoreTiles {
  import opened Common
  import opened HexMath

  /** A JavaScript object distinguishes a missing `data` key from `data: null`. */
  datatype ContentData = Undefined | Null | Payload(value: string)

  /** Decoration payload: its `type` tag and its opaque data. */
  datatype Content = Content(kind: string, data: ContentData)

  /** Content of a tile made by `addTile`: `{type: 'empty', data: null}`. */
  const EMPTY_CONTENT: Content := Content("empty", Null)

  /** Content of a tile made by `addRingAround`: `{type: 'empty'}`, no `data` key. */
  const RING_CONTENT: Content := Content("empty", Undefined)

  /** A store tile: id, axial cell and content (store tiles carry no shape). */
  datatype Tile = Tile(id: TileId, q: int, r: int, content: Content) {
    function Cell(): Axial {
      Axial(q, r)
    }
  }

  /** The occupied cells: the program's `Set` of `"q,r"` keys. */
  function Cells(tiles: seq<Tile>): set<Axial> {
    set i | 0 <= i < |tiles| :: tiles[i].Cell()
  }

  predicate UniqueIds(tiles: seq<Tile>) {
    forall i, j :: 0 <= i < j < |tiles| ==> tiles[i].id != tiles[j].id
  }

  predicate UniqueCells(tiles: seq<Tile>) {
    forall i, j :: 0 <= i < j < |tiles| ==> tiles[i].Cell() != tiles[j].Cell()
  }

  /** No id is duplicated and no cell holds two tiles. */
  predicate WellFormed(tiles: seq<Tile>) {
    UniqueIds(tiles) && UniqueCells(tiles)
  }

  /** Some tile of `tiles` lists `c` among its neighbours. */
  predicate AdjacentToAny(tiles: seq<Tile>, c: Axial) {
    exists i :: 0 <= i < |tiles| && c in Neighbors(tiles[i].Cell())
  }

  /** The connectivity invariant: every tile but the first touches an earlier one. */
  predicate Grown(tiles: seq<Tile>) {
    forall i :: 0 < i < |tiles| ==> AdjacentToAny(tiles[..i], tiles[i].Cell())
  }

  function WithCell(t: Tile, q: int, r: int): Tile {
    t.(q := q, r := r)
  }

  /** `moveOrSwapTile`: an unknown id changes nothing; if some tile already sits on the
      target cell the two tiles exchange cells, otherwise the dragged tile moves. */
  function MoveOrSwap(tiles: seq<Tile>, draggedId: TileId, targetQ: int, targetR: int): (res: seq<Tile>)
    ensures |res| == |tiles|
    ensures (forall i :: 0 <= i < |tiles| ==> tiles[i].id != draggedId) ==> res == tiles
    ensures forall i :: 0 <= i < |tiles| ==> res[i].id == tiles[i].id && res[i].content == tiles[i].content
    ensures forall i :: 0 <= i < |tiles| && tiles[i].id == draggedId ==> res[i].Cell() == Axial(targetQ, targetR)
  {
    match Find(tiles, (t: Tile) => t.id == draggedId)
    case None => tiles
    case Some(dragged) =>
      match Find(tiles, (t: Tile) => t.q == targetQ && t.r == targetR)
      case Some(target) =>
        seq(|tiles|, i requires 0 <= i < |tiles| =>
          if tiles[i].id == draggedId then WithCell(tiles[i], targetQ, targetR)
          else if tiles[i].id == target.id then WithCell(tiles[i], dragged.q, dragged.r)
          else tiles[i])
      case None =>
        seq(|tiles|, i requires 0 <= i < |tiles| =>
          if tiles[i].id == draggedId then WithCell(tiles[i], targetQ, targetR) else tiles[i])
  }

  /** Swap: on a well-formed list, dropping tile `i` on the cell of tile `j` gives `i`
      the target cell and `j` the old cell of `i`, leaves every other tile alone, keeps
      the set of occupied cells and keeps the list well formed. */
  lemma SwapExchangesCells(tiles: seq<Tile>, i: nat, j: nat)
    requires WellFormed(tiles) && i < |tiles| && j < |tiles|
    ensures var res := MoveOrSwap(tiles, tiles[i].id, tiles[j].q, tiles[j].r);
            && res[i].Cell() == tiles[j].Cell()
            && res[j].Cell() == tiles[i].Cell()
            && (forall k :: 0 <= k < |tiles| && k != i && k != j ==> res[k] == tiles[k])
            && Cells(res) == Cells(tiles)
            && WellFormed(res)
  {
    var res := MoveOrSwap(tiles, tiles[i].id, tiles[j].q, tiles[j].r);
    SwapPointwise(tiles, i, j);
    ExchangeKeepsCells(tiles, res, i, j);
  }

  /** What the swap branch of `MoveOrSwap` does to each position of a well-formed list. */
  lemma SwapPointwise(tiles: seq<Tile>, i: nat, j: nat)
    requires WellFormed(tiles) && i < |tiles| && j < |tiles|
    ensures var res := MoveOrSwap(tiles, tiles[i].id, tiles[j].q, tiles[j].r);
            forall k :: 0 <= k < |tiles| ==>
              res[k] == (if k == i then WithCell(tiles[k], tiles[j].q, tiles[j].r)
                         else if k == j then WithCell(tiles[k], tiles[i].q, tiles[i].r)
                         else tiles[k])
  {
    var id, tq, tr := tiles[i].id, tiles[j].q, tiles[j].r;
    var pd := (t: Tile) => t.id == id;
    var pc := (t: Tile) => t.q == tq && t.r == tr;
    assert pd(tiles[i]) && pc(tiles[j]);
    var fd, fc := Find(tiles, pd), Find(tiles, pc);
    var kd :| 0 <= kd < |tiles| && tiles[kd] == fd.value;
    var kc :| 0 <= kc < |tiles| && tiles[kc] == fc.value;
    assert kd == i && kc == j;
  }

  /** Exchanging the cells of tiles `i` and `j` of a well-formed list, ids kept, keeps
      the set of occupied cells and keeps the list well formed. */
  lemma ExchangeKeepsCells(tiles: seq<Tile>, res: seq<Tile>, i: nat, j: nat)
    requires WellFormed(tiles) && i < |tiles| && j < |tiles| && |res| == |tiles|
    requires forall k :: 0 <= k < |tiles| ==> res[k].id == tiles[k].id
    requires res[i].Cell() == tiles[j].Cell() && res[j].Cell() == tiles[i].Cell()
    requires forall k :: 0 <= k < |tiles| && k != i && k != j ==> res[k] == tiles[k]
    ensures Cells(res) == Cells(tiles) && WellFormed(res)
  {
    forall c | c in Cells(tiles) ensures c in Cells(res) {
      var k :| 0 <= k < |tiles| && tiles[k].Cell() == c;
      if k == i { assert res[j].Cell() == c; } else if k == j { assert res[i].Cell() == c; }
      else { assert res[k].Cell() == c; }
    }
    forall c | c in Cells(res) ensures c in Cells(tiles) {
      var k :| 0 <= k < |res| && res[k].Cell() == c;
      if k == i { assert tiles[j].Cell() == c; } else if k == j { assert tiles[i].Cell() == c; }
      else { assert tiles[k].Cell() == c; }
    }
  }

  /** Move: on a well-formed list, moving tile `i` to a free cell changes only that
      tile's cell, and the list stays well formed. */
  lemma MoveChangesOnlyDragged(tiles: seq<Tile>, i: nat, target: Axial)
    requires WellFormed(tiles) && i < |tiles| && target !in Cells(tiles)
    ensures var res := MoveOrSwap(tiles, tiles[i].id, target.q, target.r);
            && res[i] == WithCell(tiles[i], target.q, target.r)
            && (forall k :: 0 <= k < |tiles| && k != i ==> res[k] == tiles[k])
            && Cells(res) == Cells(tiles) - {tiles[i].Cell()} + {target}
            && WellFormed(res)
  {
    var res := MoveOrSwap(tiles, tiles[i].id, target.q, target.r);
    MovePointwise(tiles, i, target);
    RelocateKeepsOthers(tiles, res, i, target);
  }

  /** What the move branch of `MoveOrSwap` does to each position of a well-formed list. */
  lemma MovePointwise(tiles: seq<Tile>, i: nat, target: Axial)
    requires WellFormed(tiles) && i < |tiles| && target !in Cells(tiles)
    ensures var res := MoveOrSwap(tiles, tiles[i].id, target.q, target.r);
            forall k :: 0 <= k < |tiles| ==> res[k] == (if k == i then WithCell(tiles[k], target.q, target.r) else tiles[k])
  {
    var id := tiles[i].id;
    var pd := (t: Tile) => t.id == id;
    var pc := (t: Tile) => t.q == target.q && t.r == target.r;
    assert pd(tiles[i]);
    var fd := Find(tiles, pd);
    var kd :| 0 <= kd < |tiles| && tiles[kd] == fd.value;
    assert kd == i;
    assert forall k :: 0 <= k < |tiles| ==> !pc(tiles[k]);
    assert Find(tiles, pc) == None;
  }

  /** Moving tile `i` of a well-formed list to a free cell, ids kept, replaces its cell by
      the target in the set of occupied cells and keeps the list well formed. */
  lemma RelocateKeepsOthers(tiles: seq<Tile>, res: seq<Tile>, i: nat, target: Axial)
    requires WellFormed(tiles) && i < |tiles| && target !in Cells(tiles) && |res| == |tiles|
    requires forall k :: 0 <= k < |tiles| ==> res[k].id == tiles[k].id
    requires res[i].Cell() == target
    requires forall k :: 0 <= k < |tiles| && k != i ==> res[k] == tiles[k]
    ensures Cells(res) == Cells(tiles) - {tiles[i].Cell()} + {target} && WellFormed(res)
  {
    forall c | c in Cells(tiles) - {tiles[i].Cell()} + {target} ensures c in Cells(res) {
      if c != target {
        var k :| 0 <= k < |tiles| && tiles[k].Cell() == c;
        assert res[k].Cell() == c;
      }
    }
    forall k | 0 <= k < |tiles| && k != i ensures tiles[k].Cell() != target {
      assert tiles[k].Cell() in Cells(tiles);
    }
  }

  /** Every `moveOrSwapTile` call keeps ids and cells unique: an unknown id changes
      nothing, an occupied target is a swap and a free target a move. */
  lemma MoveOrSwapWellFormed(tiles: seq<Tile>, draggedId: TileId, targetQ: int, targetR: int)
    requires WellFormed(tiles)
    ensures WellFormed(MoveOrSwap(tiles, draggedId, targetQ, targetR))
  {
    if exists i :: 0 <= i < |tiles| && tiles[i].id == draggedId {
      var i :| 0 <= i < |tiles| && tiles[i].id == draggedId;
      var target := Axial(targetQ, targetR);
      if target in Cells(tiles) {
        var j :| 0 <= j < |tiles| && tiles[j].Cell() == target;
        SwapExchangesCells(tiles, i, j);
      } else {
        MoveChangesOnlyDragged(tiles, i, target);
      }
    }
  }

  /** `removeTile`'s `filter`: keep, in order, the tiles whose id differs. */
  function RemoveById(tiles: seq<Tile>, id: TileId): (res: seq<Tile>)
    ensures |res| <= |tiles|
  {
    if tiles == [] then []
    else (if tiles[0].id == id then [] else [tiles[0]]) + RemoveById(tiles[1..], id)
  }

  /** Exactly the tiles with another id survive. */
  lemma {:induction false} RemoveByIdMembers(tiles: seq<Tile>, id: TileId)
    ensures forall t :: t in RemoveById(tiles, id) <==> t in tiles && t.id != id
  {
    if tiles != [] {
      RemoveByIdMembers(tiles[1..], id);
      assert forall t :: t in tiles <==> t == tiles[0] || t in tiles[1..];
    }
  }

  /** The filter distributes over concatenation, so relative order is kept. */
  lemma {:induction false} RemoveByIdAppend(a: seq<Tile>, b: seq<Tile>, id: TileId)
    ensures RemoveById(a + b, id) == RemoveById(a, id) + RemoveById(b, id)
  {
    if a == [] {
      assert a + b == b;
    } else {
      var ab := a + b;
      assert ab[0] == a[0];
      assert ab[1..] == a[1..] + b;
      RemoveByIdAppend(a[1..], b, id);
      var head := if a[0].id == id then [] else [a[0]];
      assert RemoveById(ab, id) == head + RemoveById(ab[1..], id);
      assert RemoveById(a, id) == head + RemoveById(a[1..], id);
      assert head + (RemoveById(a[1..], id) + RemoveById(b, id))
          == (head + RemoveById(a[1..], id)) + RemoveById(b, id);
    }
  }

  /** Removal keeps a list well formed. */
  lemma {:induction false} RemoveByIdWellFormed(tiles: seq<Tile>, id: TileId)
    requires WellFormed(tiles)
    ensures WellFormed(RemoveById(tiles, id))
  {
    if tiles != [] {
      var rest := RemoveById(tiles[1..], id);
      RemoveByIdWellFormed(tiles[1..], id);
      RemoveByIdMembers(tiles[1..], id);
      forall t | t in rest ensures t.id != tiles[0].id && t.Cell() != tiles[0].Cell() {
        var k :| 0 <= k < |tiles[1..]| && tiles[1..][k] == t;
        assert tiles[k + 1] == t;
      }
    }
  }

  /** `updateTileContent`: the tiles with that id get `{type, data}`; nothing else changes. */
  function UpdateContent(tiles: seq<Tile>, id: TileId, kind: string, data: ContentData): (res: seq<Tile>)
    ensures |res| == |tiles|
    ensures forall i :: 0 <= i < |tiles| ==>
              res[i].id == tiles[i].id && res[i].Cell() == tiles[i].Cell()
              && res[i].content == (if tiles[i].id == id then Content(kind, data) else tiles[i].content)
  {
    seq(|tiles|, i requires 0 <= i < |tiles| =>
      if tiles[i].id == id then tiles[i].(content := Content(kind, data)) else tiles[i])
  }

  /** Content edits leave the occupied cells, well-formedness and connectivity alone. */
  lemma UpdateContentKeepsLayout(tiles: seq<Tile>, id: TileId, kind: string, data: ContentData)
    ensures Cells(UpdateContent(tiles, id, kind, data)) == Cells(tiles)
    ensures WellFormed(tiles) ==> WellFormed(UpdateContent(tiles, id, kind, data))
    ensures Grown(tiles) ==> Grown(UpdateContent(tiles, id, kind, data))
  {
    var res := UpdateContent(tiles, id, kind, data);
    assert Cells(res) == Cells(tiles) by {
      forall c | c in Cells(tiles) ensures c in Cells(res) {
        var k :| 0 <= k < |tiles| && tiles[k].Cell() == c;
        assert res[k].Cell() == c;
      }
    }
    if Grown(tiles) {
      forall i | 0 < i < |res| ensures AdjacentToAny(res[..i], res[i].Cell()) {
        var k :| 0 <= k < i && res[i].Cell() in Neighbors(tiles[..i][k].Cell());
        assert res[..i][k].Cell() == tiles[..i][k].Cell();
      }
    }
  }

  /** `globalSettings`, sent unchanged with the order. */
  datatype Settings = Settings(shape: string, size: string, material: string, corner: string)

  datatype PayloadTile = PayloadTile(q: int, r: int, kind: string, content: ContentData)
  datatype OrderPayload = OrderPayload(config: Settings, tiles: seq<PayloadTile>)

  /** `generateOrderPayload`: the settings and, per tile in order, its cell and content. */
  function GenerateOrderPayload(settings: Settings, tiles: seq<Tile>): (p: OrderPayload)
    ensures p.config == settings && |p.tiles| == |tiles|
    ensures forall i :: 0 <= i < |tiles| ==>
              p.tiles[i] == PayloadTile(tiles[i].q, tiles[i].r, tiles[i].content.kind, tiles[i].content.data)
  {
    OrderPayload(settings, seq(|tiles|, i requires 0 <= i < |tiles| =>
      PayloadTile(tiles[i].q, tiles[i].r, tiles[i].content.kind, tiles[i].content.data)))
  }

  /** The payload lists exactly the occupied cells, and ids play no part in it. */
  lemma PayloadCoversCells(settings: Settings, tiles: seq<Tile>, other: seq<Tile>)
    requires |other| == |tiles|
    requires forall i :: 0 <= i < |tiles| ==> other[i].Cell() == tiles[i].Cell() && other[i].content == tiles[i].content
    ensures (set p | p in GenerateOrderPayload(settings, tiles).tiles :: Axial(p.q, p.r)) == Cells(tiles)
    ensures GenerateOrderPayload(settings, other) == GenerateOrderPayload(settings, tiles)
  {
    var ps := GenerateOrderPayload(settings, tiles).tiles;
    forall c | c in Cells(tiles) ensures c in (set p | p in ps :: Axial(p.q, p.r)) {
      var k :| 0 <= k < |tiles| && tiles[k].Cell() == c;
      assert ps[k] in ps;
    }
    forall c | c in (set p | p in ps :: Axial(p.q, p.r)) ensures c in Cells(tiles) {
      var p :| p in ps && Axial(p.q, p.r) == c;
      var k :| 0 <= k < |ps| && ps[k] == p;
      assert tiles[k].Cell() == c;
    }
  }
}
