/** Ghost slots: the empty cells a dragged tile could be dropped on, shown while it
    moves. Both ghost managers compute the same candidate cells and the same highlight
    rule; this module defines them once, with the collection loop both managers run. */
module GhostSlots {
  import opened Common
  import opened HexMath
  import opened SquareMath
  import opened Shapes
  import opened DropLogic

  /** Every cell of the family occupied by some tile, the dragged tile included. */
  function FamilyCells(allTiles: seq<ShapedTile>, hex: bool): set<GridCoord> {
    set i | 0 <= i < |allTiles| && SameFamily(allTiles[i], hex) :: CoordOf(allTiles[i], hex)
  }

  /** A tile whose neighbours are offered: of the family, and not the dragged tile. */
  predicate Spawns(t: ShapedTile, draggedId: TileId, hex: bool) {
    SameFamily(t, hex) && t.id != draggedId
  }

  /** The candidate set after the first `k` tiles, in insertion order. */
  function GhostCellsUpTo(allTiles: seq<ShapedTile>, draggedId: TileId, hex: bool, occ: set<GridCoord>, k: nat): seq<GridCoord>
    requires k <= |allTiles|
  {
    if k == 0 then []
    else
      var prev := GhostCellsUpTo(allTiles, draggedId, hex, occ, k - 1);
      var t := allTiles[k - 1];
      if Spawns(t, draggedId, hex) then InsertAll(prev, NeighborCoords(CoordOf(t, hex)), occ) else prev
  }

  /** `validGhostCoords`: the unoccupied neighbours of the other tiles of the dragged tile's family. */
  function GhostCells(allTiles: seq<ShapedTile>, dragged: ShapedTile): seq<GridCoord> {
    var hex := IsHexShape(dragged.shape);
    GhostCellsUpTo(allTiles, dragged.id, hex, FamilyCells(allTiles, hex), |allTiles|)
  }

  /** `c` borders one of the first `k` tiles, when that tile belongs to the family and is
      not the dragged one. */
  predicate NextToOtherUpTo(allTiles: seq<ShapedTile>, draggedId: TileId, hex: bool, c: GridCoord, k: nat)
    requires k <= |allTiles|
  {
    exists i :: 0 <= i < k && Spawns(allTiles[i], draggedId, hex) && c in NeighborCoords(CoordOf(allTiles[i], hex))
  }

  /** `c` borders some tile of the family other than the dragged one. */
  predicate NextToOther(allTiles: seq<ShapedTile>, draggedId: TileId, hex: bool, c: GridCoord) {
    NextToOtherUpTo(allTiles, draggedId, hex, c, |allTiles|)
  }

  lemma {:induction false} GhostCellsUpToSpec(allTiles: seq<ShapedTile>, draggedId: TileId, hex: bool, occ: set<GridCoord>, k: nat)
    requires k <= |allTiles|
    ensures NoDup(GhostCellsUpTo(allTiles, draggedId, hex, occ, k))
    ensures forall c :: c in GhostCellsUpTo(allTiles, draggedId, hex, occ, k) <==>
              c !in occ && NextToOtherUpTo(allTiles, draggedId, hex, c, k)
  {
    if k > 0 {
      var prev := GhostCellsUpTo(allTiles, draggedId, hex, occ, k - 1);
      GhostCellsUpToSpec(allTiles, draggedId, hex, occ, k - 1);
      var t := allTiles[k - 1];
      var added := Spawns(t, draggedId, hex);
      if added {
        InsertAllSpec(prev, NeighborCoords(CoordOf(t, hex)), occ);
      }
      forall c
        ensures NextToOtherUpTo(allTiles, draggedId, hex, c, k) <==>
                  NextToOtherUpTo(allTiles, draggedId, hex, c, k - 1) || (added && c in NeighborCoords(CoordOf(t, hex)))
      {
        if NextToOtherUpTo(allTiles, draggedId, hex, c, k) {
          var i :| 0 <= i < k && Spawns(allTiles[i], draggedId, hex) && c in NeighborCoords(CoordOf(allTiles[i], hex));
          if i < k - 1 {
            assert NextToOtherUpTo(allTiles, draggedId, hex, c, k - 1);
          }
        }
      }
    }
  }

  /** The candidates are duplicate-free, of the dragged tile's family, and exactly the
      cells that no tile of the family occupies and that border a tile other than the
      dragged one. In particular the dragged tile's own cell is never a candidate. */
  lemma GhostCellsSpec(allTiles: seq<ShapedTile>, dragged: ShapedTile)
    ensures NoDup(GhostCells(allTiles, dragged))
    ensures var hex := IsHexShape(dragged.shape);
            forall c :: c in GhostCells(allTiles, dragged) <==>
              c !in FamilyCells(allTiles, hex) && NextToOther(allTiles, dragged.id, hex, c)
    ensures var hex := IsHexShape(dragged.shape);
            forall c :: c in GhostCells(allTiles, dragged) ==> c.HexCoord? == hex
    ensures var hex := IsHexShape(dragged.shape);
            forall i :: 0 <= i < |allTiles| && SameFamily(allTiles[i], hex) ==>
              CoordOf(allTiles[i], hex) !in GhostCells(allTiles, dragged)
  {
    var hex := IsHexShape(dragged.shape);
    GhostCellsUpToSpec(allTiles, dragged.id, hex, FamilyCells(allTiles, hex), |allTiles|);
    forall i | 0 <= i < |allTiles| && SameFamily(allTiles[i], hex)
      ensures CoordOf(allTiles[i], hex) in FamilyCells(allTiles, hex)
    {
    }
  }

  /** A ghost marks exactly the empty cells where a drop moves the tile: every ghost cell
      is a move target of the drop decision, and every move target that no tile of the
      family occupies is a ghost cell. */
  lemma GhostsAreFreeMoveTargets(allTiles: seq<ShapedTile>, obj: DraggedObject, c: GridCoord, home: Point)
    ensures var hex := IsHexShape(obj.data.shape);
            c in GhostCells(allTiles, obj.data) <==>
              Decide(obj, allTiles, c, home).Move? && c !in FamilyCells(allTiles, hex)
  {
    var hex := IsHexShape(obj.data.shape);
    GhostCellsSpec(allTiles, obj.data);
    var o := Decide(obj, allTiles, c, home);
    if c in GhostCells(allTiles, obj.data) {
      forall i | 0 <= i < |allTiles| ensures !Occupies(allTiles[i], obj, c) {
        if SameFamily(allTiles[i], hex) {
          assert CoordOf(allTiles[i], hex) in FamilyCells(allTiles, hex);
        }
      }
      var i :| 0 <= i < |allTiles| && Spawns(allTiles[i], obj.data.id, hex) && c in NeighborCoords(CoordOf(allTiles[i], hex));
      assert Borders(allTiles[i], obj, c);
    }
    if o.Move? && c !in FamilyCells(allTiles, hex) {
      var i :| 0 <= i < |allTiles| && Borders(allTiles[i], obj, c);
      assert Spawns(allTiles[i], obj.data.id, hex);
    }
  }

  /** Tiles without the `'hex'` tag give a hex drag no ghost at all. This is the case of
      the store's own tiles, which carry no shape. */
  lemma ShapelessTilesNoHexGhosts(allTiles: seq<ShapedTile>, dragged: ShapedTile)
    requires IsHexShape(dragged.shape)
    requires forall i :: 0 <= i < |allTiles| ==> !IsHexShape(allTiles[i].shape)
    ensures GhostCells(allTiles, dragged) == []
  {
    forall i | 0 <= i < |allTiles| ensures !Spawns(allTiles[i], dragged.id, true) { }
    NoSpawnsNoGhosts(allTiles, dragged.id, true, FamilyCells(allTiles, true), |allTiles|);
  }

  /** Without a tile that offers its neighbours the candidate set stays empty. */
  lemma {:induction false} NoSpawnsNoGhosts(allTiles: seq<ShapedTile>, draggedId: TileId, hex: bool, occ: set<GridCoord>, k: nat)
    requires k <= |allTiles|
    requires forall i :: 0 <= i < |allTiles| ==> !Spawns(allTiles[i], draggedId, hex)
    ensures GhostCellsUpTo(allTiles, draggedId, hex, occ, k) == []
  {
    if k > 0 {
      NoSpawnsNoGhosts(allTiles, draggedId, hex, occ, k - 1);
    }
  }

  /** Collects the candidate cells the way both managers do: tile by tile, skipping the
      dragged tile and the other family, adding each neighbour not yet present and not occupied. */
  method CollectGhostCells(allTiles: seq<ShapedTile>, dragged: ShapedTile) returns (cells: seq<GridCoord>)
    ensures cells == GhostCells(allTiles, dragged)
  {
    var hex := IsHexShape(dragged.shape);
    var existingCoords := FamilyCells(allTiles, hex);
    cells := [];
    var i := 0;
    while i < |allTiles|
      invariant 0 <= i <= |allTiles|
      invariant cells == GhostCellsUpTo(allTiles, dragged.id, hex, existingCoords, i)
    {
      var tile := allTiles[i];
      if Spawns(tile, dragged.id, hex) {
        var neighbors := NeighborCoords(CoordOf(tile, hex));
        var j := 0;
        while j < |neighbors|
          invariant 0 <= j <= |neighbors|
          invariant cells == InsertAll(GhostCellsUpTo(allTiles, dragged.id, hex, existingCoords, i), neighbors[..j], existingCoords)
        {
          assert neighbors[..j + 1][..j] == neighbors[..j];
          var n := neighbors[j];
          if n !in existingCoords && n !in cells {
            cells := cells + [n];
          }
          j := j + 1;
        }
        assert neighbors[..|neighbors|] == neighbors;
      }
      i := i + 1;
    }
  }

  /** A ghost object: its cell, the centre it is drawn at, its shape and whether it is
      drawn highlighted. */
  datatype Ghost = Ghost(coord: GridCoord, pos: Point, shape: string, highlighted: bool)

  /** The highlight distance: 0.8 of the hex radius for hex ghosts, 0.8 of the square
      size for every other shape. */
  function TriggerDistance(shape: string): (d: real)
    ensures d == if IsHexShape(shape) then 60.0 else 96.0
  {
    if IsHexShape(shape) then RADIUS as real * 0.8 else SIZE as real * 0.8
  }

  /** Squared distance between two points. */
  function Dist2(a: Point, b: Point): (d: real)
    ensures d >= 0.0
  {
    (a.x - b.x) * (a.x - b.x) + (a.y - b.y) * (a.y - b.y)
  }

  /** `Math.hypot(p - q) < d`, compared on squares. */
  predicate Closer(p: Point, q: Point, d: real) {
    Dist2(p, q) < d * d
  }

  /** For a positive bound, comparing a distance is the same as comparing its square. */
  lemma HypotComparison(dist: real, dx: real, dy: real, bound: real)
    requires dist >= 0.0 && dist * dist == dx * dx + dy * dy && bound > 0.0
    ensures dist < bound <==> dx * dx + dy * dy < bound * bound
  {
    var sq := dx * dx + dy * dy;
    if dist < bound {
      calc {
        sq;
      == dist * dist;
      <= { MulLeft(dist, dist, bound); } dist * bound;
      < { MulRight(dist, bound, bound); } bound * bound;
      }
    } else {
      calc {
        sq;
      == dist * dist;
      >= { MulLeft(dist, bound, dist); } dist * bound;
      >= { MulRight(bound, dist, bound); } bound * bound;
      }
    }
  }

  lemma MulLeft(k: real, a: real, b: real)
    requires k >= 0.0 && a <= b
    ensures k * a <= k * b
  {
  }

  lemma MulRight(a: real, b: real, k: real)
    requires k > 0.0 && a <= b
    ensures a * k <= b * k && (a < b ==> a * k < b * k)
  {
  }

  /** The ghost drawn for cell `c` while `obj` is at its current position. */
  function GhostFor(c: GridCoord, obj: DraggedObject, s: real): (g: Ghost)
    requires IsSqrt3(s)
    ensures g.coord == c && g.pos == CoordToPixel(c, s) && g.shape == obj.data.shape
    ensures g.highlighted <==> Closer(Point(obj.left, obj.top), g.pos, TriggerDistance(obj.data.shape))
  {
    var pos := CoordToPixel(c, s);
    Ghost(c, pos, obj.data.shape, Closer(Point(obj.left, obj.top), pos, TriggerDistance(obj.data.shape)))
  }

  /** The ghosts `showGhostSlots` draws, one per candidate cell, in candidate order. */
  function Ghosts(allTiles: seq<ShapedTile>, obj: DraggedObject, s: real): seq<Ghost>
    requires IsSqrt3(s)
  {
    GhostsOf(GhostCells(allTiles, obj.data), obj, s)
  }

  /** One ghost per cell, in order. */
  function GhostsOf(cells: seq<GridCoord>, obj: DraggedObject, s: real): (gs: seq<Ghost>)
    requires IsSqrt3(s)
    ensures |gs| == |cells| && forall i :: 0 <= i < |gs| ==> gs[i] == GhostFor(cells[i], obj, s)
  {
    seq(|cells|, i requires 0 <= i < |cells| => GhostFor(cells[i], obj, s))
  }

  /** Squared distance between the centres of two hex cells. */
  lemma HexCentreSpacing(a: Axial, b: Axial, s: real)
    requires IsSqrt3(s)
    ensures var pa := HexToPixel(a.q, a.r, 0.0, 0.0, s);
            var pb := HexToPixel(b.q, b.r, 0.0, 0.0, s);
            var dq := (a.q - b.q) as real;
            var dr := (a.r - b.r) as real;
            (pa.x - pb.x) * (pa.x - pb.x) + (pa.y - pb.y) * (pa.y - pb.y)
              == 3.0 * 76.5 * 76.5 * (dq * dq + dq * dr + dr * dr)
  {
    var pa := HexToPixel(a.q, a.r, 0.0, 0.0, s);
    var pb := HexToPixel(b.q, b.r, 0.0, 0.0, s);
    var dq := (a.q - b.q) as real;
    var dr := (a.r - b.r) as real;
    var u := dq + dr / 2.0;
    assert pa.x - pb.x == 76.5 * s * u;
    assert pa.y - pb.y == 76.5 * 1.5 * dr;
    assert (76.5 * s * u) * (76.5 * s * u) == 76.5 * 76.5 * (s * s) * (u * u);
    assert u * u == dq * dq + dq * dr + dr * dr / 4.0;
  }

  /** Distinct hex cells differ by a positive norm. */
  lemma HexNormPositive(dq: int, dr: int)
    requires dq != 0 || dr != 0
    ensures dq * dq + dq * dr + dr * dr >= 1
  {
    assert 4 * (dq * dq + dq * dr + dr * dr) == (2 * dq + dr) * (2 * dq + dr) + 3 * dr * dr;
    if dr == 0 {
      assert dq * dq >= 1;
    } else {
      assert dr * dr >= 1;
    }
  }

  lemma SquareOfDifference(u: real, v: real)
    ensures (u - v) * (u - v) <= 2.0 * (u * u) + 2.0 * (v * v)
  {
    var w := u + v;
    assert 2.0 * (u * u) + 2.0 * (v * v) - (u - v) * (u - v) == w * w;
    if w < 0.0 {
      assert w * w == (-w) * (-w);
    }
  }

  /** The squared distance between two points is at most twice the sum of their squared
      distances to a third. */
  lemma TriangleSquared(p: Point, a: Point, b: Point)
    ensures Dist2(a, b) <= 2.0 * Dist2(p, a) + 2.0 * Dist2(p, b)
  {
    SquareOfDifference(p.x - a.x, p.x - b.x);
    SquareOfDifference(p.y - a.y, p.y - b.y);
    assert a.x - b.x == (p.x - b.x) - (p.x - a.x);
    assert a.y - b.y == (p.y - b.y) - (p.y - a.y);
  }

  /** At most one hex ghost is highlighted at a time: two distinct hex centres are further
      apart than twice the 60-pixel trigger. */
  lemma HexHighlightExclusive(p: Point, a: Axial, b: Axial, s: real)
    requires IsSqrt3(s) && a != b
    ensures !(Closer(p, HexToPixel(a.q, a.r, 0.0, 0.0, s), 60.0) && Closer(p, HexToPixel(b.q, b.r, 0.0, 0.0, s), 60.0))
  {
    var pa := HexToPixel(a.q, a.r, 0.0, 0.0, s);
    var pb := HexToPixel(b.q, b.r, 0.0, 0.0, s);
    HexCentreSpacing(a, b, s);
    var dq, dr := a.q - b.q, a.r - b.r;
    HexNormPositive(dq, dr);
    var n := (dq * dq + dq * dr + dr * dr) as real;
    assert n == (dq as real) * (dq as real) + (dq as real) * (dr as real) + (dr as real) * (dr as real);
    assert n >= 1.0;
    assert Dist2(pa, pb) == 3.0 * 76.5 * 76.5 * n;
    assert Dist2(pa, pb) >= 17556.75;
    TriangleSquared(p, pa, pb);
  }

  /** Square ghosts can both be highlighted: the point half-way between two adjacent
      square centres is 60 pixels from each, inside the 96-pixel trigger. */
  lemma SquareHighlightOverlap(x: int, y: int)
    ensures var p := SquareToPixel(x, y, 0.0, 0.0);
            var mid := Point(p.x + 60.0, p.y);
            Closer(mid, p, 96.0) && Closer(mid, SquareToPixel(x + 1, y, 0.0, 0.0), 96.0)
  {
  }

  /** The ghost objects currently on the fabric canvas, bottom first. Tile objects on the
      canvas are not modelled. */
  class GhostCanvas {
    var objects: seq<Ghost>

    constructor()
      ensures objects == []
    {
      objects := [];
    }
  }

  /** `objs` without any of `gs`: the canvas after `canvas.remove(g)` for each `g` of `gs`. */
  function Removed(objs: seq<Ghost>, gs: seq<Ghost>): seq<Ghost>
    decreases |gs|
  {
    if gs == [] then objs
    else Without(Removed(objs, gs[..|gs| - 1]), gs[|gs| - 1])
  }

  /** `objs` with every copy of `g` taken out. */
  function Without(objs: seq<Ghost>, g: Ghost): (res: seq<Ghost>)
    ensures forall o :: o in res <==> o in objs && o != g
    ensures |res| <= |objs|
  {
    if objs == [] then []
    else if objs[0] == g then Without(objs[1..], g)
    else [objs[0]] + Without(objs[1..], g)
  }

  /** Removing the ghosts leaves exactly the objects that are not among them. */
  lemma {:induction false} RemovedSpec(objs: seq<Ghost>, gs: seq<Ghost>)
    ensures forall o :: o in Removed(objs, gs) <==> o in objs && o !in gs
    decreases |gs|
  {
    if gs != [] {
      var init := gs[..|gs| - 1];
      RemovedSpec(objs, init);
      assert forall o :: o in gs <==> o in init || o == gs[|gs| - 1];
    }
  }

  /** `objs` with every element of `gs` filtered out, in one pass. */
  function Kept(objs: seq<Ghost>, gs: seq<Ghost>): seq<Ghost>
    decreases |objs|
  {
    if objs == [] then [] else (if objs[0] in gs then [] else [objs[0]]) + Kept(objs[1..], gs)
  }

  lemma {:induction false} WithoutKept(objs: seq<Ghost>, gs: seq<Ghost>, g: Ghost)
    ensures Without(Kept(objs, gs), g) == Kept(objs, gs + [g])
    decreases |objs|
  {
    if objs != [] {
      WithoutKept(objs[1..], gs, g);
      var head := if objs[0] in gs then [] else [objs[0]];
      WithoutAppend(head, Kept(objs[1..], gs), g);
    }
  }

  lemma {:induction false} WithoutAppend(a: seq<Ghost>, b: seq<Ghost>, g: Ghost)
    ensures Without(a + b, g) == Without(a, g) + Without(b, g)
    decreases |a|
  {
    if a == [] {
      assert a + b == b;
    } else {
      WithoutAppend(a[1..], b, g);
      assert (a + b)[0] == a[0];
      assert (a + b)[1..] == a[1..] + b;
    }
  }

  lemma {:induction false} KeptNothing(objs: seq<Ghost>)
    ensures Kept(objs, []) == objs
    decreases |objs|
  {
    if objs != [] {
      KeptNothing(objs[1..]);
    }
  }

  /** Removing the ghosts one by one is filtering them out in one pass. */
  lemma {:induction false} RemovedIsKept(objs: seq<Ghost>, gs: seq<Ghost>)
    ensures Removed(objs, gs) == Kept(objs, gs)
    decreases |gs|
  {
    if gs == [] {
      KeptNothing(objs);
    } else {
      var init := gs[..|gs| - 1];
      RemovedIsKept(objs, init);
      WithoutKept(objs, init, gs[|gs| - 1]);
      assert init + [gs[|gs| - 1]] == gs;
    }
  }

  lemma {:induction false} KeptSplit(front: seq<Ghost>, rest: seq<Ghost>, gs: seq<Ghost>)
    requires forall g :: g in front ==> g in gs
    requires forall g :: g in rest ==> g !in gs
    ensures Kept(front + rest, gs) == rest
    decreases |front| + |rest|
  {
    if front != [] {
      assert (front + rest)[1..] == front[1..] + rest;
      KeptSplit(front[1..], rest, gs);
    } else if rest != [] {
      assert front + rest == rest;
      KeptSplit([], rest[1..], gs);
      assert [] + rest[1..] == rest[1..];
      assert rest[0] !in gs;
      assert [rest[0]] + rest[1..] == rest;
    }
  }

  /** Drawing ghosts on a canvas that holds none of them and then clearing them leaves
      the canvas as it was. */
  lemma ShowThenClear(rest: seq<Ghost>, drawn: seq<Ghost>)
    requires forall g :: g in rest ==> g !in drawn
    ensures Removed(Reversed(drawn) + rest, drawn) == rest
  {
    RemovedIsKept(Reversed(drawn) + rest, drawn);
    var front := Reversed(drawn);
    assert forall g :: g in front ==> g in drawn by {
      forall g | g in front ensures g in drawn {
        var k :| 0 <= k < |front| && front[k] == g;
        assert drawn[|drawn| - 1 - k] == g;
      }
    }
    KeptSplit(front, rest, drawn);
  }

  /** `canvas.remove(g)` for each ghost in order. */
  method RemoveAll(canvas: GhostCanvas, gs: seq<Ghost>)
    modifies canvas
    ensures canvas.objects == Removed(old(canvas.objects), gs)
  {
    var i := 0;
    while i < |gs|
      invariant 0 <= i <= |gs|
      invariant canvas.objects == Removed(old(canvas.objects), gs[..i])
    {
      assert gs[..i + 1][..i] == gs[..i];
      canvas.objects := Without(canvas.objects, gs[i]);
      i := i + 1;
    }
    assert gs[..|gs|] == gs;
  }

  /** `canvas.add(g)` followed by `canvas.sendToBack(g)`. */
  method AddToBack(canvas: GhostCanvas, g: Ghost)
    modifies canvas
    ensures canvas.objects == [g] + old(canvas.objects)
  {
    canvas.objects := canvas.objects + [g];
    canvas.objects := [g] + canvas.objects[..|canvas.objects| - 1];
  }

  lemma ReversedSnoc(gs: seq<Ghost>, g: Ghost)
    ensures Reversed(gs + [g]) == [g] + Reversed(gs)
  {
    assert (gs + [g])[..|gs|] == gs;
  }

  /** The canvas order after adding `gs` one by one, each sent to the back. */
  function Reversed(gs: seq<Ghost>): (r: seq<Ghost>)
    ensures |r| == |gs| && forall i :: 0 <= i < |gs| ==> r[i] == gs[|gs| - 1 - i]
  {
    if gs == [] then [] else [gs[|gs| - 1]] + Reversed(gs[..|gs| - 1])
  }
}
