/** Auto-placement over the store's hex tiles: the frontier search behind
    `findClosestEmptySpot`, the ring of empty neighbours used by `addRingAround`,
    and the collision-retry walk plus adjacency re-check of `addTile`. */
module Placement {
  import opened Common
  import opened HexMath
  import opened StoreTiles

  /** Retry bound of the collision walk in `addTile`. */
  const MAX_ATTEMPTS: nat := 50

  /** Hex distance to the origin `(0, 0)`, the tie-break of the search. */
  function DistToCenter(c: Axial): nat {
    (AbsInt(c.q) + AbsInt(c.r) + AbsInt(c.q + c.r)) / 2
  }

  /** The program divides by 2 in floating point; the sum is always even, so the
      integer quotient is exact, and it is the hex distance to the origin. */
  lemma DistToCenterExact(c: Axial)
    ensures 2 * DistToCenter(c) == AbsInt(c.q) + AbsInt(c.r) + AbsInt(c.q + c.r)
    ensures DistToCenter(c) == HexDistance(c, Axial(0, 0))
  {
  }

  /** How many of `cells` are occupied. */
  function CountIn(cells: seq<Axial>, occ: set<Axial>): nat
    decreases |cells|
  {
    if cells == [] then 0
    else CountIn(cells[..|cells| - 1], occ) + (if cells[|cells| - 1] in occ then 1 else 0)
  }

  /** A scored candidate, as stored in the program's `candidatesMap`. */
  datatype Candidate = Candidate(q: int, r: int, dist: nat, neighbors: nat)

  function Score(c: Axial, occ: set<Axial>): Candidate {
    Candidate(c.q, c.r, DistToCenter(c), CountIn(Neighbors(c), occ))
  }

  function Scored(cells: seq<Axial>, occ: set<Axial>): (cs: seq<Candidate>)
    ensures |cs| == |cells|
  {
    seq(|cells|, i requires 0 <= i < |cells| => Score(cells[i], occ))
  }

  /** The sort comparator: `a` sorts strictly before `b` (more occupied neighbours,
      then smaller distance to the origin). */
  predicate Before(a: Candidate, b: Candidate) {
    a.neighbors > b.neighbors || (a.neighbors == b.neighbors && a.dist < b.dist)
  }

  /** Empty neighbours of the first `k` tiles, in the order the nested traversal
      first meets them (tiles in list order, neighbours in direction order). */
  function FrontierUpTo(tiles: seq<Tile>, occ: set<Axial>, k: nat): seq<Axial>
    requires k <= |tiles|
  {
    if k == 0 then [] else InsertAll(FrontierUpTo(tiles, occ, k - 1), Neighbors(tiles[k - 1].Cell()), occ)
  }

  /** Every empty cell next to some tile, each once, in traversal order. */
  function Frontier(tiles: seq<Tile>): seq<Axial> {
    FrontierUpTo(tiles, Cells(tiles), |tiles|)
  }

  lemma {:induction false} FrontierUpToSpec(tiles: seq<Tile>, occ: set<Axial>, k: nat)
    requires k <= |tiles|
    ensures NoDup(FrontierUpTo(tiles, occ, k))
    ensures forall c :: c in FrontierUpTo(tiles, occ, k) <==>
              c !in occ && exists i :: 0 <= i < k && c in Neighbors(tiles[i].Cell())
  {
    if k > 0 {
      FrontierUpToSpec(tiles, occ, k - 1);
      InsertAllSpec(FrontierUpTo(tiles, occ, k - 1), Neighbors(tiles[k - 1].Cell()), occ);
    }
  }

  /** The frontier is duplicate-free and holds exactly the unoccupied cells adjacent to a tile. */
  lemma FrontierSpec(tiles: seq<Tile>)
    ensures NoDup(Frontier(tiles))
    ensures forall c :: c in Frontier(tiles) <==> c !in Cells(tiles) && AdjacentToAny(tiles, c)
  {
    FrontierUpToSpec(tiles, Cells(tiles), |tiles|);
  }

  lemma {:induction false} EastmostTile(tiles: seq<Tile>) returns (k: nat)
    requires |tiles| > 0
    ensures k < |tiles| && forall j :: 0 <= j < |tiles| ==> tiles[j].q <= tiles[k].q
  {
    if |tiles| == 1 {
      k := 0;
    } else {
      var k' := EastmostTile(tiles[..|tiles| - 1]);
      assert forall j :: 0 <= j < |tiles| - 1 ==> tiles[j] == tiles[..|tiles| - 1][j];
      k := if tiles[|tiles| - 1].q > tiles[k'].q then |tiles| - 1 else k';
    }
  }

  /** A non-empty tile list always has an empty neighbour cell: east of its eastmost tile. */
  lemma FrontierNonEmpty(tiles: seq<Tile>)
    requires |tiles| > 0
    ensures |Frontier(tiles)| > 0
  {
    var k := EastmostTile(tiles);
    var east := Neighbors(tiles[k].Cell())[0];
    assert east !in Cells(tiles);
    FrontierSpec(tiles);
    assert east in Frontier(tiles);
  }

  /** The first candidate that no other candidate sorts before: element 0 of the
      program's stable sort. */
  function BestOf(cs: seq<Candidate>): Candidate
    requires |cs| > 0
    decreases |cs|
  {
    if |cs| == 1 then cs[0]
    else
      var b := BestOf(cs[..|cs| - 1]);
      if Before(cs[|cs| - 1], b) then cs[|cs| - 1] else b
  }

  /** `BestOf` picks a candidate nothing beats, and everything listed before it is beaten
      by it, which is what leads a stable sort by `Before`. */
  lemma {:induction false} BestOfSpec(cs: seq<Candidate>) returns (k: nat)
    requires |cs| > 0
    ensures k < |cs| && cs[k] == BestOf(cs)
    ensures forall j :: 0 <= j < |cs| ==> !Before(cs[j], cs[k])
    ensures forall j :: 0 <= j < k ==> Before(cs[k], cs[j])
    decreases |cs|
  {
    if |cs| == 1 {
      k := 0;
    } else {
      var init := cs[..|cs| - 1];
      var k' := BestOfSpec(init);
      assert forall j :: 0 <= j < |cs| - 1 ==> cs[j] == init[j];
      k := if Before(cs[|cs| - 1], BestOf(init)) then |cs| - 1 else k';
    }
  }

  /** `findClosestEmptySpot`, as a value: the origin for an empty list, otherwise the best
      frontier candidate (the origin if there were none, which cannot happen). */
  function ClosestEmptySpot(tiles: seq<Tile>): Axial {
    if |tiles| == 0 then Axial(0, 0)
    else
      var cs := Scored(Frontier(tiles), Cells(tiles));
      if |cs| == 0 then Axial(0, 0) else var b := BestOf(cs); Axial(b.q, b.r)
  }

  /** For a non-empty list the spot is free, next to a tile, has the most occupied
      neighbours of any frontier cell and, among those, the least distance to the origin. */
  lemma ClosestEmptySpotSpec(tiles: seq<Tile>)
    requires |tiles| > 0
    ensures var c := ClosestEmptySpot(tiles);
            && c in Frontier(tiles)
            && c !in Cells(tiles)
            && AdjacentToAny(tiles, c)
            && forall f :: f in Frontier(tiles) ==> !Before(Score(f, Cells(tiles)), Score(c, Cells(tiles)))
  {
    var f := Frontier(tiles);
    var occ := Cells(tiles);
    var cs := Scored(f, occ);
    FrontierNonEmpty(tiles);
    FrontierSpec(tiles);
    var k := BestOfSpec(cs);
    assert ClosestEmptySpot(tiles) == f[k];
    forall g | g in f ensures !Before(Score(g, occ), Score(f[k], occ)) {
      var j :| 0 <= j < |f| && f[j] == g;
      assert cs[j] == Score(g, occ);
    }
  }

  /** Offering duplicate-free keys that are all new and none excluded appends them all. */
  lemma {:induction false} InsertAllFresh(acc: seq<Axial>, cells: seq<Axial>, excluded: set<Axial>)
    requires NoDup(cells)
    requires forall c :: c in cells ==> c !in acc && c !in excluded
    ensures InsertAll(acc, cells, excluded) == acc + cells
    decreases |cells|
  {
    if cells != [] {
      var init := cells[..|cells| - 1];
      InsertAllFresh(acc, init, excluded);
      assert acc + init + [cells[|cells| - 1]] == acc + cells;
    }
  }

  /** A duplicate-free list holding the one occupied cell counts one occupied cell. */
  lemma {:induction false} CountInSingle(cells: seq<Axial>, x: Axial)
    requires NoDup(cells) && x in cells
    ensures CountIn(cells, {x}) == 1
    decreases |cells|
  {
    var init := cells[..|cells| - 1];
    if cells[|cells| - 1] == x {
      CountInNone(init, x);
    } else {
      assert x in init;
      CountInSingle(init, x);
    }
  }

  lemma {:induction false} CountInNone(cells: seq<Axial>, x: Axial)
    requires x !in cells
    ensures CountIn(cells, {x}) == 0
    decreases |cells|
  {
    if cells != [] {
      CountInNone(cells[..|cells| - 1], x);
    }
  }

  /** Around a lone tile the frontier is its six neighbours in direction order, and each
      of them has exactly one occupied neighbour. */
  lemma SingleTileFrontier(t: Tile)
    ensures Cells([t]) == {t.Cell()}
    ensures Frontier([t]) == Neighbors(t.Cell())
    ensures forall i :: 0 <= i < 6 ==> CountIn(Neighbors(Neighbors(t.Cell())[i]), {t.Cell()}) == 1
  {
    var tiles := [t];
    var c := t.Cell();
    assert tiles[0] == t;
    assert c in Cells(tiles);
    var ns := Neighbors(c);
    NeighborsDistinct(c);
    InsertAllFresh([], ns, {c});
    assert FrontierUpTo(tiles, {c}, 1) == InsertAll([], ns, {c});
    forall i | 0 <= i < 6 ensures CountIn(Neighbors(ns[i]), {c}) == 1 {
      NeighborsDistinct(ns[i]);
      NeighborSymmetry(c, ns[i]);
      CountInSingle(Neighbors(ns[i]), c);
    }
  }

  /** Each direction vector is one step from the origin. */
  lemma DirectionAtUnitDistance(i: nat)
    requires i < 6
    ensures DistToCenter(DIRECTIONS[i]) == 1
  {
    if i == 0 { assert DIRECTIONS[i] == Axial(1, 0); }
    else if i == 1 { assert DIRECTIONS[i] == Axial(1, -1); }
    else if i == 2 { assert DIRECTIONS[i] == Axial(0, -1); }
    else if i == 3 { assert DIRECTIONS[i] == Axial(-1, 0); }
    else if i == 4 { assert DIRECTIONS[i] == Axial(-1, 1); }
    else { assert DIRECTIONS[i] == Axial(0, 1); }
  }

  /** From a single tile at the origin the search picks `(1, 0)`: all six neighbours tie,
      so the first in direction order wins. */
  lemma ClosestFromOrigin(t: Tile)
    requires t.q == 0 && t.r == 0
    ensures ClosestEmptySpot([t]) == Axial(1, 0)
  {
    SingleTileFrontier(t);
    var ns := Neighbors(t.Cell());
    var cs := Scored(ns, {t.Cell()});
    assert ClosestEmptySpot([t]) == Axial(BestOf(cs).q, BestOf(cs).r);
    forall i | 0 <= i < 6 ensures cs[i].neighbors == 1 && cs[i].dist == 1 {
      assert cs[i] == Score(ns[i], {t.Cell()});
      assert ns[i] == DIRECTIONS[i];
      DirectionAtUnitDistance(i);
    }
    var k := BestOfSpec(cs);
    assert !Before(cs[k], cs[0]);
    assert k == 0;
    assert cs[0].q == 1 && cs[0].r == 0;
  }

  /** Counting the occupied cells of `cells`, as the innermost `forEach` does. */
  method CountOccupied(cells: seq<Axial>, occupied: set<Axial>) returns (count: nat)
    ensures count == CountIn(cells, occupied)
    ensures count <= |cells|
  {
    count := 0;
    var k := 0;
    while k < |cells|
      invariant 0 <= k <= |cells|
      invariant count == CountIn(cells[..k], occupied) && count <= k
    {
      assert cells[..k + 1][..k] == cells[..k];
      if cells[k] in occupied {
        count := count + 1;
      }
      k := k + 1;
    }
    assert cells[..k] == cells;
  }

  /** One tile's round of the search: score each unoccupied neighbour not yet in the
      candidate map and append it to the key order. */
  method AddCandidates(keys: seq<Axial>, entries: map<Axial, Candidate>, neighbors: seq<Axial>,
                       occupied: set<Axial>)
    returns (keys': seq<Axial>, entries': map<Axial, Candidate>)
    requires forall c :: c in entries <==> c in keys
    requires forall c :: c in entries ==> entries[c] == Score(c, occupied)
    ensures keys' == InsertAll(keys, neighbors, occupied)
    ensures forall c :: c in entries' <==> c in keys'
    ensures forall c :: c in entries' ==> entries'[c] == Score(c, occupied)
  {
    keys', entries' := keys, entries;
    var j := 0;
    while j < |neighbors|
      invariant 0 <= j <= |neighbors|
      invariant keys' == InsertAll(keys, neighbors[..j], occupied)
      invariant forall c :: c in entries' <==> c in keys'
      invariant forall c :: c in entries' ==> entries'[c] == Score(c, occupied)
    {
      var n := neighbors[j];
      assert neighbors[..j + 1][..j] == neighbors[..j];
      if n !in occupied {
        var distToCenter := (AbsInt(n.q) + AbsInt(n.r) + AbsInt(n.q + n.r)) / 2;
        var occupiedNeighbors := CountOccupied(Neighbors(n), occupied);
        if n !in entries' {
          entries' := entries'[n := Candidate(n.q, n.r, distToCenter, occupiedNeighbors)];
          keys' := keys' + [n];
        }
      }
      j := j + 1;
    }
    assert neighbors[..j] == neighbors;
  }

  /** Element 0 after the stable sort, found by one scan that keeps the first of equals. */
  method SelectBest(cs: seq<Candidate>) returns (best: Candidate)
    requires |cs| > 0
    ensures best == BestOf(cs)
  {
    best := cs[0];
    var m := 1;
    while m < |cs|
      invariant 1 <= m <= |cs|
      invariant best == BestOf(cs[..m])
    {
      assert cs[..m + 1][..m] == cs[..m];
      if Before(cs[m], best) {
        best := cs[m];
      }
      m := m + 1;
    }
    assert cs[..m] == cs;
  }

  /** The `candidatesMap`/`forEach`/sort search, step by step. */
  method FindClosestEmptySpot(tiles: seq<Tile>) returns (spot: Axial)
    ensures spot == ClosestEmptySpot(tiles)
    ensures |tiles| == 0 ==> spot == Axial(0, 0)
    ensures |tiles| > 0 ==> spot !in Cells(tiles) && AdjacentToAny(tiles, spot)
  {
    if |tiles| == 0 {
      return Axial(0, 0);
    }
    var occupied := Cells(tiles);
    var keys: seq<Axial> := [];
    var entries: map<Axial, Candidate> := map[];
    var i := 0;
    while i < |tiles|
      invariant 0 <= i <= |tiles|
      invariant keys == FrontierUpTo(tiles, occupied, i)
      invariant forall c :: c in entries <==> c in keys
      invariant forall c :: c in entries ==> entries[c] == Score(c, occupied)
    {
      keys, entries := AddCandidates(keys, entries, Neighbors(tiles[i].Cell()), occupied);
      i := i + 1;
    }
    var finalCandidates := seq(|keys|, k requires 0 <= k < |keys| => entries[keys[k]]);
    assert finalCandidates == Scored(Frontier(tiles), occupied);
    ClosestEmptySpotSpec(tiles);
    if |finalCandidates| == 0 {
      return Axial(0, 0);
    }
    var best := SelectBest(finalCandidates);
    spot := Axial(best.q, best.r);
  }

  /** `addRingAround`'s candidate `Set`: the frontier, collected by the same traversal. */
  method RingCandidates(currentTiles: seq<Tile>) returns (candidates: seq<Axial>)
    ensures candidates == Frontier(currentTiles)
    ensures NoDup(candidates)
    ensures forall c :: c in candidates <==> c !in Cells(currentTiles) && AdjacentToAny(currentTiles, c)
  {
    var existingCoords := Cells(currentTiles);
    candidates := [];
    var i := 0;
    while i < |currentTiles|
      invariant 0 <= i <= |currentTiles|
      invariant candidates == FrontierUpTo(currentTiles, existingCoords, i)
    {
      var neighbors := Neighbors(currentTiles[i].Cell());
      var j := 0;
      while j < 6
        invariant 0 <= j <= 6
        invariant candidates == InsertAll(FrontierUpTo(currentTiles, existingCoords, i), neighbors[..j], existingCoords)
      {
        assert neighbors[..j + 1][..j] == neighbors[..j];
        var n := neighbors[j];
        if n !in existingCoords && n !in candidates {
          candidates := candidates + [n];
        }
        j := j + 1;
      }
      assert neighbors[..6] == neighbors;
      i := i + 1;
    }
    FrontierSpec(currentTiles);
  }

  /** The cell `addTile` starts from: the given `(q, r)`, or the search result when
      either coordinate is missing. */
  function Requested(tiles: seq<Tile>, q: Option<int>, r: Option<int>): Axial {
    if q.None? || r.None? then ClosestEmptySpot(tiles) else Axial(q.value, r.value)
  }

  /** The first free neighbour, as the `for ... break` loop finds it. */
  function FirstFree(cells: seq<Axial>, occ: set<Axial>): Option<Axial> {
    Find(cells, (c: Axial) => c !in occ)
  }

  /** One round of the collision walk from `req`: its first free neighbour, or a fresh search. */
  function Walk(tiles: seq<Tile>, req: Axial): Axial {
    match FirstFree(Neighbors(req), Cells(tiles))
    case Some(n) => n
    case None => ClosestEmptySpot(tiles)
  }

  /** Where `addTile` puts its tile, as a value. */
  function PlacementTarget(tiles: seq<Tile>, q: Option<int>, r: Option<int>): Axial {
    var req := Requested(tiles, q, r);
    if req in Cells(tiles) then Walk(tiles, req)
    else if |tiles| == 0 || AdjacentToAny(tiles, req) then req
    else ClosestEmptySpot(tiles)
  }

  /** A walk from an occupied cell lands on a free cell next to the structure. */
  lemma WalkedIsFree(tiles: seq<Tile>, req: Axial)
    requires req in Cells(tiles)
    ensures Walk(tiles, req) !in Cells(tiles) && AdjacentToAny(tiles, Walk(tiles, req))
  {
    var i :| 0 <= i < |tiles| && tiles[i].Cell() == req;
    ClosestEmptySpotSpec(tiles);
    match FirstFree(Neighbors(req), Cells(tiles))
    case Some(n) => {
      assert n in Neighbors(tiles[i].Cell());
    }
    case None => {}
  }

  /** The target is always free and, unless the list is empty, next to a tile; an explicit
      free cell that touches the structure (or any cell, on an empty list) is honoured. */
  lemma PlacementTargetSpec(tiles: seq<Tile>, q: Option<int>, r: Option<int>)
    ensures var t := PlacementTarget(tiles, q, r);
            && t !in Cells(tiles)
            && (|tiles| > 0 ==> AdjacentToAny(tiles, t))
            && (|tiles| == 0 ==> t == Requested(tiles, q, r))
  {
    var req := Requested(tiles, q, r);
    var occ := Cells(tiles);
    if |tiles| > 0 {
      ClosestEmptySpotSpec(tiles);
    }
    if req in occ {
      WalkedIsFree(tiles, req);
    }
  }

  /** The three outcomes of `PlacementTarget`, one per branch. */
  lemma PlacementTargetCases(tiles: seq<Tile>, q: Option<int>, r: Option<int>)
    ensures var req, t := Requested(tiles, q, r), PlacementTarget(tiles, q, r);
            && (req in Cells(tiles) ==> t == Walk(tiles, req))
            && (req !in Cells(tiles) && (|tiles| == 0 || AdjacentToAny(tiles, req)) ==> t == req)
            && (req !in Cells(tiles) && |tiles| > 0 && !AdjacentToAny(tiles, req) ==> t == ClosestEmptySpot(tiles))
  {
  }

  /** The `for ... break` scan over a cell's neighbours for the first free one. */
  method FirstFreeNeighbor(c: Axial, occupied: set<Axial>) returns (found: Option<Axial>)
    ensures found == FirstFree(Neighbors(c), occupied)
  {
    var neighbors := Neighbors(c);
    var j := 0;
    while j < 6
      invariant 0 <= j <= 6
      invariant forall k :: 0 <= k < j ==> neighbors[k] in occupied
    {
      if neighbors[j] !in occupied {
        assert FindIndex(neighbors, (n: Axial) => n !in occupied) == Some(j);
        return Some(neighbors[j]);
      }
      j := j + 1;
    }
    return None;
  }

  /** The collision walk of `addTile` (lines 42-71): while the target is taken, move to
      its first free neighbour or, failing that, to a fresh search result. One round
      always suffices. */
  method CollisionWalk(tiles: seq<Tile>, start: Axial) returns (target: Axial, attempts: nat)
    ensures attempts <= 1 && target !in Cells(tiles)
    ensures start !in Cells(tiles) ==> attempts == 0 && target == start
    ensures start in Cells(tiles) ==> attempts == 1 && target == Walk(tiles, start)
  {
    target := start;
    attempts := 0;
    var occupied := Cells(tiles);
    if start in occupied {
      WalkedIsFree(tiles, start);
    }
    while target in occupied && attempts < MAX_ATTEMPTS
      invariant attempts <= 1
      invariant attempts == 0 ==> target == start
      invariant attempts == 1 ==> start in occupied && target == Walk(tiles, start) && target !in occupied
    {
      var free := FirstFreeNeighbor(target, occupied);
      if free.Some? {
        target := free.value;
      } else {
        target := FindClosestEmptySpot(tiles);
      }
      attempts := attempts + 1;
    }
  }

  /** Lines 29-93 of `addTile`: the requested or searched start cell, the collision walk,
      the final occupancy check and the adjacency re-check. The "no space" exit is never
      taken. */
  method ResolvePlacement(tiles: seq<Tile>, q: Option<int>, r: Option<int>)
    returns (target: Axial, attempts: nat, placed: bool)
    ensures attempts <= 1 && placed
    ensures target == PlacementTarget(tiles, q, r)
    ensures target !in Cells(tiles)
    ensures |tiles| > 0 ==> AdjacentToAny(tiles, target)
  {
    var start;
    if q.None? || r.None? {
      start := FindClosestEmptySpot(tiles);
    } else {
      start := Axial(q.value, r.value);
    }
    target, attempts := CollisionWalk(tiles, start);
    if target in Cells(tiles) {
      placed := false;
      return;
    }
    placed := true;
    PlacementTargetSpec(tiles, q, r);
    PlacementTargetCases(tiles, q, r);
    if start in Cells(tiles) {
      WalkedIsFree(tiles, start);
    }
    if |tiles| > 0 {
      if !AdjacentToAny(tiles, target) {
        target := FindClosestEmptySpot(tiles);
      }
    }
  }

}
