/** The module-level ghost functions of `GhostManager`: the canvas and the ghost ref are
    passed in by the caller. */
module GhostManager {
  import opened Common
  import opened HexMath
  import opened SquareMath
  import opened Shapes
  import opened DropLogic
  import opened GhostSlots

  /** A React ref: `ghostObjects.current`. */
  class GhostRef {
    var current: seq<Ghost>

    constructor()
      ensures current == []
    {
      current := [];
    }
  }

  /** `clearGhosts`: without a canvas nothing happens; otherwise every tracked ghost is
      removed from the canvas and the ref is reset to an empty list. */
  method ClearGhosts(canvas: GhostCanvas?, ghostObjects: GhostRef)
    modifies canvas, ghostObjects
    ensures canvas == null ==> ghostObjects.current == old(ghostObjects.current)
    ensures canvas != null ==>
              ghostObjects.current == [] && canvas.objects == Removed(old(canvas.objects), old(ghostObjects.current))
  {
    if canvas == null {
      return;
    }
    RemoveAll(canvas, ghostObjects.current);
    ghostObjects.current := [];
  }

  /** `showGhostSlots`. The old ghosts are cleared first, then one ghost per candidate
      cell is drawn, in candidate order, and the canvas re-rendered. Without a canvas the
      clear does nothing and the first `canvas.add` (or, with no candidates, the final
      `requestRenderAll`) throws: `ok` is false and nothing has changed. */
  method ShowGhostSlots(draggedObj: DraggedObject, canvas: GhostCanvas?, ghostObjects: GhostRef,
                        allTiles: seq<ShapedTile>, s: real) returns (ok: bool)
    requires IsSqrt3(s)
    modifies canvas, ghostObjects
    ensures ok <==> canvas != null
    ensures !ok ==> ghostObjects.current == old(ghostObjects.current)
    ensures ok ==>
              ghostObjects.current == Ghosts(allTiles, draggedObj, s)
              && canvas.objects == Reversed(ghostObjects.current) + Removed(old(canvas.objects), old(ghostObjects.current))
  {
    ClearGhosts(canvas, ghostObjects);
    var validGhostCoords := CollectGhostCells(allTiles, draggedObj.data);
    if canvas == null {
      return false;
    }
    DrawGhosts(draggedObj, canvas, ghostObjects, validGhostCoords, s);
    ok := true;
  }

  /** The drawing loop of `showGhostSlots`: one ghost per cell, in order. */
  method DrawGhosts(draggedObj: DraggedObject, canvas: GhostCanvas, ghostObjects: GhostRef,
                    validGhostCoords: seq<GridCoord>, s: real)
    requires IsSqrt3(s)
    modifies canvas, ghostObjects
    ensures ghostObjects.current == old(ghostObjects.current) + GhostsOf(validGhostCoords, draggedObj, s)
    ensures canvas.objects == Reversed(GhostsOf(validGhostCoords, draggedObj, s)) + old(canvas.objects)
  {
    ghost var before := ghostObjects.current;
    ghost var all := GhostsOf(validGhostCoords, draggedObj, s);
    var i := 0;
    while i < |validGhostCoords|
      invariant 0 <= i <= |validGhostCoords| && |all| == |validGhostCoords|
      invariant ghostObjects.current == before + all[..i]
      invariant canvas.objects == Reversed(all[..i]) + old(canvas.objects)
    {
      DrawGhost(draggedObj, canvas, ghostObjects, validGhostCoords[i], s);
      assert all[..i + 1] == all[..i] + [all[i]];
      ReversedSnoc(all[..i], all[i]);
      i := i + 1;
    }
    assert all[..|validGhostCoords|] == all;
  }

  /** One step of the drawing loop: build the ghost of a cell, highlight it when the
      dragged object is within the trigger distance of the cell centre, add it at the back
      of the canvas and track it. */
  method DrawGhost(draggedObj: DraggedObject, canvas: GhostCanvas, ghostObjects: GhostRef, c: GridCoord, s: real)
    requires IsSqrt3(s)
    modifies canvas, ghostObjects
    ensures ghostObjects.current == old(ghostObjects.current) + [GhostFor(c, draggedObj, s)]
    ensures canvas.objects == [GhostFor(c, draggedObj, s)] + old(canvas.objects)
  {
    var shape := draggedObj.data.shape;
    var pos := CoordToPixel(c, s);
    var trigger := if IsHexShape(shape) then RADIUS as real * 0.8 else SIZE as real * 0.8;
    var g := Ghost(c, pos, shape, Closer(Point(draggedObj.left, draggedObj.top), pos, trigger));
    AddToBack(canvas, g);
    ghostObjects.current := ghostObjects.current + [g];
  }
}
