/** The `useGhostManager` hook: a ref holding the ghost objects currently drawn, and the
    canvas ref it draws them on (`fabricRef.current`, which may be null). */
module UseGhostManager {
  import opened Common
  import opened HexMath
  import opened SquareMath
  import opened Shapes
  import opened DropLogic
  import opened GhostSlots

  class GhostHook {
    /** `ghostObjects.current`. */
    var ghostObjects: seq<Ghost>
    /** `fabricRef.current`. */
    var canvas: GhostCanvas?

    constructor(canvas: GhostCanvas?)
      ensures this.canvas == canvas && ghostObjects == []
    {
      this.canvas := canvas;
      ghostObjects := [];
    }

    /** `clearGhosts`: without a canvas nothing happens; otherwise every tracked ghost is
        removed from the canvas and the list is emptied. */
    method ClearGhosts()
      modifies this, canvas
      ensures canvas == old(canvas)
      ensures canvas == null ==> ghostObjects == old(ghostObjects)
      ensures canvas != null ==>
                ghostObjects == [] && canvas.objects == Removed(old(canvas.objects), old(ghostObjects))
    {
      if canvas == null {
        return;
      }
      RemoveAll(canvas, ghostObjects);
      ghostObjects := [];
    }

    /** `createAndAddGhost`: builds the ghost, highlights it when the dragged object is
        within the trigger distance of its centre, adds it at the back of the canvas and
        tracks it. */
    method CreateAndAddGhost(coords: GridCoord, pos: Point, shape: string, draggedObj: DraggedObject)
      requires canvas != null
      modifies this, canvas
      ensures canvas == old(canvas)
      ensures var g := Ghost(coords, pos, shape, Closer(Point(draggedObj.left, draggedObj.top), pos, TriggerDistance(shape)));
              ghostObjects == old(ghostObjects) + [g] && canvas.objects == [g] + old(canvas.objects)
    {
      var radius := if IsHexShape(shape) then RADIUS as real else SIZE as real / 2.0;
      var triggerDist := if IsHexShape(shape) then radius * 0.8 else SIZE as real * 0.8;
      var highlighted := Closer(Point(draggedObj.left, draggedObj.top), pos, triggerDist);
      var g := Ghost(coords, pos, shape, highlighted);
      AddToBack(canvas, g);
      ghostObjects := ghostObjects + [g];
    }

    /** `showGhostSlots`: without a canvas nothing happens; otherwise the old ghosts are
        cleared and one ghost per candidate cell is drawn, in candidate order. */
    method ShowGhostSlots(allTiles: seq<ShapedTile>, draggedObj: DraggedObject, s: real)
      requires IsSqrt3(s)
      modifies this, canvas
      ensures canvas == old(canvas)
      ensures canvas == null ==> ghostObjects == old(ghostObjects)
      ensures canvas != null ==>
                ghostObjects == Ghosts(allTiles, draggedObj, s)
                && canvas.objects == Reversed(ghostObjects) + Removed(old(canvas.objects), old(ghostObjects))
    {
      if canvas == null {
        return;
      }
      ClearGhosts();
      var cells := CollectGhostCells(allTiles, draggedObj.data);
      DrawCells(cells, draggedObj, s);
    }

    /** The loops of `showGhostSlots` after the candidates are known: one
        `createAndAddGhost` per cell, in order. */
    method DrawCells(cells: seq<GridCoord>, draggedObj: DraggedObject, s: real)
      requires IsSqrt3(s) && canvas != null
      modifies this, canvas
      ensures canvas == old(canvas)
      ensures ghostObjects == old(ghostObjects) + GhostsOf(cells, draggedObj, s)
      ensures canvas.objects == Reversed(GhostsOf(cells, draggedObj, s)) + old(canvas.objects)
    {
      var draggedShape := draggedObj.data.shape;
      var hex := IsHexShape(draggedShape);
      ghost var before := ghostObjects;
      ghost var all := GhostsOf(cells, draggedObj, s);
      var i := 0;
      while i < |cells|
        invariant 0 <= i <= |cells| && |all| == |cells|
        invariant canvas == old(canvas) && canvas != null
        invariant ghostObjects == before + all[..i]
        invariant canvas.objects == Reversed(all[..i]) + old(canvas.objects)
      {
        var pos := CoordToPixel(cells[i], s);
        var shape := if hex then "hex" else draggedShape;
        assert shape == draggedShape;
        ghost var g := GhostFor(cells[i], draggedObj, s);
        assert all[i] == g;
        CreateAndAddGhost(cells[i], pos, shape, draggedObj);
        assert ghostObjects == before + all[..i] + [g];
        assert all[..i + 1] == all[..i] + [g];
        ReversedSnoc(all[..i], g);
        i := i + 1;
      }
      assert all[..|cells|] == all;
    }
  }

  /** Each candidate cell is drawn once, and a ghost is highlighted exactly when the
      dragged object is closer to its centre than the trigger distance. */
  lemma DrawnGhostsMatchCandidates(allTiles: seq<ShapedTile>, obj: DraggedObject, s: real)
    requires IsSqrt3(s)
    ensures var gs := Ghosts(allTiles, obj, s);
            var cells := GhostCells(allTiles, obj.data);
            |gs| == |cells|
            && (forall i :: 0 <= i < |gs| ==> gs[i].coord == cells[i])
            && (forall i, j :: 0 <= i < j < |gs| ==> gs[i].coord != gs[j].coord)
            && forall i :: 0 <= i < |gs| ==>
                 (gs[i].highlighted <==> Closer(Point(obj.left, obj.top), CoordToPixel(cells[i], s), TriggerDistance(obj.data.shape)))
  {
    GhostCellsSpec(allTiles, obj.data);
  }
}
