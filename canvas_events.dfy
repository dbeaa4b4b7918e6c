/** The canvas event handlers of `useCanvasEvents`: client coordinates from mouse or
    touch, the trash hit-test, and the calls each handler makes, in the order it makes
    them. A handler is a function from the event and the state it reads to that list of
    calls. */
module CanvasEvents {
  import opened Common
  import opened HexMath
  import opened Shapes
  import opened DropLogic

  /** The browser event under a fabric event. A touch list may be absent (`touches`
      of a mouse event) or present but empty (`touches` of a `touchend`). */
  datatype NativeEvent = NativeEvent(touches: Option<seq<Point>>, changedTouches: Option<seq<Point>>, client: Point)

  /** A fabric event on a tile object. */
  datatype DragEvent = DragEvent(target: DraggedObject, native: NativeEvent)

  /** The trash element's bounding client rectangle. */
  datatype ClientRect = ClientRect(left: real, top: real, right: real, bottom: real)

  /** The object under a mouse press: its `data.id`, when it has `data` at all. */
  datatype PressTarget = PressTarget(dataId: Option<TileId>)

  /** One call a handler makes: on the dragged object, on the canvas, on the ghost
      manager, on the trash hover state or on the store. */
  datatype Effect =
    | SetOpacity(opacity: real)
    | SetOverview
    | SetTrashHovered(hovered: bool)
    | ClearGhosts
    | ShowGhostSlots(obj: DraggedObject)
    | RemoveTile(id: TileId)
    | RemoveFromCanvas
    | RequestRender
    | MoveOrSwapTile(id: TileId, target: GridCoord)
    | AnimateTo(pos: Point, opacity: real)
    | SetFocus(id: TileId)
    | OpenEditModal(id: TileId)

  /** A touch list that is present and holds at least one touch. */
  predicate HasTouch(l: Option<seq<Point>>) {
    l.Some? && |l.value| > 0
  }

  /** `getClientCoords`: the first active touch, else the first changed touch, else the mouse. */
  function GetClientCoords(e: NativeEvent): (p: Point)
    ensures HasTouch(e.touches) ==> p == e.touches.value[0]
    ensures !HasTouch(e.touches) && HasTouch(e.changedTouches) ==> p == e.changedTouches.value[0]
    ensures !HasTouch(e.touches) && !HasTouch(e.changedTouches) ==> p == e.client
  {
    if HasTouch(e.touches) then e.touches.value[0]
    else if HasTouch(e.changedTouches) then e.changedTouches.value[0]
    else e.client
  }

  /** The point lies in the rectangle, edges included. */
  predicate Inside(p: Point, rect: ClientRect) {
    rect.left <= p.x <= rect.right && rect.top <= p.y <= rect.bottom
  }

  /** `isOverTrash`: false without a trash element or an event, otherwise the inclusive
      containment of the event's client point. */
  function IsOverTrash(trash: Option<ClientRect>, e: Option<DragEvent>): (over: bool)
    ensures over ==> trash.Some? && e.Some?
    ensures trash.Some? && e.Some? ==> (over <==> Inside(GetClientCoords(e.value.native), trash.value))
  {
    match (trash, e)
    case (Some(rect), Some(ev)) => Inside(GetClientCoords(ev.native), rect)
    case _ => false
  }

  /** A `touchend` carries its last position only in `changedTouches`, so a finger lifted
      over the trash still counts as over it, including on the trash's edge. */
  lemma TouchEndOverTrash(rect: ClientRect, lifted: Point, mouse: Point, ev: DragEvent)
    requires rect.left <= rect.right && rect.top <= rect.bottom
    requires lifted == Point(rect.right, rect.top)
    requires ev.native == NativeEvent(Some([]), Some([lifted]), mouse)
    ensures IsOverTrash(Some(rect), Some(ev))
  {
  }

  /** The handler for `object:moving`. */
  function OnObjectMoving(ev: DragEvent, viewMode: ViewMode, trash: Option<ClientRect>): (effs: seq<Effect>)
    ensures |effs| >= 2 && effs[0] == SetOpacity(0.5)
    ensures SetOverview in effs <==> viewMode == Focused
    ensures SetTrashHovered(IsOverTrash(trash, Some(ev))) in effs
    ensures IsOverTrash(trash, Some(ev)) ==>
              ClearGhosts in effs && ShowGhostSlots(ev.target) !in effs && effs[|effs| - 1] == SetOpacity(0.3)
    ensures !IsOverTrash(trash, Some(ev)) ==>
              ClearGhosts !in effs && effs[|effs| - 1] == ShowGhostSlots(ev.target)
  {
    var hovering := IsOverTrash(trash, Some(ev));
    [SetOpacity(0.5)]
    + (if viewMode == Focused then [SetOverview] else [])
    + [SetTrashHovered(hovering)]
    + (if hovering then [ClearGhosts, SetOpacity(0.3)] else [ShowGhostSlots(ev.target)])
  }

  /** The effect of a store call or a revert animation chosen by the drop decision. */
  predicate IsDropEffect(e: Effect) {
    e.MoveOrSwapTile? || e.AnimateTo?
  }

  /** `handleDropLogic`: the same decision as `handleTileDrop`, returning the call it makes. */
  function HandleDropLogic(obj: DraggedObject, allTiles: seq<ShapedTile>, s: real): (effs: seq<Effect>)
    requires IsSqrt3(s)
    ensures |effs| == 1 && IsDropEffect(effs[0])
    ensures effs[0].MoveOrSwapTile? <==>
              (exists i :: 0 <= i < |allTiles| && Occupies(allTiles[i], obj, DropTarget(obj, s)))
              || HasNeighbor(allTiles, obj, DropTarget(obj, s))
    ensures effs[0].MoveOrSwapTile? ==> effs[0] == MoveOrSwapTile(obj.data.id, DropTarget(obj, s))
    ensures effs[0].AnimateTo? ==> effs[0] == AnimateTo(HomePosition(obj, s), 1.0)
  {
    var target := DropTarget(obj, s);
    if TargetTile(allTiles, obj, target).Some? then [MoveOrSwapTile(obj.data.id, target)]
    else if HasNeighbor(allTiles, obj, target) then [MoveOrSwapTile(obj.data.id, target)]
    else [AnimateTo(HomePosition(obj, s), 1.0)]
  }

  /** The call a `handleTileDrop` outcome makes. */
  function OutcomeEffects(o: DropOutcome): (effs: seq<Effect>)
    ensures |effs| == 1 && (effs[0].MoveOrSwapTile? <==> !o.Revert?)
  {
    match o
    case Swap(id, target, _) => [MoveOrSwapTile(id, target)]
    case Move(id, target) => [MoveOrSwapTile(id, target)]
    case Revert(home) => [AnimateTo(home, 1.0)]
  }

  /** The hook's drop decision and `handleTileDrop` make the same call on every drop. */
  lemma HandleDropLogicAgrees(obj: DraggedObject, allTiles: seq<ShapedTile>, s: real)
    requires IsSqrt3(s)
    ensures HandleDropLogic(obj, allTiles, s) == OutcomeEffects(HandleTileDrop(obj, allTiles, s))
  {
  }

  /** Tiles without the `'hex'` tag can neither be swapped with nor border a hex drop, so
      every hex drop over such tiles animates back. This is the case of the store's own
      tiles, which carry no shape. */
  lemma ShapelessTilesRevertHexDrop(obj: DraggedObject, allTiles: seq<ShapedTile>, s: real)
    requires IsSqrt3(s) && IsHexShape(obj.data.shape)
    requires forall i :: 0 <= i < |allTiles| ==> !IsHexShape(allTiles[i].shape)
    ensures HandleDropLogic(obj, allTiles, s) == [AnimateTo(HomePosition(obj, s), 1.0)]
  {
    var target := DropTarget(obj, s);
    assert forall i :: 0 <= i < |allTiles| ==> !Occupies(allTiles[i], obj, target);
    assert !HasNeighbor(allTiles, obj, target);
  }

  /** The handler for `object:modified`. A drop over the trash removes the tile and stops
      there; any other drop resets the drag styling and then runs the drop decision. */
  function OnObjectModified(ev: DragEvent, trash: Option<ClientRect>, allTiles: seq<ShapedTile>, s: real): (effs: seq<Effect>)
    requires IsSqrt3(s)
    ensures ClearGhosts in effs && effs[|effs| - 1] != SetTrashHovered(true)
    ensures IsOverTrash(trash, Some(ev)) ==>
              effs[0] == RemoveTile(ev.target.data.id) && forall e :: e in effs ==> !IsDropEffect(e)
    ensures !IsOverTrash(trash, Some(ev)) ==>
              |effs| == 4 && effs[..3] == [ClearGhosts, SetOpacity(1.0), SetTrashHovered(false)]
              && effs[3..] == HandleDropLogic(ev.target, allTiles, s)
              && forall e :: e in effs ==> !e.RemoveTile?
  {
    if IsOverTrash(trash, Some(ev)) then
      [RemoveTile(ev.target.data.id), RemoveFromCanvas, RequestRender, ClearGhosts, SetTrashHovered(false)]
    else
      [ClearGhosts, SetOpacity(1.0), SetTrashHovered(false)] + HandleDropLogic(ev.target, allTiles, s)
  }

  /** The handler for `mouse:down`: focus the pressed tile, if any. */
  function OnMouseDown(target: Option<PressTarget>): (effs: seq<Effect>)
    ensures |effs| <= 1
    ensures |effs| == 1 <==> target.Some? && Truthy(target.value.dataId)
    ensures |effs| == 1 ==> effs[0] == SetFocus(target.value.dataId.value)
  {
    if target.Some? && Truthy(target.value.dataId) then [SetFocus(target.value.dataId.value)] else []
  }

  /** The handler for `mouse:dblclick`: edit the pressed tile, otherwise return to overview. */
  function OnDblClick(target: Option<PressTarget>): (effs: seq<Effect>)
    ensures |effs| == 1
    ensures effs[0].OpenEditModal? <==> target.Some? && Truthy(target.value.dataId)
    ensures effs[0].OpenEditModal? ==> effs[0].id == target.value.dataId.value
    ensures !(target.Some? && Truthy(target.value.dataId)) ==> effs[0] == SetOverview
  {
    if target.Some? && Truthy(target.value.dataId) then [OpenEditModal(target.value.dataId.value)] else [SetOverview]
  }
}
