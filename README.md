# Tile wall editor: grid, store, drag-and-drop, ghost slots and camera

The editor builds a wall of tiles on a fabric.js canvas. Its core has these parts, each modelled here:

- Hexagon and square grids: pixel ↔ cell conversions, neighbours and distances.
- A zustand store holding the tile list:
  - `addTile`, which places a new tile on a free cell next to an existing tile;
  - `removeTile`, `updateTileContent`, `moveOrSwapTile` and `addRingAround`;
  - `generateOrderPayload`;
  - the focus and overview view states.
- The drop decision taken when a dragged tile is released: swap with the tile at the target cell, move to a free neighbouring cell, or revert to its old position.
- The canvas event handlers: client coordinates, the trash hit-test, and the handlers for moving, modifying, mouse-down and double-click.
- The "ghost slots" drawn while a tile is dragged. There are two copies, the `useGhostManager` hook and the module-level `GhostManager`.
- The camera that frames the focused tile or the whole wall. There are two copies, the module-level `CameraController` and the `useCameraController` hook.

How the model is written:

- Pure helpers are Dafny functions with lemmas about them.
- Loops in the source become methods with loop invariants, proved against those functions:
  - the candidate search of `findClosestEmptySpot`;
  - the retry walk of `addTile`;
  - the ring collection of `addRingAround`;
  - the ghost-cell collection and drawing loops;
  - the extent fold of the camera.
- Objects whose fields change in place are classes with `modifies` frames:
  - the store;
  - the ghost hook and the ghost ref;
  - the canvas viewport (an `array<real>` of six entries);
  - the camera controller's `activeAnimation`.

Modelling conventions:

- √3 is a parameter `s` constrained by `IsSqrt3(s)`, i.e. `s > 0` and `s * s == 3`.
- Floating point is modelled by exact reals.
- `Math.round(v)` is `floor(v + 1/2)`.
- `Math.hypot(dx, dy) < d` is compared on squares, as `dx² + dy² < d²`. `GhostSlots.HypotComparison` shows the two agree.
- A JavaScript `Set` or `Map` filled key by key is a duplicate-free sequence in insertion order (`Common.InsertAll`).
- A stable sort followed by taking element `[0]` is the first candidate that no other candidate beats (`Placement.BestOf`).
- `crypto.randomUUID()` becomes a caller-supplied id (`newId`), or an id function `ids: nat -> TileId` for `addRingAround`.

Facts about the code that the proofs bring out:

- The `addTile` retry loop never runs more than once. `CollisionWalk` (in `Placement`) proves `attempts <= 1`.
- The "no free cell" early return is unreachable. `ResolvePlacement` proves that `placed` is always true.
- In both ghost managers the highlight distance comes out as 60 px for hexagons and 96 px for every other shape. The square "radius" `SIZE / 2` of `useGhostManager.js` is computed and never used.
- The hex highlight is exclusive: at most one hex ghost lights up (`HexHighlightExclusive`). Square highlights can overlap (`SquareHighlightOverlap`).
- `CameraController` clamps the zoom to [0.5, 2.5]. The lower clamp can leave the framed box larger than the canvas (`ClampedBoxOverflows`).
- The hook only limits the zoom from above. Its framed box therefore always fits (`HookBoxFits`), at any zoom however small (`NoLowerLimit`).
- The hooks `useCanvasEvents` and `useGhostManager` read their tile list from the store (`useAppStore.getState().tiles`). Store tiles are `{id, q, r, content}`, with no `shape` and no `x`, `y`. As written, a hex drop in the hook therefore always reverts (`CanvasEvents.ShapelessTilesRevertHexDrop`) and a hex drag draws no ghost (`GhostSlots.ShapelessTilesNoHexGhosts`). A square drop also always reverts, because `t.x === x` never holds for an undefined `x`. A square drag collapses all candidate keys into the one key `"NaN,NaN"`.
- A move or a removal can disconnect the wall: after either, some tile may touch no tile before it (`AppStore.MoveCanDisconnect`, `AppStore.RemoveCanDisconnect`). Unique ids and cells are the invariant every store operation keeps, given fresh ids for AddTile and AddRingAround (`AppStore.Store.Valid`).
- `GhostManager.showGhostSlots` with no canvas throws at its first canvas call. `GhostManager.ShowGhostSlots` returns `ok == false` in that case and leaves the ref unchanged.

## Model

| member | source | states |
|---|---|---|
| HexMath.EffectiveRadius | src/utils/hexMath.js:17-19 | the effective hex size is the radius plus half the gap, 76.5 |
| HexMath.Neighbors | src/utils/hexMath.js:82-87 | six neighbours, the i-th being the cell offset by the i-th direction |
| HexMath.NeighborsDistinct | src/utils/hexMath.js:12-15 | the six neighbours are pairwise distinct and never the cell itself |
| HexMath.DirectionsClosedUnderNegation | src/utils/hexMath.js:12-15 | the opposite of every direction is again a direction |
| HexMath.NeighborSymmetry | src/utils/hexMath.js:82-87 | adjacency is symmetric |
| HexMath.NeighborsAtDistanceOne | src/utils/hexMath.js:82-87 | a cell is a neighbour exactly when its cube distance is 1 |
| HexMath.CubeRound | src/utils/hexMath.js:56-77 | the rounded cube coordinates always sum to zero, at least two of them are the plain roundings, and, for inputs summing to zero, each lies within one of its input |
| HexMath.AxialRound | src/utils/hexMath.js:56-77 | each axial coordinate lies within one of `Math.round` of its input |
| HexMath.AxialRoundOfIntegers | src/utils/hexMath.js:56-77 | rounding an integral cell returns that cell |
| HexMath.HexRoundTrip | src/utils/hexMath.js:32-51 | `pixelToHex(hexToPixel(q, r))` is `(q, r)` for every cell and centre |
| HexMath.NeighborCentresEquidistant | src/utils/hexMath.js:32-37 | every neighbour's centre is √3·76.5 pixels from the cell's centre |
| SquareMath.SquareToPixel | src/utils/squareMath.js:8-13 | a cell's centre is the grid centre offset by 120 pixels per step |
| SquareMath.SquareRoundTrip | src/utils/squareMath.js:8-22 | `pixelToSquare(squareToPixel(x, y))` is `(x, y)` |
| SquareMath.AxisCatchment | src/utils/squareMath.js:18-22 | a coordinate snaps back to its cell exactly for offsets in [-60, 60) |
| SquareMath.SquareCatchment | src/utils/squareMath.js:18-22 | a point snaps to a cell exactly when it lies in the half-open 120-pixel square around its centre |
| SquareMath.SquareNeighbors | src/utils/squareMath.js:27-41 | eight neighbours |
| SquareMath.SquareNeighborsAreMoore | src/utils/squareMath.js:27-41 | a cell is a neighbour exactly when it differs by at most one in each axis and is not the cell itself |
| SquareMath.SquareNeighborsDistinct | src/utils/squareMath.js:27-41 | the eight neighbours are distinct and never the cell itself |
| SquareMath.SquareNeighborSymmetry | src/utils/squareMath.js:27-41 | square adjacency is symmetric |
| SquareMath.SquareDistance | src/utils/squareMath.js:46-48 | the Manhattan distance is zero exactly for equal cells |
| SquareMath.SquareDistanceSymmetric | src/utils/squareMath.js:46-48 | the distance is symmetric |
| Shapes.CoordOf | src/utils/dropLogic.js:12-36 | a tile's cell is a hex cell exactly in the hex family |
| Shapes.NeighborCoords | src/utils/dropLogic.js:23-44 | six neighbours for a hex cell, eight for a square one, all of the same family |
| Shapes.NeighborCoordsSymmetric | src/utils/dropLogic.js:23-44 | the neighbours of either family are distinct, exclude the cell, and are symmetric |
| Shapes.HexNeighborCoordsAtDistanceOne | src/utils/hexMath.js:82-87 | a hex cell's neighbours are exactly the hex cells at distance 1 |
| Shapes.PixelToCoord | src/utils/dropLogic.js:13-30 | the snapped cell belongs to the requested family |
| Shapes.CoordRoundTrip | src/utils/dropLogic.js:13-36 | snapping a cell's centre returns the cell, in either family |
| StoreTiles.MoveOrSwap | src/store/useAppStore.js:155-180 | ids, order and contents are kept, the dragged tile lands on the target, and an unknown id changes nothing |
| StoreTiles.SwapExchangesCells | src/store/useAppStore.js:160-170 | dropping on an occupied cell exchanges exactly the two tiles' cells, keeps the set of cells and keeps the layout well formed |
| StoreTiles.MoveChangesOnlyDragged | src/store/useAppStore.js:171-177 | dropping on a free cell moves only the dragged tile, replacing its old cell by the target in the set of cells |
| StoreTiles.MoveOrSwapWellFormed | src/store/useAppStore.js:155-180 | every move-or-swap call keeps ids and cells unique |
| StoreTiles.RemoveById | src/store/useAppStore.js:108-113 | the list never grows |
| StoreTiles.RemoveByIdMembers | src/store/useAppStore.js:108-113 | exactly the tiles with other ids remain |
| StoreTiles.RemoveByIdAppend | src/store/useAppStore.js:108-113 | the filter distributes over concatenation |
| StoreTiles.RemoveByIdWellFormed | src/store/useAppStore.js:108-113 | removal keeps ids and cells unique |
| StoreTiles.UpdateContent | src/store/useAppStore.js:115-121 | only the matching tile's content becomes `{type, data}`; ids and cells are kept |
| StoreTiles.UpdateContentKeepsLayout | src/store/useAppStore.js:115-121 | the set of cells, uniqueness and adjacency growth are all preserved |
| StoreTiles.GenerateOrderPayload | src/store/useAppStore.js:126-137 | the payload carries the settings and, per tile in order, its cell, content type and content data |
| StoreTiles.PayloadCoversCells | src/store/useAppStore.js:126-137 | the payload covers exactly the occupied cells and ignores tile ids |
| Placement.DistToCenterExact | src/store/useAppStore.js:232 | the halved sum is exact (the sum is even) and equals the hex distance to the origin |
| Placement.FrontierUpToSpec | src/store/useAppStore.js:222-251 | after each tile the candidate keys are duplicate-free and are exactly the free neighbours of the tiles seen so far |
| Placement.FrontierSpec | src/store/useAppStore.js:222-251 | the candidates are exactly the free cells next to some tile, each once |
| Placement.FrontierNonEmpty | src/store/useAppStore.js:222-251 | a non-empty wall always has a free neighbour |
| Placement.BestOfSpec | src/store/useAppStore.js:253-266 | the chosen candidate is beaten by none, and strictly beats every earlier one, as the stable sort's head does |
| Placement.ClosestEmptySpotSpec | src/store/useAppStore.js:214-267 | for a non-empty wall the spot is free, touches a tile, and has maximal occupied-neighbour count, then minimal distance to the centre |
| Placement.SingleTileFrontier | src/store/useAppStore.js:222-251 | next to a single tile the candidates are its six neighbours, each touching one occupied cell |
| Placement.ClosestFromOrigin | src/store/useAppStore.js:214-267 | next to a lone tile at the origin the chosen spot is (1, 0) |
| Placement.CountOccupied | src/store/useAppStore.js:235-239 | the loop counts the occupied neighbours |
| Placement.AddCandidates | src/store/useAppStore.js:225-250 | the map gains each new free key once, in order, with its score, and its keys match the key order |
| Placement.SelectBest | src/store/useAppStore.js:253-266 | the scan returns the candidate the sort puts first |
| Placement.FindClosestEmptySpot | src/store/useAppStore.js:214-267 | the origin for an empty wall, otherwise a free cell next to a tile, equal to the specification |
| Placement.RingCandidates | src/store/useAppStore.js:183-195 | exactly the free neighbours of the wall, each once, in insertion order |
| Placement.WalkedIsFree | src/store/useAppStore.js:46-71 | from an occupied start the walk ends on a free cell next to a tile |
| Placement.PlacementTargetSpec | src/store/useAppStore.js:29-93 | the chosen cell is always free and, on a non-empty wall, always touches a tile; on an empty wall it is the requested cell |
| Placement.PlacementTargetCases | src/store/useAppStore.js:46-93 | an occupied request walks, a free adjacent request is kept, a free detached one is replaced by the closest empty spot |
| Placement.FirstFreeNeighbor | src/store/useAppStore.js:53-61 | the inner loop stops at the first free neighbour, in direction order |
| Placement.CollisionWalk | src/store/useAppStore.js:42-71 | the retry loop ends on a free cell after at most one round, and after none when the start is free |
| Placement.ResolvePlacement | src/store/useAppStore.js:29-93 | the final occupancy check always passes and the target is free and adjacent |
| AppStore.AddTileSpec | src/store/useAppStore.js:29-106 | one empty tile with the new id is appended on a new cell touching the wall; uniqueness and adjacency growth are kept |
| AppStore.FirstTwoTiles | src/store/useAppStore.js:29-106 | the first tile goes to (0, 0) and the second to (1, 0) |
| AppStore.RingCells | src/store/useAppStore.js:197-204 | the k-th ring tile sits on the k-th candidate key |
| AppStore.RingAroundSpec | src/store/useAppStore.js:182-207 | the ring covers exactly the free cells next to the wall, once each, with content `{type: 'empty'}`, after which every neighbour of an old tile is occupied |
| AppStore.RingAroundGrown | src/store/useAppStore.js:182-207 | every added tile touches the wall as it was |
| AppStore.RingAroundWellFormed | src/store/useAppStore.js:182-207 | with fresh ids the wall keeps unique ids and cells |
| AppStore.RowIsWall | src/store/useAppStore.js:79-93 | a row of three tiles is a well-formed, connected wall |
| AppStore.MoveCanDisconnect | src/store/useAppStore.js:171-177 | moving the first tile of a row past its far end keeps uniqueness but leaves the middle tile touching no earlier tile |
| AppStore.RemoveCanDisconnect | src/store/useAppStore.js:108-113 | removing the middle tile of a row leaves its two ends apart |
| AppStore.Store.constructor | src/store/useAppStore.js:4-17 | the initial state: no tiles, default settings, nothing selected, overview, with the invariant holding |
| AppStore.Store.OrderPayload | src/store/useAppStore.js:126-137 | the payload carries the current settings and one entry per tile |
| AppStore.Store.AddTile | src/store/useAppStore.js:29-106 | the tile list becomes its specification, nothing else changes, the invariant is kept for a fresh id, and connectivity is kept |
| AppStore.Store.RemoveTile | src/store/useAppStore.js:108-113 | the id is filtered out and the selection cleared, nothing else changes, and the invariant is kept |
| AppStore.Store.UpdateTileContent | src/store/useAppStore.js:115-121 | only contents change; the invariant and connectivity are kept |
| AppStore.Store.MoveOrSwapTile | src/store/useAppStore.js:155-180 | the list becomes the move-or-swap of the old list, nothing else changes, and the invariant is kept |
| AppStore.Store.AddRingAround | src/store/useAppStore.js:182-207 | the ring is appended; connectivity is kept, and the invariant too for fresh ids |
| AppStore.Store.SetFocus | src/store/useAppStore.js:209 | focused mode on the given tile, nothing else changes |
| AppStore.Store.SetOverview | src/store/useAppStore.js:210 | overview mode with no focused tile, nothing else changes |
| DropLogic.TargetTile | src/utils/dropLogic.js:21 | a tile of the family, other than the dragged tile, on the target cell; none exactly when no such tile exists |
| DropLogic.Decide | src/utils/dropLogic.js:47-64 | swap exactly when another tile of the family occupies the target; move exactly when it is free and borders such a tile; otherwise revert to the old position |
| DropLogic.StoreCall | src/utils/dropLogic.js:47-64 | the store is called exactly for a swap or a move |
| DropLogic.RevertReturnsHome | src/utils/dropLogic.js:19-36 | a reverted tile goes back to its own cell's centre |
| DropLogic.DropIgnoresOtherTiles | src/utils/dropLogic.js:21-44 | tiles of the other family and tiles with the dragged id never change the decision |
| DropLogic.HexSwapScenario | src/utils/dropLogic.js:47-55 | dropping onto a neighbouring occupied hex swaps the two tiles |
| DropLogic.HexMoveScenario | src/utils/dropLogic.js:56-59 | dragging the first tile of a two-tile row one cell past the row's far end (two east of the dragged tile) moves it |
| DropLogic.HexRevertScenario | src/utils/dropLogic.js:60-64 | dropping it two cells past the row's far end reverts |
| DropLogic.HexCentreSnaps | src/utils/dropLogic.js:13-19 | a tile released on a cell centre snaps to that cell |
| CanvasEvents.GetClientCoords | src/components/Canvas/hooks/useCanvasEvents.js:19-41 | the first active touch, else the first changed touch, else the mouse position |
| CanvasEvents.IsOverTrash | src/components/Canvas/hooks/useCanvasEvents.js:44-60 | false without a trash element or an event, otherwise inclusive containment of the event's client point |
| CanvasEvents.TouchEndOverTrash | src/components/Canvas/hooks/useCanvasEvents.js:19-60 | a finger lifted on the trash's corner still counts as over the trash |
| CanvasEvents.OnObjectMoving | src/components/Canvas/hooks/useCanvasEvents.js:67-85 | dims the tile, leaves focus mode, sets the hover flag, then clears the ghosts when over the trash and shows them otherwise |
| CanvasEvents.HandleDropLogic | src/components/Canvas/hooks/useCanvasEvents.js:144-184 | one store call exactly when the target is occupied or bordered, otherwise one animation back to the old position |
| CanvasEvents.ShapelessTilesRevertHexDrop | src/components/Canvas/hooks/useCanvasEvents.js:145-183 | over tiles with no `'hex'` tag, such as the store's, every hex drop animates back |
| CanvasEvents.OutcomeEffects | src/utils/dropLogic.js:47-64 | a swap or move becomes one store call, a revert one animation |
| CanvasEvents.HandleDropLogicAgrees | src/components/Canvas/hooks/useCanvasEvents.js:144-184 | the hook's decision and `handleTileDrop` make the same call on every drop |
| CanvasEvents.OnObjectModified | src/components/Canvas/hooks/useCanvasEvents.js:88-110 | over the trash the tile is removed and no drop decision runs; otherwise the styling is reset and then the drop decision runs, with no removal |
| CanvasEvents.OnMouseDown | src/components/Canvas/hooks/useCanvasEvents.js:112-116 | focuses the pressed tile exactly when it has an id |
| CanvasEvents.OnDblClick | src/components/Canvas/hooks/useCanvasEvents.js:119-127 | opens the editor for a tile with an id, otherwise returns to overview |
| GhostSlots.GhostCellsUpToSpec | src/components/Canvas/hooks/useGhostManager.js:31-58 | after each tile the candidates are duplicate-free and are exactly the unoccupied cells bordering an other tile of the family seen so far |
| GhostSlots.GhostCellsSpec | src/components/Canvas/hooks/useGhostManager.js:31-58 | the ghost cells are duplicate-free, of the dragged tile's family, never an occupied cell, and exactly the free cells bordering another tile of the family |
| GhostSlots.GhostsAreFreeMoveTargets | src/utils/dropLogic.js:23-64 | a cell has a ghost exactly when a drop there moves the tile and no tile of the family occupies it |
| GhostSlots.ShapelessTilesNoHexGhosts | src/components/Canvas/hooks/useGhostManager.js:23-45 | over tiles with no `'hex'` tag, such as the store's, a hex drag has no ghost cell |
| GhostSlots.NoSpawnsNoGhosts | src/components/Canvas/hooks/useGhostManager.js:33-39 | with no tile offering neighbours, the candidate set stays empty |
| GhostSlots.CollectGhostCells | src/components/Canvas/GhostManager.js:14-72 | the collection loop computes the candidate cells |
| GhostSlots.TriggerDistance | src/components/Canvas/hooks/useGhostManager.js:72-74 | the highlight distance is 60 for hexagons and 96 otherwise |
| GhostSlots.HypotComparison | src/components/Canvas/hooks/useGhostManager.js:73-76 | comparing a distance with a positive bound is comparing its square |
| GhostSlots.GhostFor | src/components/Canvas/hooks/useGhostManager.js:69-86 | a ghost sits on its cell's centre and is highlighted exactly within the trigger distance |
| GhostSlots.GhostsOf | src/components/Canvas/hooks/useGhostManager.js:41-64 | one ghost per cell, in order |
| GhostSlots.HexCentreSpacing | src/utils/hexMath.js:32-37 | the squared distance between hex centres is 3·76.5² times the hex norm of their difference |
| GhostSlots.TriangleSquared | src/components/Canvas/hooks/useGhostManager.js:73-76 | a squared distance is at most twice the sum of squared distances via a third point |
| GhostSlots.HexHighlightExclusive | src/components/Canvas/GhostManager.js:38-40 | no point is within 60 pixels of two distinct hex centres |
| GhostSlots.SquareHighlightOverlap | src/components/Canvas/GhostManager.js:80-82 | the midpoint of two adjacent square centres is within 96 pixels of both |
| GhostSlots.Without | src/components/Canvas/GhostManager.js:103-110 | one `canvas.remove` keeps exactly the other objects |
| GhostSlots.RemovedSpec | src/components/Canvas/GhostManager.js:103-110 | removing the tracked ghosts keeps exactly the objects that are not among them |
| GhostSlots.RemovedIsKept | src/components/Canvas/GhostManager.js:103-110 | removing one by one equals filtering in one pass |
| GhostSlots.ShowThenClear | src/components/Canvas/GhostManager.js:33-110 | drawing ghosts and then clearing them restores the canvas |
| GhostSlots.RemoveAll | src/components/Canvas/GhostManager.js:103-110 | the removal loop leaves the canvas without the tracked ghosts |
| GhostSlots.AddToBack | src/components/Canvas/hooks/useGhostManager.js:83-84 | `add` then `sendToBack` puts the ghost at the bottom |
| GhostSlots.Reversed | src/components/Canvas/hooks/useGhostManager.js:83-84 | ghosts sent to the back one by one end in reverse order |
| UseGhostManager.GhostHook.constructor | src/components/Canvas/hooks/useGhostManager.js:8 | the ref starts empty |
| UseGhostManager.GhostHook.ClearGhosts | src/components/Canvas/hooks/useGhostManager.js:10-15 | without a canvas nothing changes; otherwise the tracked ghosts leave the canvas and the list is emptied |
| UseGhostManager.GhostHook.CreateAndAddGhost | src/components/Canvas/hooks/useGhostManager.js:69-86 | one ghost, highlighted exactly within the trigger distance, is put at the back and tracked |
| UseGhostManager.GhostHook.ShowGhostSlots | src/components/Canvas/hooks/useGhostManager.js:17-66 | without a canvas nothing changes; otherwise the old ghosts are cleared and exactly the candidate ghosts are drawn and tracked |
| UseGhostManager.GhostHook.DrawCells | src/components/Canvas/hooks/useGhostManager.js:41-64 | the drawing loops add one tracked ghost per cell, in order |
| UseGhostManager.DrawnGhostsMatchCandidates | src/components/Canvas/hooks/useGhostManager.js:31-86 | one ghost per candidate cell, no cell twice, each highlighted exactly within the trigger distance |
| GhostManager.ClearGhosts | src/components/Canvas/GhostManager.js:103-110 | without a canvas nothing changes; otherwise the tracked ghosts leave the canvas and the ref is emptied |
| GhostManager.ShowGhostSlots | src/components/Canvas/GhostManager.js:8-101 | succeeds exactly with a canvas; then the old ghosts are cleared and exactly the candidate ghosts are drawn and tracked |
| GhostManager.DrawGhosts | src/components/Canvas/GhostManager.js:33-96 | the drawing loops add one tracked ghost per cell, in order |
| GhostManager.DrawGhost | src/components/Canvas/GhostManager.js:33-54 | one ghost, highlighted exactly within 0.8 of the radius or size, is put at the back and tracked |
| Framing.TileRectsSpec | src/components/Canvas/CameraController.js:54-63 | the rectangles are those of the objects with an id, and there are none exactly when no object has one |
| Framing.ExtentOfSpec | src/components/Canvas/CameraController.js:51-63 | the extent is absent only for no rectangles, and otherwise bounds every rectangle and is attained |
| Framing.ExtentOrdered | src/components/Canvas/CameraController.js:51-63 | for rectangles of non-negative size the extent's minimum is at most its maximum |
| Framing.UnionExtent | src/components/Canvas/CameraController.js:51-63 | the loop reports tiles exactly when an object has an id, and then computes their extent |
| Framing.GrowBounds | src/components/Canvas/CameraController.js:58-61 | one step of the fold widens the extent to the rectangle |
| Framing.PadRect | src/components/Canvas/CameraController.js:37-44 | the focus box surrounds the tile's rectangle by the padding on every side |
| Framing.PadExtent | src/components/Canvas/CameraController.js:65-72 | the overview box surrounds the extent by the padding on every side |
| Framing.FocusTarget | src/components/Canvas/CameraController.js:33-36 | a focus target exists only in focused mode with a truthy id, and is the first object with that id; none exactly when no object has it |
| Framing.TargetBoundsSpec | src/components/Canvas/CameraController.js:30-75 | there is a box exactly when focusing finds the tile or some object has an id; the box always has positive size |
| Framing.ComputeTargetBounds | src/components/Canvas/CameraController.js:30-75 | the method computes the target box |
| Framing.CentringPan | src/components/Canvas/CameraController.js:89-93 | the pan puts the box's centre at the canvas centre |
| Framing.FitZoom | src/components/Canvas/CameraController.js:84-86 | the largest zoom at which the box fits in both directions, with one of them exact |
| Framing.CentredBoxFits | src/components/Canvas/CameraController.js:84-93 | at any zoom up to the fit zoom the centred box lies within the canvas |
| Framing.LerpEnds | src/components/Canvas/CameraController.js:119-121 | the interpolation starts at the current value and ends at the final one |
| Framing.FrameAt | src/components/Canvas/CameraController.js:118-127 | the first frame is the current view and the last is the final view |
| Framing.Canvas.SetZoomAndPan | src/components/Canvas/CameraController.js:106-108 | zoom and pan entries are set and the skew entries kept |
| Framing.Canvas.ResetViewport | src/components/Canvas/CameraController.js:24 | the viewport becomes zoom 1 centred on the canvas |
| Framing.Canvas.ApplyFrame | src/components/Canvas/CameraController.js:118-126 | the viewport shows the interpolated frame |
| CameraController.ClampZoom | src/components/Canvas/CameraController.js:87 | the zoom lies in [0.5, 2.5] and is unchanged inside that range |
| CameraController.Plan | src/components/Canvas/CameraController.js:84-97 | records the current view; the final zoom is the clamped fit zoom and the final pan centres the box |
| CameraController.PlannedBoxFits | src/components/Canvas/CameraController.js:84-93 | when the fit zoom is at least 0.5 the framed box lies within the canvas |
| CameraController.ClampedBoxOverflows | src/components/Canvas/CameraController.js:87 | when the fit zoom is below 0.5 the zoom is 0.5 and the box overflows the canvas |
| CameraController.CameraController.constructor | src/components/Canvas/CameraController.js:7 | no animation is active |
| CameraController.CameraController.UpdateCamera | src/components/Canvas/CameraController.js:9-81 | drops the active animation handle; resets with no tiles; otherwise frames the target box, jumping when the change is negligible and animating otherwise |
| CameraController.CameraController.AnimateCamera | src/components/Canvas/CameraController.js:83-135 | negligible changes are applied at once; otherwise the planned animation becomes active and the view is untouched |
| CameraController.CameraController.OnAnimationComplete | src/components/Canvas/CameraController.js:128-131 | the active animation is cleared |
| UseCameraController.LimitZoom | src/components/Canvas/hooks/useCameraController.js:63 | the zoom is at most 2.5 and never above the input, which is kept up to 2.5 |
| UseCameraController.HookPlan | src/components/Canvas/hooks/useCameraController.js:60-73 | records the current view; the final zoom is the fit zoom capped at 2.5 and the pan centres the box |
| UseCameraController.HookBoxFits | src/components/Canvas/hooks/useCameraController.js:60-69 | the framed box always lies within the canvas |
| UseCameraController.NoLowerLimit | src/components/Canvas/hooks/useCameraController.js:63 | a box ten times wider than the canvas is framed at zoom 0.1 |
| UseCameraController.PlanMove | src/components/Canvas/hooks/useCameraController.js:60-73 | the zoom and pan computed step by step are the planned move, fit zoom capped at 2.5 with the box centred |
| UseCameraController.UpdateCamera | src/components/Canvas/hooks/useCameraController.js:6-95 | does nothing without a canvas, resets with no tiles, and otherwise starts the planned animation from the current view |

## Left out

- Rendering is not modelled:
  - the fabric objects' drawing, opacity and scale styling, stroke colours;
  - `requestRenderAll` and `setCoords`;
  - easing curves and animation durations.
  The handlers record the calls they make as a list of effects instead.
- Logging (`Logger`, `console`) is not modelled.
- The React wiring is not modelled: `useEffect`, `setTimeout` and the refs' lifetimes.
- `fabric.util.cancelAnimFrame` is not modelled. Cancelling drops the animation handle. The callbacks of an animation that keeps running after it is handed over are not modelled.
- Animation frames between the two ends are not modelled.
- `ShapeFactory.createGhost` and `TileFactory.createGhost` build the drawn object and are not part of this model. A ghost is its cell, centre, shape and highlight flag. The factories' `null` for unknown shapes is not modelled.
- Canvas tile objects are not on `GhostCanvas`. Only ghosts are tracked there.
- `selectTile`, `setWallColor`, `setGlobalSetting`, `fetchPriceFromBackend`, `wallColor`, `totalPrice` and `isCalculating` are not modelled. They are plain field writes or a mocked network call outside the placement and layout logic.
- `openEditModal` is not modelled beyond the effect that requests it. It belongs to the editing UI.
- Only the parts of `hexMath.js` and `squareMath.js` used by the core are modelled. The hexagon outline helpers and the size getters only produce drawing data.
- The tiles in the store carry no shape, and the canvas tiles carry one. The store therefore works on the hex grid only, as its code does (`getNeighbors`).
- CanvasEvents.HandleDropLogic and UseGhostManager.GhostHook.ShowGhostSlots take their tile list as a parameter standing for shaped canvas tiles. The code passes the store's shapeless tiles instead (`useAppStore.getState().tiles`). As written, the hook's drops therefore always revert and it draws no hex ghosts (see `ShapelessTilesRevertHexDrop` and `ShapelessTilesNoHexGhosts`). Undefined `x`, `y` coordinates and the resulting `"NaN,NaN"` square key cannot be expressed over integer coordinates, so they are not modelled.
- GhostSlots.Without: compares canvas objects by value and drops every equal copy, while fabric's `canvas.remove(g)` removes the one object `g` by identity. Object identity is not modelled. The two agree while the canvas holds no two equal ghosts. For one manager this holds: the drawn cells are duplicate-free (`GhostCellsSpec`), and `ShowThenClear` requires the canvas to hold none of the drawn ghosts beforehand.
- `handleDropLogic` calls `moveOrSwapTile(id, targetCoord)`, which does not match the store's `(draggedId, targetQ, targetR)` signature. The effect `MoveOrSwapTile(id, target)` records the call as the handler makes it.
- `dropLogic.js` uses `fabric` without importing it. The revert is modelled as the animation the code evidently means.
- `canvas.setZoom` is modelled as writing the zoom entries only. Fabric also rescales the pan around the origin, but the code overwrites both pan entries right after every call.
- Framing.LerpEnds: states only the two ends of the interpolation, not that intermediate frames lie between them, because the frames at intermediate progress values are not modelled.
- Framing.FrameAt: states the first and last frames only, for the same reason.
- Floating point is modelled by exact reals. Rounding error in `Math.hypot`, in the division by √3 and in `Math.round` of near-half values is not modelled.
- `crypto.randomUUID` is a parameter. Uniqueness of the generated ids is an assumption of `AddTile` and `RingAroundWellFormed` rather than a theorem.
