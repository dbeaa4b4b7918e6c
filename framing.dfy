/** Camera framing shared by both camera revisions: the box to frame (one padded focused
    tile, or the padded union of every tile object), the pan that centres a box, linear
    interpolation, and the canvas viewport the camera writes. */
module Framing {
  import opened Common

  /** An axis-aligned box: `left`, `top`, `width`, `height`. */
  datatype Rect = Rect(left: real, top: real, width: real, height: real)

  /** An object on the canvas: its `data.id` (absent for ghosts and decorations), its own
      `left/top/width/height`, and its `getBoundingRect()`. */
  datatype CanvasObject = CanvasObject(dataId: Option<TileId>, left: real, top: real, width: real, height: real, bounds: Rect)

  /** The rectangle a revision reads off an object: the bounding rect, or the object's own
      position and size. */
  function RectOf(o: CanvasObject, useBoundingRect: bool): Rect {
    if useBoundingRect then o.bounds else Rect(o.left, o.top, o.width, o.height)
  }

  /** Fabric never reports a negative size. */
  predicate SizesNonNegative(objs: seq<CanvasObject>) {
    forall i :: 0 <= i < |objs| ==>
      objs[i].width >= 0.0 && objs[i].height >= 0.0 && objs[i].bounds.width >= 0.0 && objs[i].bounds.height >= 0.0
  }

  /** The rectangles of the tile objects, in canvas order. */
  function TileRects(objs: seq<CanvasObject>, useBoundingRect: bool): seq<Rect>
    decreases |objs|
  {
    if objs == [] then []
    else
      var last := objs[|objs| - 1];
      var init := TileRects(objs[..|objs| - 1], useBoundingRect);
      if Truthy(last.dataId) then init + [RectOf(last, useBoundingRect)] else init
  }

  /** The rectangles are those of the tile objects, and there are none exactly when no
      object is a tile. */
  lemma {:induction false} TileRectsSpec(objs: seq<CanvasObject>, useBoundingRect: bool)
    ensures TileRects(objs, useBoundingRect) == [] <==> forall i :: 0 <= i < |objs| ==> !Truthy(objs[i].dataId)
    ensures forall r :: r in TileRects(objs, useBoundingRect) <==>
              exists i :: 0 <= i < |objs| && Truthy(objs[i].dataId) && r == RectOf(objs[i], useBoundingRect)
    decreases |objs|
  {
    if objs != [] {
      var init := objs[..|objs| - 1];
      TileRectsSpec(init, useBoundingRect);
      assert forall i :: 0 <= i < |objs| - 1 ==> init[i] == objs[i];
    }
  }

  /** Running `minX, minY, maxX, maxY`. */
  datatype Extent = Extent(minX: real, minY: real, maxX: real, maxY: real)

  /** One step of the min/max update. `None` stands for the initial infinities, which
      every comparison replaces. */
  function Grow(acc: Option<Extent>, r: Rect): Extent {
    match acc
    case None => Extent(r.left, r.top, r.left + r.width, r.top + r.height)
    case Some(e) =>
      Extent(if r.left < e.minX then r.left else e.minX,
             if r.top < e.minY then r.top else e.minY,
             if r.left + r.width > e.maxX then r.left + r.width else e.maxX,
             if r.top + r.height > e.maxY then r.top + r.height else e.maxY)
  }

  /** The extent of the rectangles: the fold of `Grow` over them in order. */
  function ExtentOf(rs: seq<Rect>): Option<Extent>
    decreases |rs|
  {
    if rs == [] then None else Some(Grow(ExtentOf(rs[..|rs| - 1]), rs[|rs| - 1]))
  }

  /** The extent is the tight bounding box: it contains every rectangle and each of its
      four sides is reached by one of them. */
  lemma {:induction false} ExtentOfSpec(rs: seq<Rect>)
    ensures ExtentOf(rs).None? <==> rs == []
    ensures ExtentOf(rs).Some? ==>
              var e := ExtentOf(rs).value;
              (forall r :: r in rs ==>
                 e.minX <= r.left && e.minY <= r.top && r.left + r.width <= e.maxX && r.top + r.height <= e.maxY)
              && (exists r :: r in rs && r.left == e.minX)
              && (exists r :: r in rs && r.top == e.minY)
              && (exists r :: r in rs && r.left + r.width == e.maxX)
              && (exists r :: r in rs && r.top + r.height == e.maxY)
    decreases |rs|
  {
    if rs != [] {
      var init := rs[..|rs| - 1];
      var last := rs[|rs| - 1];
      ExtentOfSpec(init);
      assert forall r :: r in rs <==> r in init || r == last;
    }
  }

  /** Non-negative sizes give a non-negative extent. */
  lemma {:induction false} ExtentOrdered(rs: seq<Rect>)
    requires forall r :: r in rs ==> r.width >= 0.0 && r.height >= 0.0
    ensures ExtentOf(rs).Some? ==>
              ExtentOf(rs).value.minX <= ExtentOf(rs).value.maxX && ExtentOf(rs).value.minY <= ExtentOf(rs).value.maxY
  {
    ExtentOfSpec(rs);
    if rs != [] {
      assert rs[0] in rs;
    }
  }

  /** The `forEach` over the canvas objects that accumulates the extent of the tile objects. */
  method UnionExtent(objs: seq<CanvasObject>, useBoundingRect: bool)
    returns (hasTiles: bool, minX: real, minY: real, maxX: real, maxY: real)
    ensures hasTiles <==> exists i :: 0 <= i < |objs| && Truthy(objs[i].dataId)
    ensures hasTiles ==> ExtentOf(TileRects(objs, useBoundingRect)) == Some(Extent(minX, minY, maxX, maxY))
  {
    hasTiles := false;
    minX, minY, maxX, maxY := 0.0, 0.0, 0.0, 0.0;
    var i := 0;
    while i < |objs|
      invariant 0 <= i <= |objs|
      invariant hasTiles <==> TileRects(objs[..i], useBoundingRect) != []
      invariant hasTiles ==> ExtentOf(TileRects(objs[..i], useBoundingRect)) == Some(Extent(minX, minY, maxX, maxY))
    {
      TileRectsSnoc(objs, i, useBoundingRect);
      var obj := objs[i];
      ghost var prev := TileRects(objs[..i], useBoundingRect);
      if Truthy(obj.dataId) {
        var first := !hasTiles;
        hasTiles := true;
        var bounds := RectOf(obj, useBoundingRect);
        assert (prev + [bounds])[..|prev|] == prev;
        assert ExtentOf(prev + [bounds]) == Some(Grow(ExtentOf(prev), bounds));
        assert ExtentOf(prev) == if first then None else Some(Extent(minX, minY, maxX, maxY));
        minX, minY, maxX, maxY := GrowBounds(first, minX, minY, maxX, maxY, bounds);
        assert TileRects(objs[..i + 1], useBoundingRect) == prev + [bounds];
      } else {
        assert TileRects(objs[..i + 1], useBoundingRect) == prev + [];
        assert prev + [] == prev;
      }
      i := i + 1;
    }
    assert objs[..|objs|] == objs;
    TileRectsSpec(objs, useBoundingRect);
  }

  /** The four comparisons of one `forEach` step; on the first tile they all succeed,
      as they do against the initial infinities. */
  method GrowBounds(first: bool, minX: real, minY: real, maxX: real, maxY: real, bounds: Rect)
    returns (minX': real, minY': real, maxX': real, maxY': real)
    ensures Extent(minX', minY', maxX', maxY') == Grow(if first then None else Some(Extent(minX, minY, maxX, maxY)), bounds)
  {
    minX', minY', maxX', maxY' := minX, minY, maxX, maxY;
    if first || bounds.left < minX { minX' := bounds.left; }
    if first || bounds.top < minY { minY' := bounds.top; }
    if first || bounds.left + bounds.width > maxX { maxX' := bounds.left + bounds.width; }
    if first || bounds.top + bounds.height > maxY { maxY' := bounds.top + bounds.height; }
  }

  lemma TileRectsSnoc(objs: seq<CanvasObject>, i: nat, useBoundingRect: bool)
    requires i < |objs|
    ensures TileRects(objs[..i + 1], useBoundingRect)
            == TileRects(objs[..i], useBoundingRect) + (if Truthy(objs[i].dataId) then [RectOf(objs[i], useBoundingRect)] else [])
  {
    assert objs[..i + 1][..i] == objs[..i];
  }

  /** `rect` grown by `padding` on every side. */
  function PadRect(r: Rect, padding: real): (box: Rect)
    ensures box.left + padding == r.left && box.top + padding == r.top
    ensures box.left + box.width == r.left + r.width + padding
    ensures box.top + box.height == r.top + r.height + padding
  {
    Rect(r.left - padding, r.top - padding, r.width + padding * 2.0, r.height + padding * 2.0)
  }

  /** The extent grown by `padding` on every side. */
  function PadExtent(e: Extent, padding: real): (box: Rect)
    ensures box.left + padding == e.minX && box.top + padding == e.minY
    ensures box.left + box.width == e.maxX + padding && box.top + box.height == e.maxY + padding
  {
    Rect(e.minX - padding, e.minY - padding, (e.maxX - e.minX) + padding * 2.0, (e.maxY - e.minY) + padding * 2.0)
  }

  /** The padding around the union of all tiles in overview. */
  const OVERVIEW_PADDING: real := 150.0

  /** `o` is an object of `objs` and no object before it has the id `id`. */
  predicate FirstWithId(objs: seq<CanvasObject>, o: CanvasObject, id: Option<TileId>) {
    exists k :: 0 <= k < |objs| && objs[k] == o && forall j :: 0 <= j < k ==> objs[j].dataId != id
  }

  /** The object a focused camera frames: the first object whose `data.id` is the focused id. */
  function FocusTarget(objs: seq<CanvasObject>, viewMode: ViewMode, focusedTileId: Option<TileId>): (t: Option<CanvasObject>)
    ensures t.Some? ==> viewMode == Focused && Truthy(focusedTileId) && t.value in objs
                        && t.value.dataId == focusedTileId && Truthy(t.value.dataId)
    ensures t.Some? ==> FirstWithId(objs, t.value, focusedTileId)
    ensures viewMode == Focused && Truthy(focusedTileId) && t.None? ==>
              forall i :: 0 <= i < |objs| ==> objs[i].dataId != focusedTileId
  {
    if viewMode == Focused && Truthy(focusedTileId) then Find(objs, (o: CanvasObject) => o.dataId == focusedTileId)
    else None
  }

  /** `targetBounds`: the focused tile padded by `focusPadding`, else the union of all tile
      objects padded by 150, else nothing. */
  function TargetBounds(objs: seq<CanvasObject>, viewMode: ViewMode, focusedTileId: Option<TileId>,
                        useBoundingRect: bool, focusPadding: real): Option<Rect>
  {
    match FocusTarget(objs, viewMode, focusedTileId)
    case Some(o) => Some(PadRect(RectOf(o, useBoundingRect), focusPadding))
    case None =>
      match ExtentOf(TileRects(objs, useBoundingRect))
      case None => None
      case Some(e) => Some(PadExtent(e, OVERVIEW_PADDING))
  }

  /** There is a box to frame exactly when some object on the canvas is a tile. A focused
      box surrounds its tile by `focusPadding` on every side; any other box surrounds every
      tile by 150, and touches one tile at that distance on each side. Boxes have positive
      size when the padding is positive. */
  lemma TargetBoundsSpec(objs: seq<CanvasObject>, viewMode: ViewMode, focusedTileId: Option<TileId>,
                         useBoundingRect: bool, focusPadding: real)
    requires SizesNonNegative(objs) && focusPadding > 0.0
    ensures var box := TargetBounds(objs, viewMode, focusedTileId, useBoundingRect, focusPadding);
            (box.None? <==> forall i :: 0 <= i < |objs| ==> !Truthy(objs[i].dataId))
            && (box.Some? ==> box.value.width > 0.0 && box.value.height > 0.0)
    ensures var box := TargetBounds(objs, viewMode, focusedTileId, useBoundingRect, focusPadding);
            var t := FocusTarget(objs, viewMode, focusedTileId);
            t.Some? ==> box == Some(PadRect(RectOf(t.value, useBoundingRect), focusPadding))
    ensures var box := TargetBounds(objs, viewMode, focusedTileId, useBoundingRect, focusPadding);
            var rs := TileRects(objs, useBoundingRect);
            FocusTarget(objs, viewMode, focusedTileId).None? && box.Some? ==>
              (forall r :: r in rs ==>
                 box.value.left + OVERVIEW_PADDING <= r.left && box.value.top + OVERVIEW_PADDING <= r.top
                 && r.left + r.width + OVERVIEW_PADDING <= box.value.left + box.value.width
                 && r.top + r.height + OVERVIEW_PADDING <= box.value.top + box.value.height)
              && (exists r :: r in rs && box.value.left + OVERVIEW_PADDING == r.left)
              && (exists r :: r in rs && r.left + r.width + OVERVIEW_PADDING == box.value.left + box.value.width)
  {
    var rs := TileRects(objs, useBoundingRect);
    TileRectsSpec(objs, useBoundingRect);
    ExtentOfSpec(rs);
    forall r | r in rs ensures r.width >= 0.0 && r.height >= 0.0 {
      var i :| 0 <= i < |objs| && Truthy(objs[i].dataId) && r == RectOf(objs[i], useBoundingRect);
    }
    ExtentOrdered(rs);
    var t := FocusTarget(objs, viewMode, focusedTileId);
    if t.Some? {
      var i :| 0 <= i < |objs| && objs[i] == t.value;
    }
  }

  /** Computes the box to frame the way both revisions do: look for the focused tile,
      otherwise accumulate the extent of all tile objects. */
  method ComputeTargetBounds(objs: seq<CanvasObject>, viewMode: ViewMode, focusedTileId: Option<TileId>,
                             useBoundingRect: bool, focusPadding: real) returns (targetBounds: Option<Rect>)
    ensures targetBounds == TargetBounds(objs, viewMode, focusedTileId, useBoundingRect, focusPadding)
  {
    targetBounds := None;
    if viewMode == Focused && Truthy(focusedTileId) {
      var targetObj := Find(objs, (o: CanvasObject) => o.dataId == focusedTileId);
      if targetObj.Some? {
        targetBounds := Some(PadRect(RectOf(targetObj.value, useBoundingRect), focusPadding));
      }
    }
    if targetBounds.None? {
      var hasTiles, minX, minY, maxX, maxY := UnionExtent(objs, useBoundingRect);
      if hasTiles {
        targetBounds := Some(PadExtent(Extent(minX, minY, maxX, maxY), OVERVIEW_PADDING));
      } else {
        TileRectsSpec(objs, useBoundingRect);
      }
    }
  }

  /** The centre of a box. */
  function Centre(box: Rect): Point {
    Point(box.left + box.width / 2.0, box.top + box.height / 2.0)
  }

  /** The pan that puts the box centre, scaled by `zoom`, at the middle of a `w` by `h`
      viewport. */
  function CentringPan(box: Rect, w: real, h: real, zoom: real): (pan: Point)
    ensures pan.x + Centre(box).x * zoom == w / 2.0
    ensures pan.y + Centre(box).y * zoom == h / 2.0
  {
    var c := Centre(box);
    Point(w / 2.0 - c.x * zoom, h / 2.0 - c.y * zoom)
  }

  /** `Math.min(w / bw, h / bh)`: the largest zoom at which the box fits the viewport. */
  function FitZoom(box: Rect, w: real, h: real): (zoom: real)
    requires box.width > 0.0 && box.height > 0.0
    ensures zoom * box.width <= w && zoom * box.height <= h
    ensures zoom * box.width == w || zoom * box.height == h
  {
    Min(w / box.width, h / box.height)
  }

  /** At a zoom no larger than the fitting zoom, the centred box lies inside the viewport. */
  lemma CentredBoxFits(box: Rect, w: real, h: real, zoom: real)
    requires box.width > 0.0 && box.height > 0.0 && 0.0 <= zoom <= FitZoom(box, w, h)
    ensures var pan := CentringPan(box, w, h, zoom);
            0.0 <= box.left * zoom + pan.x && (box.left + box.width) * zoom + pan.x <= w
            && 0.0 <= box.top * zoom + pan.y && (box.top + box.height) * zoom + pan.y <= h
  {
    var f := FitZoom(box, w, h);
    assert zoom * box.width <= f * box.width;
    assert zoom * box.height <= f * box.height;
  }

  /** Linear interpolation from `a` to `b` at progress `t`. */
  function Lerp(a: real, b: real, t: real): real {
    a + (b - a) * t
  }

  /** Interpolation starts at `a` and ends at `b`. */
  lemma LerpEnds(a: real, b: real)
    ensures Lerp(a, b, 0.0) == a && Lerp(a, b, 1.0) == b
  {
  }

  /** The two ends of a camera move: the zoom and pan when it started and the target.
      It is what the `onChange` closure captures. */
  datatype CameraAnimation = CameraAnimation(currentZoom: real, currentPanX: real, currentPanY: real,
                                             finalZoom: real, finalPanX: real, finalPanY: real)

  /** The zoom and pan of one animation frame. */
  function FrameAt(a: CameraAnimation, value: real): (f: (real, real, real))
    ensures value == 0.0 ==> f == (a.currentZoom, a.currentPanX, a.currentPanY)
    ensures value == 1.0 ==> f == (a.finalZoom, a.finalPanX, a.finalPanY)
  {
    LerpEnds(a.currentZoom, a.finalZoom);
    LerpEnds(a.currentPanX, a.finalPanX);
    LerpEnds(a.currentPanY, a.finalPanY);
    (Lerp(a.currentZoom, a.finalZoom, value), Lerp(a.currentPanX, a.finalPanX, value), Lerp(a.currentPanY, a.finalPanY, value))
  }

  /** The fabric canvas as the camera sees it: its size, its objects and its viewport
      transform `[a, b, c, d, e, f]` (zoom in `a` and `d`, pan in `e` and `f`). */
  class Canvas {
    var width: real
    var height: real
    var objects: seq<CanvasObject>
    const viewportTransform: array<real>

    constructor(width: real, height: real, objects: seq<CanvasObject>)
      ensures this.width == width && this.height == height && this.objects == objects
      ensures fresh(viewportTransform) && viewportTransform[..] == [1.0, 0.0, 0.0, 1.0, 0.0, 0.0]
    {
      this.width := width;
      this.height := height;
      this.objects := objects;
      viewportTransform := new real[6] [1.0, 0.0, 0.0, 1.0, 0.0, 0.0];
    }

    predicate Valid()
      reads this
    {
      viewportTransform.Length == 6
    }

    /** `getZoom()`. */
    function Zoom(): real
      requires Valid()
      reads this, viewportTransform
    {
      viewportTransform[0]
    }

    /** `setZoom(z)` followed by writing both pan entries: the zoom goes to `a` and `d`,
        the pan to `e` and `f`, and `b`, `c` are kept. */
    method SetZoomAndPan(zoom: real, panX: real, panY: real)
      requires Valid()
      modifies viewportTransform
      ensures viewportTransform[..] == old(viewportTransform[..])[0 := zoom][3 := zoom][4 := panX][5 := panY]
    {
      viewportTransform[0] := zoom;
      viewportTransform[3] := zoom;
      viewportTransform[4] := panX;
      viewportTransform[5] := panY;
    }

    /** `setViewportTransform([1, 0, 0, 1, width / 2, height / 2])`. */
    method ResetViewport()
      requires Valid()
      modifies viewportTransform
      ensures viewportTransform[..] == [1.0, 0.0, 0.0, 1.0, width / 2.0, height / 2.0]
    {
      viewportTransform[0], viewportTransform[1], viewportTransform[2] := 1.0, 0.0, 0.0;
      viewportTransform[3], viewportTransform[4], viewportTransform[5] := 1.0, width / 2.0, height / 2.0;
    }

    /** The `onChange` callback of a camera animation at progress `value`. */
    method ApplyFrame(a: CameraAnimation, value: real)
      requires Valid()
      modifies viewportTransform
      ensures var f := FrameAt(a, value);
              viewportTransform[..] == old(viewportTransform[..])[0 := f.0][3 := f.0][4 := f.1][5 := f.2]
    {
      var frame := FrameAt(a, value);
      SetZoomAndPan(frame.0, frame.1, frame.2);
    }
  }
}
