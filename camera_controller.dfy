/** `CameraController`: frames the focused tile or all tiles by animating the canvas
    viewport, and keeps one module-level handle to the running animation. */
module CameraController {
  import opened Common
  import opened StoreTiles
  import opened Framing

  /** The padding around a focused tile's bounding rectangle. */
  const FOCUS_PADDING: real := 80.0
  /** The zoom range of this revision. */
  const MIN_ZOOM: real := 0.5
  const MAX_ZOOM: real := 2.5

  /** `Math.min(Math.max(zoom, 0.5), 2.5)`. */
  function ClampZoom(zoom: real): (z: real)
    ensures MIN_ZOOM <= z <= MAX_ZOOM
    ensures MIN_ZOOM <= zoom <= MAX_ZOOM ==> z == zoom
    ensures zoom < MIN_ZOOM ==> z == MIN_ZOOM
    ensures zoom > MAX_ZOOM ==> z == MAX_ZOOM
  {
    Min(Max(zoom, 0.5), 2.5)
  }

  /** The camera move `animateCamera` plans for a box: from the current zoom and pan to
      the clamped fitting zoom, with the box centred in the viewport. */
  function Plan(box: Rect, w: real, h: real, currentZoom: real, currentPanX: real, currentPanY: real): (a: CameraAnimation)
    requires box.width > 0.0 && box.height > 0.0
    ensures a.currentZoom == currentZoom && a.currentPanX == currentPanX && a.currentPanY == currentPanY
    ensures MIN_ZOOM <= a.finalZoom <= MAX_ZOOM
    ensures MIN_ZOOM <= FitZoom(box, w, h) <= MAX_ZOOM ==> a.finalZoom == FitZoom(box, w, h)
    ensures a.finalPanX + Centre(box).x * a.finalZoom == w / 2.0
    ensures a.finalPanY + Centre(box).y * a.finalZoom == h / 2.0
  {
    var zoom := ClampZoom(FitZoom(box, w, h));
    var pan := CentringPan(box, w, h, zoom);
    CameraAnimation(currentZoom, currentPanX, currentPanY, zoom, pan.x, pan.y)
  }

  /** The change is too small to animate: zoom within 0.01, both pans within 5. */
  predicate Negligible(a: CameraAnimation) {
    Abs(a.finalZoom - a.currentZoom) < 0.01 && Abs(a.finalPanX - a.currentPanX) < 5.0
    && Abs(a.finalPanY - a.currentPanY) < 5.0
  }

  /** When the fitting zoom is not below the lower clamp, the planned camera shows the
      whole box. */
  lemma PlannedBoxFits(box: Rect, w: real, h: real, currentZoom: real, currentPanX: real, currentPanY: real)
    requires box.width > 0.0 && box.height > 0.0 && FitZoom(box, w, h) >= MIN_ZOOM
    ensures var a := Plan(box, w, h, currentZoom, currentPanX, currentPanY);
            0.0 <= box.left * a.finalZoom + a.finalPanX && (box.left + box.width) * a.finalZoom + a.finalPanX <= w
            && 0.0 <= box.top * a.finalZoom + a.finalPanY && (box.top + box.height) * a.finalZoom + a.finalPanY <= h
  {
    var a := Plan(box, w, h, currentZoom, currentPanX, currentPanY);
    assert a.finalZoom <= FitZoom(box, w, h);
    CentredBoxFits(box, w, h, a.finalZoom);
  }

  /** When the fitting zoom is below the lower clamp, the planned camera cannot show the
      whole box: at zoom 0.5 it is wider or taller than the viewport. */
  lemma ClampedBoxOverflows(box: Rect, w: real, h: real, currentZoom: real, currentPanX: real, currentPanY: real)
    requires box.width > 0.0 && box.height > 0.0 && FitZoom(box, w, h) < MIN_ZOOM
    ensures var a := Plan(box, w, h, currentZoom, currentPanX, currentPanY);
            a.finalZoom == MIN_ZOOM && (box.width * a.finalZoom > w || box.height * a.finalZoom > h)
  {
    if w / box.width < MIN_ZOOM {
      assert w == (w / box.width) * box.width;
      assert (w / box.width) * box.width < MIN_ZOOM * box.width;
    } else {
      assert h / box.height < MIN_ZOOM;
      assert h == (h / box.height) * box.height;
      assert (h / box.height) * box.height < MIN_ZOOM * box.height;
    }
  }

  /** The module state: `activeAnimation`, the handle of the running camera animation,
      here the move it was started with. */
  class CameraController {
    var activeAnimation: Option<CameraAnimation>

    constructor()
      ensures activeAnimation.None?
    {
      activeAnimation := None;
    }

    /** `updateCamera`. Without a canvas nothing happens. Otherwise the running animation
        is dropped first; with no tiles the viewport is reset; otherwise the target box
        (the focused tile's bounding rectangle padded by 80, else all tiles padded by 150)
        is framed by `animateCamera`. */
    method UpdateCamera(canvas: Canvas?, tiles: seq<Tile>, viewMode: ViewMode, focusedTileId: Option<TileId>)
      requires canvas != null ==> canvas.Valid() && SizesNonNegative(canvas.objects)
      modifies this, if canvas != null then {canvas.viewportTransform} else {}
      ensures canvas == null ==> activeAnimation == old(activeAnimation)
      ensures canvas != null && tiles == [] ==>
                activeAnimation.None?
                && canvas.viewportTransform[..] == [1.0, 0.0, 0.0, 1.0, canvas.width / 2.0, canvas.height / 2.0]
      ensures canvas != null && tiles != [] ==>
                var box := TargetBounds(canvas.objects, viewMode, focusedTileId, true, FOCUS_PADDING);
                (box.None? ==> activeAnimation.None? && canvas.viewportTransform[..] == old(canvas.viewportTransform[..]))
                && (box.Some? ==>
                      box.value.width > 0.0 && box.value.height > 0.0
                      && var before := old(canvas.viewportTransform[..]);
                         var plan := Plan(box.value, canvas.width, canvas.height, before[0], before[4], before[5]);
                         (Negligible(plan) ==>
                            activeAnimation.None?
                            && canvas.viewportTransform[..] == before[0 := plan.finalZoom][3 := plan.finalZoom][4 := plan.finalPanX][5 := plan.finalPanY])
                         && (!Negligible(plan) ==> activeAnimation == Some(plan) && canvas.viewportTransform[..] == before))
    {
      if canvas == null {
        return;
      }
      if activeAnimation.Some? {
        activeAnimation := None;
      }
      if |tiles| == 0 {
        canvas.ResetViewport();
        return;
      }
      var targetBounds := ComputeTargetBounds(canvas.objects, viewMode, focusedTileId, true, FOCUS_PADDING);
      if targetBounds.Some? {
        TargetBoundsSpec(canvas.objects, viewMode, focusedTileId, true, FOCUS_PADDING);
        AnimateCamera(canvas, targetBounds.value);
      }
    }
  
    /** `animateCamera`: zoom to fit the box, clamped to [0.5, 2.5], and centre it. A
        negligible change is applied at once and leaves the handle as it was; any other
        change starts an animation from the current zoom and pan and stores its handle. */
    method AnimateCamera(canvas: Canvas, targetBounds: Rect)
      requires canvas.Valid() && targetBounds.width > 0.0 && targetBounds.height > 0.0
      modifies this, canvas.viewportTransform
      ensures var before := old(canvas.viewportTransform[..]);
              var plan := Plan(targetBounds, canvas.width, canvas.height, before[0], before[4], before[5]);
              (Negligible(plan) ==>
                 activeAnimation == old(activeAnimation)
                 && canvas.viewportTransform[..] == before[0 := plan.finalZoom][3 := plan.finalZoom][4 := plan.finalPanX][5 := plan.finalPanY])
              && (!Negligible(plan) ==> activeAnimation == Some(plan) && canvas.viewportTransform[..] == before)
    {
      var scaleX := canvas.width / targetBounds.width;
      var scaleY := canvas.height / targetBounds.height;
      var zoom := Min(scaleX, scaleY);
      var finalZoom := Min(Max(zoom, 0.5), 2.5);

      var centerX := targetBounds.left + targetBounds.width / 2.0;
      var centerY := targetBounds.top + targetBounds.height / 2.0;

      var finalPanX := canvas.width / 2.0 - centerX * finalZoom;
      var finalPanY := canvas.height / 2.0 - centerY * finalZoom;

      var currentZoom := canvas.Zoom();
      var currentPanX := canvas.viewportTransform[4];
      var currentPanY := canvas.viewportTransform[5];

      assert finalZoom == ClampZoom(FitZoom(targetBounds, canvas.width, canvas.height));
      assert Point(finalPanX, finalPanY) == CentringPan(targetBounds, canvas.width, canvas.height, finalZoom);
      var move := CameraAnimation(currentZoom, currentPanX, currentPanY, finalZoom, finalPanX, finalPanY);
      assert move == Plan(targetBounds, canvas.width, canvas.height, currentZoom, currentPanX, currentPanY);

      var zoomDiff := Abs(finalZoom - currentZoom);
      var panDiffX := Abs(finalPanX - currentPanX);
      var panDiffY := Abs(finalPanY - currentPanY);

      if zoomDiff < 0.01 && panDiffX < 5.0 && panDiffY < 5.0 {
        canvas.SetZoomAndPan(finalZoom, finalPanX, finalPanY);
        return;
      }

      activeAnimation := Some(move);
    }

    /** The `onComplete` callback: the handle is cleared. */
    method OnAnimationComplete()
      modifies this
      ensures activeAnimation.None?
    {
      activeAnimation := None;
    }
  }
}
