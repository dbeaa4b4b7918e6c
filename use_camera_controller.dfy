/** The `useCameraController` hook: the same framing rule as `CameraController` on the
    objects' own rectangles, with a 50 focus padding, an upper zoom limit only, no
    shortcut for small changes and no animation handle. */
module UseCameraController {
  import opened Common
  import opened StoreTiles
  import opened Framing

  /** The padding around a focused tile's own rectangle. */
  const FOCUS_PADDING: real := 50.0
  /** The only zoom limit of this revision. */
  const MAX_ZOOM: real := 2.5

  /** `Math.min(zoom, 2.5)`. */
  function LimitZoom(zoom: real): (z: real)
    ensures z <= MAX_ZOOM && z <= zoom
    ensures zoom <= MAX_ZOOM ==> z == zoom
    ensures zoom > MAX_ZOOM ==> z == MAX_ZOOM
  {
    Min(zoom, 2.5)
  }

  /** The camera move the hook starts for a box. */
  function HookPlan(box: Rect, w: real, h: real, currentZoom: real, currentPanX: real, currentPanY: real): (a: CameraAnimation)
    requires box.width > 0.0 && box.height > 0.0
    ensures a.currentZoom == currentZoom && a.currentPanX == currentPanX && a.currentPanY == currentPanY
    ensures a.finalZoom <= MAX_ZOOM && a.finalZoom <= FitZoom(box, w, h)
    ensures FitZoom(box, w, h) <= MAX_ZOOM ==> a.finalZoom == FitZoom(box, w, h)
    ensures a.finalPanX + Centre(box).x * a.finalZoom == w / 2.0
    ensures a.finalPanY + Centre(box).y * a.finalZoom == h / 2.0
  {
    var zoom := LimitZoom(FitZoom(box, w, h));
    var pan := CentringPan(box, w, h, zoom);
    CameraAnimation(currentZoom, currentPanX, currentPanY, zoom, pan.x, pan.y)
  }

  /** Without a lower limit the planned camera always shows the whole box. */
  lemma HookBoxFits(box: Rect, w: real, h: real, currentZoom: real, currentPanX: real, currentPanY: real)
    requires box.width > 0.0 && box.height > 0.0 && w >= 0.0 && h >= 0.0
    ensures var a := HookPlan(box, w, h, currentZoom, currentPanX, currentPanY);
            0.0 <= box.left * a.finalZoom + a.finalPanX && (box.left + box.width) * a.finalZoom + a.finalPanX <= w
            && 0.0 <= box.top * a.finalZoom + a.finalPanY && (box.top + box.height) * a.finalZoom + a.finalPanY <= h
  {
    var a := HookPlan(box, w, h, currentZoom, currentPanX, currentPanY);
    assert a.finalZoom >= 0.0 by {
      assert w / box.width >= 0.0 && h / box.height >= 0.0;
      assert FitZoom(box, w, h) >= 0.0;
    }
    CentredBoxFits(box, w, h, a.finalZoom);
  }

  /** The hook zooms out past the other revision's lower limit of 0.5: a box ten times
      wider than the viewport is shown at zoom 0.1. */
  lemma NoLowerLimit(w: real)
    requires w > 0.0
    ensures HookPlan(Rect(0.0, 0.0, 10.0 * w, w), w, w, 1.0, 0.0, 0.0).finalZoom == 0.1
  {
    var box := Rect(0.0, 0.0, 10.0 * w, w);
    assert w / box.width == 0.1;
    assert w / box.height == 1.0;
  }

  /** The zoom and pan `updateCamera` computes for a box, step by step. */
  method PlanMove(box: Rect, w: real, h: real, currentZoom: real, currentPanX: real, currentPanY: real)
    returns (move: CameraAnimation)
    requires box.width > 0.0 && box.height > 0.0
    ensures move == HookPlan(box, w, h, currentZoom, currentPanX, currentPanY)
  {
    var scaleX := w / box.width;
    var scaleY := h / box.height;
    var zoom := Min(scaleX, scaleY);
    var finalZoom := Min(zoom, 2.5);

    var centerX := box.left + box.width / 2.0;
    var centerY := box.top + box.height / 2.0;

    var finalPanX := w / 2.0 - centerX * finalZoom;
    var finalPanY := h / 2.0 - centerY * finalZoom;

    assert finalZoom == LimitZoom(FitZoom(box, w, h));
    assert Point(finalPanX, finalPanY) == CentringPan(box, w, h, finalZoom);
    move := CameraAnimation(currentZoom, currentPanX, currentPanY, finalZoom, finalPanX, finalPanY);
  }

  /** `updateCamera`. Without a canvas nothing happens; with no tiles the viewport is
      reset; otherwise the target box (the focused tile's rectangle padded by 50, else
      all tiles padded by 150) is framed by an animation, returned here as the move it
      runs. Starting it does not change the viewport. */
  method UpdateCamera(canvas: Canvas?, tiles: seq<Tile>, viewMode: ViewMode, focusedTileId: Option<TileId>)
    returns (started: Option<CameraAnimation>)
    requires canvas != null ==> canvas.Valid() && SizesNonNegative(canvas.objects)
    modifies if canvas != null then {canvas.viewportTransform} else {}
    ensures canvas == null ==> started.None?
    ensures canvas != null && tiles == [] ==>
              started.None?
              && canvas.viewportTransform[..] == [1.0, 0.0, 0.0, 1.0, canvas.width / 2.0, canvas.height / 2.0]
    ensures canvas != null && tiles != [] ==>
              var box := TargetBounds(canvas.objects, viewMode, focusedTileId, false, FOCUS_PADDING);
              var before := old(canvas.viewportTransform[..]);
              canvas.viewportTransform[..] == before
              && (box.None? ==> started.None?)
              && (box.Some? ==>
                    box.value.width > 0.0 && box.value.height > 0.0
                    && started == Some(HookPlan(box.value, canvas.width, canvas.height, before[0], before[4], before[5])))
  {
    started := None;
    if canvas == null {
      return;
    }
    if |tiles| == 0 {
      canvas.ResetViewport();
      return;
    }
    var targetBounds := ComputeTargetBounds(canvas.objects, viewMode, focusedTileId, false, FOCUS_PADDING);
    if targetBounds.Some? {
      TargetBoundsSpec(canvas.objects, viewMode, focusedTileId, false, FOCUS_PADDING);
      var box := targetBounds.value;
      var move := PlanMove(box, canvas.width, canvas.height, canvas.Zoom(), canvas.viewportTransform[4], canvas.viewportTransform[5]);
      started := Some(move);
    }
  }
}
