/**
  `ImageCropView`: the zoomable image view in which the user drags a crop
  rectangle of the current crop spec. Pointer positions arrive already mapped
  to scene coordinates (`pos`) together with the widget pixel they came from
  (`at`); the scroll-bar panning itself is not part of this model, only the
  flags and anchors that decide what a pointer event does.
*/
module CropView {
  import opened Wrappers
  import opened CropGeometry
  import opened Zoom

  datatype Button = LeftButton | RightButton | OtherButton

  /** A widget pixel, as a mouse event's `pos()` gives it. */
  datatype Pixel = Pixel(px: int, py: int)

  /** The crop spec a new view starts with, before the dialog sets its own. */
  const InitialCropSide: int := 2048

  /**
    Whether an anchor point is present and truthy: PyQt gives QPoint and
    QPointF the truth value `not isNull()`, so an anchor at the origin counts
    as absent.
  */
  predicate PointSet(p: Option<Point>) {
    p.Some? && p.value != Point(0.0, 0.0)
  }

  predicate PixelSet(p: Option<Pixel>) {
    p.Some? && p.value != Pixel(0, 0)
  }

  /** Whether the image item contains a scene point (an opaque image: its bounding rectangle). */
  predicate InImage(p: Point, imgW: int, imgH: int) {
    0.0 <= p.x < imgW as real && 0.0 <= p.y < imgH as real
  }

  /** Everything the event handlers change, as one value. */
  datatype ViewState = ViewState(
    cropW: int, cropH: int,
    rect: Option<Rect>,
    startPos: Option<Point>, lastPanPoint: Option<Pixel>,
    dragging: bool, panning: bool,
    scale: real)

  class ImageCropView {
    const imgW: int
    const imgH: int
    var cropW: int
    var cropH: int
    var rect: Option<Rect>            // crop_rect_item
    var startPos: Option<Point>       // start_pos
    var lastPanPoint: Option<Pixel>   // last_pan_point
    var dragging: bool                // is_dragging
    var panning: bool                 // is_panning
    var scale: real                   // transform().m11()

    /** The view's invariant: a rectangle, when there is one, has the spec's size and lies inside the image. */
    ghost predicate Valid()
      reads this
    {
      && 0 < imgW && 0 < imgH
      && 0 < cropW && 0 < cropH
      && 0.0 < scale
      && (rect.Some? ==> Settled(rect.value, cropW, cropH, imgW, imgH))
    }

    function State(): ViewState
      reads this
    {
      ViewState(cropW, cropH, rect, startPos, lastPanPoint, dragging, panning, scale)
    }

    /** A view of an imgW x imgH image, fitted at `fitScale`, with no rectangle and no gesture under way. */
    constructor (imgW: int, imgH: int, fitScale: real)
      requires 0 < imgW && 0 < imgH && 0.0 < fitScale
      ensures Valid()
      ensures this.imgW == imgW && this.imgH == imgH
      ensures State() == ViewState(InitialCropSide, InitialCropSide, None, None, None, false, false, fitScale)
    {
      this.imgW, this.imgH := imgW, imgH;
      cropW, cropH := InitialCropSide, InitialCropSide;
      rect, startPos, lastPanPoint := None, None, None;
      dragging, panning := false, false;
      scale := fitScale;
    }

    /** `set_crop_size`: adopt the new spec; an existing rectangle is re-sized about its centre and clamped. */
    method SetCropSize(width: int, height: int)
      requires Valid() && 0 < width && 0 < height
      modifies this
      ensures Valid()
      ensures State() == old(State()).(cropW := width, cropH := height,
                                       rect := ResizeRect(old(rect), width, height, imgW, imgH))
    {
      cropW, cropH := width, height;
      rect := ResizeRect(rect, width, height, imgW, imgH);
    }

    /**
      `mousePressEvent`. A plain left press inside the image starts a drag and
      discards the rectangle; a left press with exactly Ctrl held inside the
      image, or a right press anywhere, starts panning; anything else changes
      nothing.
    */
    method Press(button: Button, pos: Point, at: Pixel, ctrlOnly: bool)
      requires Valid()
      modifies this
      ensures Valid()
      ensures button == LeftButton && InImage(pos, imgW, imgH) && !ctrlOnly ==>
                State() == old(State()).(startPos := Some(pos), dragging := true, rect := None)
      ensures (button == LeftButton && InImage(pos, imgW, imgH) && ctrlOnly) || button == RightButton ==>
                State() == old(State()).(panning := true, lastPanPoint := Some(at))
      ensures (button == LeftButton && !InImage(pos, imgW, imgH)) || button == OtherButton ==>
                State() == old(State())
    {
      if button == LeftButton {
        if InImage(pos, imgW, imgH) {
          if ctrlOnly {
            panning := true;
            lastPanPoint := Some(at);
          } else {
            startPos := Some(pos);
            dragging := true;
            rect := None;
          }
        }
      } else if button == RightButton {
        panning := true;
        lastPanPoint := Some(at);
      }
    }

    /**
      `mouseMoveEvent`. While panning from a set anchor the view scrolls (not
      modelled) and the anchor follows the pointer; otherwise, while dragging
      from a set start, the rectangle is replaced by the spec centred on the
      pointer and clamped into the image.
    */
    method Move(pos: Point, at: Pixel)
      requires Valid()
      modifies this
      ensures Valid()
      ensures old(panning) && PixelSet(old(lastPanPoint)) ==>
                State() == old(State()).(lastPanPoint := Some(at))
      ensures !(old(panning) && PixelSet(old(lastPanPoint))) && old(dragging) && PointSet(old(startPos)) ==>
                State() == old(State()).(rect := Some(DragRect(pos, cropW, cropH, imgW, imgH)))
      ensures !(old(panning) && PixelSet(old(lastPanPoint))) && !(old(dragging) && PointSet(old(startPos))) ==>
                State() == old(State())
    {
      if panning && PixelSet(lastPanPoint) {
        lastPanPoint := Some(at);
      } else if dragging && PointSet(startPos) {
        rect := Some(DragRect(pos, cropW, cropH, imgW, imgH));
      }
    }

    /** `mouseReleaseEvent`: a left release ends both gestures, a right release ends panning; the rectangle stays. */
    method Release(button: Button)
      requires Valid()
      modifies this
      ensures Valid()
      ensures button == LeftButton ==> State() == old(State()).(dragging := false, panning := false)
      ensures button == RightButton ==> State() == old(State()).(panning := false)
      ensures button == OtherButton ==> State() == old(State())
    {
      if button == LeftButton {
        dragging := false;
        panning := false;
      } else if button == RightButton {
        panning := false;
      }
    }

    /** `wheelEvent`: one bounded zoom step; nothing else changes. */
    method Wheel(deltaY: int)
      requires Valid()
      modifies this
      ensures Valid()
      ensures State() == old(State()).(scale := WheelZoom(old(scale), deltaY))
    {
      scale := WheelZoom(scale, deltaY);
    }

    /** `keyPressEvent`; `fitScale` is the scale `fitInView` would pick for the current window. */
    method Key(key: Key, fitScale: real)
      requires Valid() && 0.0 < fitScale
      modifies this
      ensures Valid()
      ensures State() == old(State()).(scale := KeyZoom(old(scale), key, fitScale))
    {
      scale := KeyZoom(scale, key, fitScale);
    }

    /** `fitInView` with the aspect ratio kept, as the dialog does on every resize. */
    method FitInView(fitScale: real)
      requires Valid() && 0.0 < fitScale
      modifies this
      ensures Valid()
      ensures State() == old(State()).(scale := fitScale)
    {
      scale := fitScale;
    }

    /**
      `get_crop_rect`: nothing while there is no rectangle; otherwise whole
      pixels that stay inside the image and have the spec's size, cut down
      only where the image is smaller.
    */
    function CropRect(): (b: Option<Box>)
      reads this
      requires Valid()
      ensures b.None? <==> rect.None?
      ensures b.Some? ==> BoxInside(b.value, imgW, imgH)
      ensures b.Some? ==> b.value.w == MinInt(cropW, imgW) && b.value.h == MinInt(cropH, imgH)
    {
      match rect
      case None => None
      case Some(r) =>
        SettledBoxInside(r, cropW, cropH, imgW, imgH);
        Some(ToBox(r))
    }
  }
}
