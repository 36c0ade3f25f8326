/**
  Scene geometry of the crop view. The image occupies the scene rectangle
  (0, 0, imgW, imgH); pointer positions, rectangles and centres are scene
  coordinates, kept as exact reals. Every rectangle the view draws goes through
  one clamp: take the crop spec's size, cut it down only where the image is
  smaller, then slide the origin back inside the image.
*/
module CropGeometry {
  import opened Wrappers

  datatype Point = Point(x: real, y: real)

  /** A QRectF: top-left corner and size. */
  datatype Rect = Rect(x: real, y: real, w: real, h: real)

  /** The `(x, y, w, h)` tuple of whole pixels that the view reports to the dialog. */
  datatype Box = Box(x: int, y: int, w: int, h: int)

  function MinInt(a: int, b: int): int { if a <= b then a else b }
  function MaxInt(a: int, b: int): int { if a >= b then a else b }
  function MinReal(a: real, b: real): real { if a <= b then a else b }
  function MaxReal(a: real, b: real): real { if a >= b then a else b }
  function Abs(a: real): real { if a >= 0.0 then a else -a }

  /** Python's `int()` on a number: truncation toward zero. */
  function Trunc(r: real): (n: int)
    ensures 0.0 <= r ==> n as real <= r < n as real + 1.0
    ensures r < 0.0 ==> n as real - 1.0 < r <= n as real
  {
    if r >= 0.0 then r.Floor else -((-r).Floor)
  }

  /** `max(lo, min(v, hi))`: the lower bound wins when the bounds cross. */
  function Clamp(v: real, lo: real, hi: real): (r: real)
    ensures lo <= hi ==> lo <= r <= hi
    ensures lo <= v <= hi ==> r == v
    ensures hi < lo ==> r == lo
  {
    MaxReal(lo, MinReal(v, hi))
  }

  /**
    The rectangle has the crop spec's size, cut down only where the image is
    smaller than the spec, and lies entirely inside the image.
  */
  ghost predicate Settled(r: Rect, cropW: int, cropH: int, imgW: int, imgH: int) {
    && r.w == MinInt(cropW, imgW) as real
    && r.h == MinInt(cropH, imgH) as real
    && 0.0 <= r.x && r.x + r.w <= imgW as real
    && 0.0 <= r.y && r.y + r.h <= imgH as real
  }

  /**
    `_constrain_rect_to_image`, and the same clamp written out in the drag
    handler: the requested origin (x, y) is kept when the rectangle fits there
    and otherwise moved to the nearest place where it does.
  */
  function Constrain(x: real, y: real, cropW: int, cropH: int, imgW: int, imgH: int): (r: Rect)
    ensures Settled(r, cropW, cropH, imgW, imgH)
    ensures 0.0 <= x && x + r.w <= imgW as real ==> r.x == x
    ensures 0.0 <= y && y + r.h <= imgH as real ==> r.y == y
  {
    var w := MinInt(cropW, imgW) as real;
    var h := MinInt(cropH, imgH) as real;
    Rect(Clamp(x, 0.0, imgW as real - w), Clamp(y, 0.0, imgH as real - h), w, h)
  }

  /** No placement inside the image lies closer to the requested origin than the clamped one. */
  lemma ConstrainIsNearest(x: real, y: real, cropW: int, cropH: int, imgW: int, imgH: int, other: Rect)
    requires Settled(other, cropW, cropH, imgW, imgH)
    ensures Abs(Constrain(x, y, cropW, cropH, imgW, imgH).x - x) <= Abs(other.x - x)
    ensures Abs(Constrain(x, y, cropW, cropH, imgW, imgH).y - y) <= Abs(other.y - y)
  {
  }

  /** A rectangle is settled exactly when the clamp leaves it where it is; so clamping twice changes nothing. */
  lemma SettledIffFixpoint(r: Rect, cropW: int, cropH: int, imgW: int, imgH: int)
    ensures Settled(r, cropW, cropH, imgW, imgH) <==> Constrain(r.x, r.y, cropW, cropH, imgW, imgH) == r
  {
  }

  lemma ConstrainIdempotent(x: real, y: real, cropW: int, cropH: int, imgW: int, imgH: int)
    ensures var r := Constrain(x, y, cropW, cropH, imgW, imgH);
            Constrain(r.x, r.y, cropW, cropH, imgW, imgH) == r
  {
    SettledIffFixpoint(Constrain(x, y, cropW, cropH, imgW, imgH), cropW, cropH, imgW, imgH);
  }

  function Centre(r: Rect): Point {
    Point(r.x + r.w / 2.0, r.y + r.h / 2.0)
  }

  /** The rectangle a drag move draws: the crop spec centred on the pointer, then clamped. */
  function DragRect(p: Point, cropW: int, cropH: int, imgW: int, imgH: int): (r: Rect)
    ensures Settled(r, cropW, cropH, imgW, imgH)
  {
    Constrain(p.x - cropW as real / 2.0, p.y - cropH as real / 2.0, cropW, cropH, imgW, imgH)
  }

  /** Away from the edges, the dragged rectangle is centred on the pointer. */
  lemma DragRectCentredOnPointer(p: Point, cropW: int, cropH: int, imgW: int, imgH: int)
    requires 0 < cropW <= imgW && 0 < cropH <= imgH
    requires cropW as real / 2.0 <= p.x <= imgW as real - cropW as real / 2.0
    requires cropH as real / 2.0 <= p.y <= imgH as real - cropH as real / 2.0
    ensures Centre(DragRect(p, cropW, cropH, imgW, imgH)) == p
  {
  }

  /** `set_crop_size` on an existing rectangle: the new spec around the old centre, then clamped. */
  function Recentred(r: Rect, cropW: int, cropH: int, imgW: int, imgH: int): (r': Rect)
    ensures Settled(r', cropW, cropH, imgW, imgH)
  {
    DragRect(Centre(r), cropW, cropH, imgW, imgH)
  }

  /** When the re-sized rectangle fits around the old centre, the centre does not move. */
  lemma RecentredKeepsCentre(r: Rect, cropW: int, cropH: int, imgW: int, imgH: int)
    requires 0 < cropW <= imgW && 0 < cropH <= imgH
    requires cropW as real / 2.0 <= Centre(r).x <= imgW as real - cropW as real / 2.0
    requires cropH as real / 2.0 <= Centre(r).y <= imgH as real - cropH as real / 2.0
    ensures Centre(Recentred(r, cropW, cropH, imgW, imgH)) == Centre(r)
  {
    DragRectCentredOnPointer(Centre(r), cropW, cropH, imgW, imgH);
  }

  /** Re-sizing a settled rectangle to the spec it already has leaves it where it is. */
  lemma RecentredSameSpec(r: Rect, cropW: int, cropH: int, imgW: int, imgH: int)
    requires Settled(r, cropW, cropH, imgW, imgH)
    ensures Recentred(r, cropW, cropH, imgW, imgH) == r
  {
  }

  /** The optional rectangle after a spec change: absent stays absent. */
  function ResizeRect(o: Option<Rect>, cropW: int, cropH: int, imgW: int, imgH: int): (o': Option<Rect>)
    ensures o'.Some? <==> o.Some?
    ensures o'.Some? ==> Settled(o'.value, cropW, cropH, imgW, imgH)
  {
    match o
    case None => None
    case Some(r) => Some(Recentred(r, cropW, cropH, imgW, imgH))
  }

  predicate BoxInside(b: Box, imgW: int, imgH: int) {
    0 <= b.x && 0 <= b.y && b.x + b.w <= imgW && b.y + b.h <= imgH
  }

  /**
    `get_crop_rect`: position relative to the image origin (0, 0) and size,
    each through `int()`; a rectangle in the image's quadrant becomes the box
    of its whole-pixel parts.
  */
  function ToBox(r: Rect): (b: Box)
    ensures 0.0 <= r.x ==> 0 <= b.x && b.x as real <= r.x < b.x as real + 1.0
    ensures 0.0 <= r.y ==> 0 <= b.y && b.y as real <= r.y < b.y as real + 1.0
    ensures 0.0 <= r.w ==> 0 <= b.w && b.w as real <= r.w < b.w as real + 1.0
    ensures 0.0 <= r.h ==> 0 <= b.h && b.h as real <= r.h < b.h as real + 1.0
  {
    Box(Trunc(r.x - 0.0), Trunc(r.y - 0.0), Trunc(r.w), Trunc(r.h))
  }

  /** The whole-pixel box of a settled rectangle still lies inside the image and keeps the rectangle's size. */
  lemma SettledBoxInside(r: Rect, cropW: int, cropH: int, imgW: int, imgH: int)
    requires 0 < cropW && 0 < cropH && 0 < imgW && 0 < imgH
    requires Settled(r, cropW, cropH, imgW, imgH)
    ensures BoxInside(ToBox(r), imgW, imgH)
    ensures ToBox(r).w == MinInt(cropW, imgW) && ToBox(r).h == MinInt(cropH, imgH)
    ensures 0 < ToBox(r).w && 0 < ToBox(r).h
  {
  }
}
