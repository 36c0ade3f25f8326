/**
  The view's zoom: the scale of its transform (`m11`, equal to `m22` since the
  view only ever scales uniformly). The wheel and the +/- keys multiply it by
  1.25 or 0.8; the wheel drops a step whose product would leave
  [MinScale, MaxScale], while the keys only look at the scale before the step;
  space re-fits the image, at whatever scale that takes.
*/
module Zoom {

  const MinScale: real := 0.1
  const MaxScale: real := 5.0
  const ZoomIn: real := 1.25
  const ZoomOut: real := 0.8

  datatype Key = Space | Plus | Equal | Minus | OtherKey

  predicate InRange(scale: real) {
    MinScale <= scale <= MaxScale
  }

  /** The factor of a wheel step: up (positive vertical delta) zooms in, anything else zooms out. */
  function WheelFactor(deltaY: int): real {
    if deltaY > 0 then ZoomIn else ZoomOut
  }

  /** `wheelEvent`: apply the step unless the product would leave the range. */
  function WheelZoom(scale: real, deltaY: int): (s: real)
    ensures s == scale || InRange(s)
  {
    var next := scale * WheelFactor(deltaY);
    if next < MinScale || next > MaxScale then scale else next
  }

  /** A wheel step is dropped exactly when its product would leave the range, and applied otherwise. */
  lemma WheelDroppedIffOutOfRange(scale: real, deltaY: int)
    requires 0.0 < scale
    ensures WheelZoom(scale, deltaY) == scale <==> !InRange(scale * WheelFactor(deltaY))
    ensures InRange(scale * WheelFactor(deltaY)) ==> WheelZoom(scale, deltaY) == scale * WheelFactor(deltaY)
  {
  }

  /** `n` wheel steps in the same direction. */
  function WheelRepeated(scale: real, deltaY: int, n: nat): real
    decreases n
  {
    if n == 0 then scale else WheelRepeated(WheelZoom(scale, deltaY), deltaY, n - 1)
  }

  /** However often the wheel turns, an in-range scale stays in range. */
  lemma {:induction false} WheelRepeatedStaysInRange(scale: real, deltaY: int, n: nat)
    requires InRange(scale)
    ensures InRange(WheelRepeated(scale, deltaY, n))
    decreases n
  {
    if n > 0 {
      WheelRepeatedStaysInRange(WheelZoom(scale, deltaY), deltaY, n - 1);
    }
  }

  /** Turning the wheel up never zooms out, and down never zooms in. */
  lemma {:induction false} WheelRepeatedDirection(scale: real, deltaY: int, n: nat)
    requires 0.0 < scale
    ensures 0.0 < WheelRepeated(scale, deltaY, n)
    ensures deltaY > 0 ==> scale <= WheelRepeated(scale, deltaY, n)
    ensures deltaY <= 0 ==> WheelRepeated(scale, deltaY, n) <= scale
    decreases n
  {
    if n > 0 {
      WheelRepeatedDirection(WheelZoom(scale, deltaY), deltaY, n - 1);
    }
  }

  /**
    `keyPressEvent`: space re-fits, +/= zoom in below MaxScale, - zooms out
    above MinScale. From a positive scale, +/= never zoom out and - never
    zooms in, and each changes the scale exactly when its pre-check passes.
  */
  function KeyZoom(scale: real, key: Key, fitScale: real): (s: real)
    ensures key == Space ==> s == fitScale
    ensures key == OtherKey ==> s == scale
    ensures 0.0 < scale && (key == Plus || key == Equal) ==> scale <= s && (s != scale <==> scale < MaxScale)
    ensures 0.0 < scale && key == Minus ==> 0.0 < s <= scale && (s != scale <==> scale > MinScale)
  {
    match key
    case Space => fitScale
    case Plus | Equal => if scale < MaxScale then scale * ZoomIn else scale
    case Minus => if scale > MinScale then scale * ZoomOut else scale
    case OtherKey => scale
  }

  /**
    The keys check the scale before the step only, so from an in-range scale
    one key step can overshoot the range, but by at most one step.
  */
  lemma KeyZoomOvershoot(scale: real, key: Key, fitScale: real)
    requires InRange(scale) && key != Space
    ensures MinScale * ZoomOut <= KeyZoom(scale, key, fitScale) <= MaxScale * ZoomIn
  {
  }

  /** One key step from inside the range lands outside it. */
  lemma KeyZoomLeavesRange()
    ensures InRange(4.5) && KeyZoom(4.5, Plus, 1.0) == 5.625 && !InRange(5.625)
    ensures InRange(0.11) && KeyZoom(0.11, Minus, 1.0) == 0.088 && !InRange(0.088)
  {
  }
}
