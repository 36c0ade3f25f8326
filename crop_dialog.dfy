/**
  `ImageCropDialog`: the modal dialog around the crop view. It holds the crop
  size in two spin boxes whose range is [100, image side], an aspect-lock
  check box with the ratio it captured, quick-size buttons, and the confirmed
  crop box. Every size change is pushed to the view, which re-sizes an
  existing rectangle about its centre.
*/
module CropDialog {
  import opened Wrappers
  import opened CropGeometry
  import opened CropView

  /** The spin boxes' minimum. */
  const MinSide: int := 100
  /** The spin boxes' initial value, where the image allows it. */
  const DefaultSide: int := 2048
  /** The square quick sizes, each offered only when the image's larger side reaches it. */
  const QuickSides: seq<int> := [1024, 2048, 4096]

  datatype Spin = WidthSpin | HeightSpin

  /**
    The maximum of a side's spin box, set to the image side. Qt keeps a
    range's maximum at or above its minimum, so a side below 100 leaves 100 as
    the only legal value.
  */
  function SpinMax(dim: int): int {
    MaxInt(MinSide, dim)
  }

  /** What a spin box stores when given `v`: the value bounded into its range. */
  function SpinBound(v: int, dim: int): (r: int)
    ensures MinSide <= r <= SpinMax(dim)
    ensures MinSide <= v <= SpinMax(dim) ==> r == v
    ensures v < MinSide ==> r == MinSide
    ensures SpinMax(dim) < v ==> r == SpinMax(dim)
  {
    if v < MinSide then MinSide else if v > SpinMax(dim) then SpinMax(dim) else v
  }

  /** The side derived under aspect lock: `max(100, min(dim, int(v)))`. */
  function LockedSide(v: real, dim: int): (r: int)
    ensures MinSide <= r <= SpinMax(dim)
    ensures MinSide <= Trunc(v) <= dim ==> r == Trunc(v)
  {
    MaxInt(MinSide, MinInt(dim, Trunc(v)))
  }

  /** The height derived from the width under aspect lock. */
  function LockedHeight(width: int, aspect: real, imgH: int): (r: int)
    requires 0.0 < aspect
    ensures MinSide <= r <= SpinMax(imgH)
  {
    LockedSide(width as real / aspect, imgH)
  }

  /** The width derived from the height under aspect lock. */
  function LockedWidth(height: int, aspect: real, imgW: int): (r: int)
    requires 0.0 < aspect
    ensures MinSide <= r <= SpinMax(imgW)
  {
    LockedSide(height as real * aspect, imgW)
  }

  /** The spin values after `on_size_changed`, and whether it shows the size notice. */
  datatype SizeUpdate = SizeUpdate(width: int, height: int, notice: bool)

  /**
    `on_size_changed`, fired by the spin box `sender`, from the spin values
    (width, height). Each side is cut back to the image; under aspect lock the
    side that was not edited is derived from the edited one and the captured
    ratio; the notice is shown exactly when a side exceeded the image.
  */
  function SizeChanged(width: int, height: int, sender: Spin, keep: bool, aspect: real, imgW: int, imgH: int): (u: SizeUpdate)
    requires 0.0 < aspect && MinSide <= width && MinSide <= height
    ensures MinSide <= u.width <= SpinMax(imgW) && MinSide <= u.height <= SpinMax(imgH)
    ensures u.notice <==> imgW < width || imgH < height
    ensures !(keep && sender == HeightSpin) ==> u.width == MinInt(width, SpinMax(imgW))
    ensures !(keep && sender == WidthSpin) ==> u.height == MinInt(height, SpinMax(imgH))
    ensures keep && sender == WidthSpin ==> u.height == LockedHeight(u.width, aspect, imgH)
    ensures keep && sender == HeightSpin ==> u.width == LockedWidth(u.height, aspect, imgW)
  {
    var w := if width > imgW then SpinBound(imgW, imgW) else width;
    var h := if height > imgH then SpinBound(imgH, imgH) else height;
    var notice := width > imgW || height > imgH;
    if keep && sender == WidthSpin then
      SizeUpdate(w, SpinBound(LockedHeight(w, aspect, imgH), imgH), notice)
    else if keep && sender == HeightSpin then
      SizeUpdate(SpinBound(LockedWidth(h, aspect, imgW), imgW), h, notice)
    else
      SizeUpdate(w, h, notice)
  }

  /**
    The derived side is the exact value truncated, unless the exact value lies
    below 100 or above the image side and the side was clamped there.
  */
  lemma LockedSideCases(v: real, dim: int)
    requires 0.0 <= v
    ensures var r := LockedSide(v, dim);
            || (r as real <= v < r as real + 1.0)
            || (r == MinSide && v < MinSide as real)
            || (r == SpinMax(dim) && dim as real < v)
  {
    var t := Trunc(v);
    if t < MinSide {
      assert v < MinSide as real;
    } else if dim < t {
      assert dim as real < v;
    }
  }

  /**
    Under aspect lock, editing the width keeps width / height at the captured
    ratio up to the truncation of the derived height, unless that height had
    to be clamped to [100, image height].
  */
  lemma {:induction false} AspectLockKeepsRatio(width: int, height: int, aspect: real, imgW: int, imgH: int)
    requires 0.0 < aspect && MinSide <= width && MinSide <= height
    ensures var u := SizeChanged(width, height, WidthSpin, true, aspect, imgW, imgH);
            var exact := u.width as real / aspect;
            || (u.height as real <= exact < u.height as real + 1.0)
            || (u.height == MinSide && exact < MinSide as real)
            || (u.height == SpinMax(imgH) && imgH as real < exact)
  {
    var u := SizeChanged(width, height, WidthSpin, true, aspect, imgW, imgH);
    var exact := u.width as real / aspect;
    assert 0.0 < exact;
    assert u.height == LockedSide(exact, imgH);
    LockedSideCases(exact, imgH);
  }

  /**
    The mirror image for a height edit: the width is the exact height * ratio
    truncated, unless it had to be clamped to [100, image width].
  */
  lemma {:induction false} AspectLockKeepsRatioFromHeight(width: int, height: int, aspect: real, imgW: int, imgH: int)
    requires 0.0 < aspect && MinSide <= width && MinSide <= height
    ensures var u := SizeChanged(width, height, HeightSpin, true, aspect, imgW, imgH);
            var exact := u.height as real * aspect;
            || (u.width as real <= exact < u.width as real + 1.0)
            || (u.width == MinSide && exact < MinSide as real)
            || (u.width == SpinMax(imgW) && imgW as real < exact)
  {
    var u := SizeChanged(width, height, HeightSpin, true, aspect, imgW, imgH);
    assert MinSide <= u.height && u.width == LockedWidth(u.height, aspect, imgW);
    LockedWidthCases(u.height, aspect, imgW);
  }

  lemma LockedWidthCases(height: int, aspect: real, imgW: int)
    requires 0.0 < aspect && MinSide <= height
    ensures var r, exact := LockedWidth(height, aspect, imgW), height as real * aspect;
            || (r as real <= exact < r as real + 1.0)
            || (r == MinSide && exact < MinSide as real)
            || (r == SpinMax(imgW) && imgW as real < exact)
  {
    var exact := height as real * aspect;
    assert 0.0 < exact;
    LockedSideCases(exact, imgW);
  }

  /** Where the quick-size buttons leave the spin boxes, and whether the adjustment notice is shown. */
  datatype QuickTarget = QuickTarget(w: int, h: int, notice: bool)

  /**
    `set_quick_size`'s choice of size: the whole image for the image's larger
    side, otherwise the size cut down to each image side. Either way each side
    is `min(size, image side)`; the notice is shown when a side was cut, except
    for the whole-image size.
  */
  function QuickSizeTarget(size: int, imgW: int, imgH: int): (t: QuickTarget)
    ensures t.w == MinInt(size, imgW) && t.h == MinInt(size, imgH)
    ensures t.notice <==> size != MaxInt(imgW, imgH) && (imgW < size || imgH < size)
  {
    if size == MaxInt(imgW, imgH) then
      QuickTarget(imgW, imgH, false)
    else
      var w, h := MinInt(size, imgW), MinInt(size, imgH);
      QuickTarget(w, h, w != size || h != size)
  }

  /**
    On a 3000 x 50 image the height box can only hold 100, already above the
    image height. Choosing 1024 from the initial 2048 x 100 shows the
    quick-size box and then, as the width changes, the "size limited" box.
  */
  lemma ThinImageQuickNotices()
    ensures QuickNotices(QuickSizeTarget(1024, 3000, 50), 2048, 100, 3000, 50) == [QuickSizeAdjusted, SizeLimited]
  {
  }

  /** A quick-size button: a square size, or the whole image (whose size is its larger side). */
  datatype Preset = Square(side: int) | WholeImage(w: int, h: int) {
    function Size(): int {
      match this
      case Square(s) => s
      case WholeImage(w, h) => MaxInt(w, h)
    }
  }

  /**
    The buttons offered for an imgW x imgH image: the square sizes that do not
    exceed its larger side, in increasing order, then the whole image unless
    the image is a square whose side is already offered.
  */
  ghost predicate PresetsOffered(presets: seq<Preset>, imgW: int, imgH: int) {
    var m := MaxInt(imgW, imgH);
    && (forall i :: 0 <= i < |presets| ==> presets[i].Square? || presets[i] == WholeImage(imgW, imgH))
    && (forall i :: 0 <= i < |presets| ==> presets[i].Size() <= m)
    && (forall s :: Square(s) in presets <==> s in QuickSides && s <= m)
    && (WholeImage(imgW, imgH) in presets <==> imgW != imgH || m !in QuickSides)
    && (forall i, j :: 0 <= i < j < |presets| ==>
          presets[i].Square? && (presets[j].Square? ==> presets[i].side < presets[j].side))
  }

  /** The quick-size list that `init_ui` builds with its append loop. */
  method QuickSizes(imgW: int, imgH: int) returns (presets: seq<Preset>)
    ensures PresetsOffered(presets, imgW, imgH)
  {
    var m := MaxInt(imgW, imgH);
    presets := [];
    for i := 0 to |QuickSides|
      invariant forall k :: 0 <= k < |presets| ==> presets[k].Square? && presets[k].side in QuickSides[..i]
      invariant forall k :: 0 <= k < |presets| ==> presets[k].side <= m
      invariant forall s :: Square(s) in presets <==> s in QuickSides[..i] && s <= m
      invariant forall a, b :: 0 <= a < b < |presets| ==> presets[a].side < presets[b].side
    {
      assert forall k :: 0 <= k < i ==> QuickSides[k] < QuickSides[i];
      if QuickSides[i] <= m {
        presets := presets + [Square(QuickSides[i])];
      }
      assert QuickSides[..i + 1] == QuickSides[..i] + [QuickSides[i]];
    }
    assert QuickSides[..|QuickSides|] == QuickSides;
    if imgW != imgH || m !in QuickSides {
      presets := presets + [WholeImage(imgW, imgH)];
    }
  }

  datatype DialogState = Open | Accepted | Rejected

  /**
    The information boxes the size controls show: `on_size_changed`'s "size
    limited" box, and `set_quick_size`'s "quick size adjusted" box.
  */
  datatype Notice = SizeLimited | QuickSizeAdjusted

  /**
    Whether a spin value in range can still exceed an image side: only when
    that side is below the spin boxes' minimum of 100.
  */
  predicate SmallImage(imgW: int, imgH: int) {
    imgW < MinSide || imgH < MinSide
  }

  /**
    The boxes `set_quick_size` shows, in order, when it moves the spin boxes
    from (oldW, oldH) to the target: its own box when the target cut the size,
    then a "size limited" box for each spin box that changed while a spin
    value could exceed an image side.
  */
  function QuickNotices(t: QuickTarget, oldW: int, oldH: int, imgW: int, imgH: int): (ns: seq<Notice>)
    ensures (QuickSizeAdjusted in ns) <==> t.notice
    ensures t.notice ==> |ns| > 0 && ns[0] == QuickSizeAdjusted
    ensures forall i | 0 < i < |ns| :: ns[i] == SizeLimited
    ensures |ns| == (if t.notice then 1 else 0) +
              if !SmallImage(imgW, imgH) then 0
              else (if SpinBound(t.w, imgW) != oldW then 1 else 0) + (if SpinBound(t.h, imgH) != oldH then 1 else 0)
  {
    var w, h := SpinBound(t.w, imgW), SpinBound(t.h, imgH);
    Boxes(t.notice, w != oldW && SmallImage(imgW, imgH), h != oldH && SmallImage(imgW, imgH))
  }

  /** The boxes shown, in order, given which of the three was shown. */
  function Boxes(quick: bool, widthLimited: bool, heightLimited: bool): seq<Notice> {
    (if quick then [QuickSizeAdjusted] else [])
    + (if widthLimited then [SizeLimited] else [])
    + (if heightLimited then [SizeLimited] else [])
  }

  class ImageCropDialog {
    const imgW: int
    const imgH: int
    const view: ImageCropView
    const presets: seq<Preset>
    var width: int          // width_spinbox.value()
    var height: int         // height_spinbox.value()
    var keepAspect: bool    // keep_aspect_ratio_checkbox.isChecked()
    var aspectRatio: real   // aspect_ratio
    var cropRect: Option<Box>
    var state: DialogState

    /** Everything the dialog keeps true, except that the view shows the current spin values. */
    ghost predicate Consistent()
      reads this, view
    {
      && 0 < imgW && 0 < imgH
      && view.Valid() && view.imgW == imgW && view.imgH == imgH
      && MinSide <= width <= SpinMax(imgW) && MinSide <= height <= SpinMax(imgH)
      && 0.0 < aspectRatio
      && PresetsOffered(presets, imgW, imgH)
      && (cropRect.Some? ==> BoxInside(cropRect.value, imgW, imgH))
    }

    ghost predicate Valid()
      reads this, view
    {
      Consistent() && view.cropW == width && view.cropH == height
    }

    /** The dialog for an imgW x imgH image whose view starts fitted at `fitScale`. */
    constructor (imgW: int, imgH: int, fitScale: real)
      requires 0 < imgW && 0 < imgH && 0.0 < fitScale
      ensures Valid() && fresh(view)
      ensures this.imgW == imgW && this.imgH == imgH
      ensures width == SpinBound(MinInt(DefaultSide, imgW), imgW)
      ensures height == SpinBound(MinInt(DefaultSide, imgH), imgH)
      ensures MinSide <= imgW ==> width == MinInt(DefaultSide, imgW)
      ensures MinSide <= imgH ==> height == MinInt(DefaultSide, imgH)
      ensures keepAspect && aspectRatio == width as real / height as real
      ensures cropRect == None && state == Open
      ensures view.State() == ViewState(width, height, None, None, None, false, false, fitScale)
    {
      var w := SpinBound(MinInt(DefaultSide, imgW), imgW);
      var h := SpinBound(MinInt(DefaultSide, imgH), imgH);
      var v := new ImageCropView(imgW, imgH, fitScale);
      v.SetCropSize(w, h);
      var offered := QuickSizes(imgW, imgH);
      this.imgW, this.imgH := imgW, imgH;
      view, presets := v, offered;
      width, height := w, h;
      keepAspect := true;
      aspectRatio := w as real / h as real;
      cropRect, state := None, Open;
    }

    /** `on_size_changed`, after the spin box `sender` took a new value. */
    method OnSizeChanged(sender: Spin) returns (notice: bool)
      requires Consistent()
      modifies this, view
      ensures Valid()
      ensures var u := SizeChanged(old(width), old(height), sender, keepAspect, aspectRatio, imgW, imgH);
              width == u.width && height == u.height && notice == u.notice
      ensures keepAspect == old(keepAspect) && aspectRatio == old(aspectRatio)
      ensures cropRect == old(cropRect) && state == old(state)
      ensures view.State() == old(view.State()).(cropW := width, cropH := height,
                                                 rect := ResizeRect(old(view.rect), width, height, imgW, imgH))
    {
      notice := false;
      if width > imgW {
        width := SpinBound(imgW, imgW);
        notice := true;
      }
      if height > imgH {
        height := SpinBound(imgH, imgH);
        notice := true;
      }
      if keepAspect {
        if sender == WidthSpin {
          height := SpinBound(LockedHeight(width, aspectRatio, imgH), imgH);
        } else {
          width := SpinBound(LockedWidth(height, aspectRatio, imgW), imgW);
        }
      }
      view.SetCropSize(width, height);
    }

    /**
      The user sets the spin box `spin` to `v`: the box bounds it into its
      range, and only a change of value fires `on_size_changed`.
    */
    method EditSide(spin: Spin, v: int) returns (notice: bool)
      requires Valid()
      modifies this, view
      ensures Valid()
      ensures var typed := SpinBound(v, if spin == WidthSpin then imgW else imgH);
              if typed == (if spin == WidthSpin then old(width) else old(height)) then
                width == old(width) && height == old(height) && !notice
              else
                var u := SizeChanged(if spin == WidthSpin then typed else old(width),
                                     if spin == HeightSpin then typed else old(height),
                                     spin, keepAspect, aspectRatio, imgW, imgH);
                width == u.width && height == u.height && notice == u.notice
      ensures keepAspect == old(keepAspect) && aspectRatio == old(aspectRatio)
      ensures cropRect == old(cropRect) && state == old(state)
      ensures view.State() == old(view.State()).(cropW := width, cropH := height,
                                                 rect := ResizeRect(old(view.rect), width, height, imgW, imgH))
    {
      var typed := SpinBound(v, if spin == WidthSpin then imgW else imgH);
      notice := false;
      if spin == WidthSpin && typed != width {
        width := typed;
        notice := OnSizeChanged(WidthSpin);
      } else if spin == HeightSpin && typed != height {
        height := typed;
        notice := OnSizeChanged(HeightSpin);
      } else {
        ResizeRectSameSpec(view.rect, width, height, imgW, imgH);
      }
    }

    /** `on_aspect_ratio_changed`: the check box fires only on a change, and turning the lock on captures width / height. */
    method SetKeepAspect(on: bool)
      requires Valid()
      modifies this
      ensures Valid()
      ensures keepAspect == on
      ensures aspectRatio == if on && !old(keepAspect) then width as real / height as real else old(aspectRatio)
      ensures width == old(width) && height == old(height)
      ensures cropRect == old(cropRect) && state == old(state)
    {
      if on != keepAspect {
        keepAspect := on;
        if on {
          aspectRatio := width as real / height as real;
        }
      }
    }

    /**
      `set_quick_size`: with the lock switched off meanwhile, set the width and
      then the height spin box (each firing `on_size_changed` when it changes),
      restore the lock, and capture the chosen width / height as the ratio.
      `notices` lists the boxes shown, in order: the quick-size box when the
      size was cut to the image, then one "size limited" box for each spin box
      whose change found a spin value above an image side.
    */
    method SetQuickSize(size: int) returns (notices: seq<Notice>)
      requires Valid() && 0 < size
      modifies this, view
      ensures Valid()
      ensures var t := QuickSizeTarget(size, imgW, imgH);
              var w, h := SpinBound(t.w, imgW), SpinBound(t.h, imgH);
              && width == w && height == h
              && aspectRatio == t.w as real / t.h as real
              && notices == QuickNotices(t, old(width), old(height), imgW, imgH)
      ensures keepAspect == old(keepAspect)
      ensures cropRect == old(cropRect) && state == old(state)
      ensures view.State() == old(view.State()).(cropW := width, cropH := height,
                rect := ResizeRect(ResizeRect(old(view.rect), width, old(height), imgW, imgH), width, height, imgW, imgH))
    {
      var original := keepAspect;
      keepAspect := false;
      var t := QuickSizeTarget(size, imgW, imgH);
      var widthNotice := SetSpinUnlocked(WidthSpin, SpinBound(t.w, imgW));
      var heightNotice := SetSpinUnlocked(HeightSpin, SpinBound(t.h, imgH));
      notices := Boxes(t.notice, widthNotice, heightNotice);
      keepAspect := original;
      if original {
        aspectRatio := width as real / height as real;
      }
      aspectRatio := t.w as real / t.h as real;
    }

    /**
      A spin box set to a value in its range while the lock is off keeps that
      value and the other side is untouched; `on_size_changed` shows its box
      exactly when the value changed and an image side is below 100.
    */
    method SetSpinUnlocked(spin: Spin, v: int) returns (notice: bool)
      requires Valid() && !keepAspect
      requires MinSide <= v <= SpinMax(if spin == WidthSpin then imgW else imgH)
      modifies this, view
      ensures Valid()
      ensures spin == WidthSpin ==> width == v && height == old(height)
      ensures spin == HeightSpin ==> height == v && width == old(width)
      ensures notice <==> v != (if spin == WidthSpin then old(width) else old(height)) && SmallImage(imgW, imgH)
      ensures keepAspect == old(keepAspect) && aspectRatio == old(aspectRatio)
      ensures cropRect == old(cropRect) && state == old(state)
      ensures view.State() == old(view.State()).(cropW := width, cropH := height,
                                                 rect := ResizeRect(old(view.rect), width, height, imgW, imgH))
    {
      notice := EditSide(spin, v);
    }

    /** A quick-size button: `set_quick_size` with the button's size. */
    method ClickPreset(i: int) returns (notices: seq<Notice>)
      requires Valid() && 0 <= i < |presets|
      modifies this, view
      ensures Valid()
      ensures var t := QuickSizeTarget(presets[i].Size(), imgW, imgH);
              var w, h := SpinBound(t.w, imgW), SpinBound(t.h, imgH);
              && width == w && height == h
              && aspectRatio == t.w as real / t.h as real
              && notices == QuickNotices(t, old(width), old(height), imgW, imgH)
      ensures keepAspect == old(keepAspect)
      ensures cropRect == old(cropRect) && state == old(state)
      ensures view.State() == old(view.State()).(cropW := width, cropH := height,
                rect := ResizeRect(ResizeRect(old(view.rect), width, old(height), imgW, imgH), width, height, imgW, imgH))
    {
      if presets[i].Square? {
        assert Square(presets[i].side) in presets;
      }
      notices := SetQuickSize(presets[i].Size());
    }

    /** `accept_crop`: accept with the view's crop box when there is one, otherwise warn and stay open. */
    method AcceptCrop() returns (warned: bool)
      requires Valid()
      modifies this
      ensures Valid()
      ensures warned <==> view.CropRect().None?
      ensures !warned ==> cropRect == view.CropRect() && state == Accepted
      ensures warned ==> cropRect == old(cropRect) && state == old(state)
      ensures width == old(width) && height == old(height)
      ensures keepAspect == old(keepAspect) && aspectRatio == old(aspectRatio)
    {
      var r := view.CropRect();
      if r.Some? {
        cropRect := r;
        state := Accepted;
        warned := false;
      } else {
        warned := true;
      }
    }

    /** The cancel button: `reject`. */
    method Cancel()
      requires Valid()
      modifies this
      ensures Valid()
      ensures state == Rejected
      ensures cropRect == old(cropRect) && width == old(width) && height == old(height)
      ensures keepAspect == old(keepAspect) && aspectRatio == old(aspectRatio)
    {
      state := Rejected;
    }

    /** `resizeEvent`: re-fit the image in the view. */
    method Resized(fitScale: real)
      requires Valid() && 0.0 < fitScale
      modifies view
      ensures Valid()
      ensures view.State() == old(view.State()).(scale := fitScale)
    {
      view.FitInView(fitScale);
    }
  }

  /** Re-sizing to the spec a rectangle already has changes nothing, with or without a rectangle. */
  lemma ResizeRectSameSpec(o: Option<Rect>, cropW: int, cropH: int, imgW: int, imgH: int)
    requires o.Some? ==> Settled(o.value, cropW, cropH, imgW, imgH)
    ensures ResizeRect(o, cropW, cropH, imgW, imgH) == o
  {
    if o.Some? {
      RecentredSameSpec(o.value, cropW, cropH, imgW, imgH);
    }
  }
}
