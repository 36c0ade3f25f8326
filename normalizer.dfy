/**
  `resize_image_if_needed`: what the desktop upload does to an image whose
  width or height exceeds `max_size` (2048 at the call site), reduced to its
  bookkeeping. The user's answer to the oversize question and the crop
  dialog's outcome are inputs; the pixel work (cropping, resampling, alpha
  compositing) is reduced to the size and mode it leaves behind.
*/
module Normalizer {
  import opened Wrappers
  import opened CropGeometry
  import opened FileNames

  /** The bound the desktop upload passes as `max_size`. */
  const UploadMaxSide: int := 2048

  /** The answer to the oversize question: Yes crops, No scales. */
  datatype Answer = Yes | No

  /** How the crop dialog closed: accepted with its crop box, or rejected. */
  datatype CropOutcome = CropAccepted(rect: Option<Box>) | CropRejected

  /** How the mode was brought to RGB, if at all. */
  datatype Conversion = NoConversion | AlphaComposite | ConvertRGB

  /** The image after the call: its size and mode, whether its size changed, and how its mode was converted. */
  datatype Decision = Decision(width: int, height: int, mode: string, resized: bool, conversion: Conversion) {
    /** The image is written back exactly when it was resized or converted. */
    predicate Saved() {
      resized || conversion != NoConversion
    }
  }

  predicate Oversize(w: int, h: int, maxSize: int) {
    w > maxSize || h > maxSize
  }

  /** The scale factor of the automatic resize: the one that brings the larger side to `maxSize`. */
  function ScaleRatio(w: int, h: int, maxSize: int): real
    requires 0 < w && 0 < h
  {
    MinReal(maxSize as real / w as real, maxSize as real / h as real)
  }

  /**
    The automatic resize's new size, each side times the ratio through
    `int()`: both sides within `maxSize`, the larger one exactly `maxSize`.
  */
  function ScaledSize(w: int, h: int, maxSize: int): (r: (int, int))
    requires 0 < w && 0 < h && 0 < maxSize
    ensures 0 <= r.0 <= maxSize && 0 <= r.1 <= maxSize
    ensures w >= h ==> r.0 == maxSize
    ensures h >= w ==> r.1 == maxSize
  {
    var ratio := ScaleRatio(w, h, maxSize);
    ScaleFacts(w, h, maxSize);
    (Trunc(w as real * ratio), Trunc(h as real * ratio))
  }

  /** A larger divisor gives a smaller quotient. */
  lemma DivAntitone(m: real, a: real, b: real)
    requires 0.0 <= m && 0.0 < a <= b
    ensures m / b <= m / a
  {
    assert m / b * b == m && m / a * a == m;
  }

  lemma ScaleFacts(w: int, h: int, maxSize: int)
    requires 0 < w && 0 < h && 0 < maxSize
    ensures var ratio := ScaleRatio(w, h, maxSize);
            && 0.0 < ratio
            && 0.0 <= w as real * ratio <= maxSize as real
            && 0.0 <= h as real * ratio <= maxSize as real
            && (w >= h ==> ratio == maxSize as real / w as real && w as real * ratio == maxSize as real)
            && (h >= w ==> ratio == maxSize as real / h as real && h as real * ratio == maxSize as real)
  {
    var m, wr, hr := maxSize as real, w as real, h as real;
    var ratio := ScaleRatio(w, h, maxSize);
    if w >= h {
      DivAntitone(m, hr, wr);
      assert ratio == m / wr;
      assert wr * (m / wr) == m;
      assert hr * (m / wr) <= wr * (m / wr);
    }
    if h >= w {
      DivAntitone(m, wr, hr);
      assert ratio == m / hr;
      assert hr * (m / hr) == m;
      assert wr * (m / hr) <= hr * (m / hr);
    }
  }

  /**
    The smaller side follows the image's proportions through `int()`: for a
    landscape image the ratio is maxSize / w, so the height becomes
    int(h * (maxSize / w)), and symmetrically for a portrait one.
  */
  lemma ScaledSideIs(w: int, h: int, maxSize: int)
    requires 0 < w && 0 < h && 0 < maxSize
    ensures w >= h ==> ScaledSize(w, h, maxSize).1 == Trunc(h as real * (maxSize as real / w as real))
    ensures h >= w ==> ScaledSize(w, h, maxSize).0 == Trunc(w as real * (maxSize as real / h as real))
  {
    ScaleFacts(w, h, maxSize);
  }

  /**
    Whether the automatic resize fails: the ratio's division meets a zero
    side, or a scaled side comes out 0, which PIL's `resize` refuses with an
    exception.
  */
  predicate ScaleFails(w: int, h: int, maxSize: int)
    requires 0 <= w && 0 <= h && 0 < maxSize
  {
    w == 0 || h == 0 || ScaledSize(w, h, maxSize).0 == 0 || ScaledSize(w, h, maxSize).1 == 0
  }

  /**
    The size step: nothing for an image within bounds; the crop box's size
    when the user chose to crop and accepted a box; the scaled size otherwise
    (answer No, or the crop dialog rejected). `None` is an exception on the
    scale path.
  */
  function SizeStep(w: int, h: int, maxSize: int, answer: Answer, crop: CropOutcome): (r: Option<(int, int, bool)>)
    requires 0 <= w && 0 <= h && 0 < maxSize
    ensures !Oversize(w, h, maxSize) ==> r == Some((w, h, false))
    ensures r.None? <==> Oversize(w, h, maxSize) && !(answer == Yes && crop.CropAccepted?) && ScaleFails(w, h, maxSize)
    ensures r.Some? && !r.value.2 ==> r.value.0 == w && r.value.1 == h
    ensures r.Some? && r.value.2 && !(answer == Yes && crop.CropAccepted?) ==>
              0 < r.value.0 <= maxSize && 0 < r.value.1 <= maxSize && MaxInt(r.value.0, r.value.1) == maxSize
    ensures answer == Yes && crop == CropAccepted(None) ==> r == Some((w, h, false))
  {
    if !Oversize(w, h, maxSize) then Some((w, h, false))
    else if answer == Yes && crop.CropAccepted? then
      match crop.rect
      case Some(b) => Some((MaxInt(0, b.w), MaxInt(0, b.h), true))
      case None => Some((w, h, false))
    else if ScaleFails(w, h, maxSize) then None
    else
      var s := ScaledSize(w, h, maxSize);
      Some((s.0, s.1, true))
  }

  /**
    The extension the conversion rule looks at: splitext's extension,
    lower-cased. It is empty exactly when splitext finds none, and otherwise
    a '.' and as many characters as the path's own extension.
  */
  function Extension(path: string): (e: string)
    ensures |e| == |SplitExt(path).1|
    ensures e != [] <==> HasExtension(path)
    ensures e != [] ==> e[0] == '.'
  {
    var ext := SplitExt(path).1;
    if ext == [] then [] else LowerAt(ext, 0); Lower(ext)
  }

  predicate JpegExtension(ext: string) {
    ext == ".jpg" || ext == ".jpeg"
  }

  /**
    The mode step: an RGBA image is composited on white and any other non-RGB
    image converted, both only for a .jpg/.jpeg file or an image whose size
    changed.
  */
  function ConversionFor(mode: string, ext: string, resized: bool): (c: Conversion)
    ensures c != NoConversion <==> mode != "RGB" && (JpegExtension(ext) || resized)
    ensures c == AlphaComposite ==> mode == "RGBA"
    ensures mode == "RGBA" && c != NoConversion ==> c == AlphaComposite
  {
    if mode == "RGBA" then
      if JpegExtension(ext) || resized then AlphaComposite else NoConversion
    else if mode != "RGB" && (JpegExtension(ext) || resized) then ConvertRGB
    else NoConversion
  }

  /** `resize_image_if_needed` on an image of the given size and mode stored at `path`. */
  function Normalize(path: string, w: int, h: int, mode: string, maxSize: int, answer: Answer, crop: CropOutcome): (o: Option<Decision>)
    requires 0 <= w && 0 <= h && 0 < maxSize
    ensures o.None? <==> Oversize(w, h, maxSize) && !(answer == Yes && crop.CropAccepted?) && ScaleFails(w, h, maxSize)
    ensures o.Some? ==> o.value.mode == (if o.value.conversion == NoConversion then mode else "RGB")
    ensures o.Some? ==> (o.value.resized ==> o.value.mode == "RGB")
  {
    match SizeStep(w, h, maxSize, answer, crop)
    case None => None
    case Some((w', h', resized)) =>
      var c := ConversionFor(mode, Extension(path), resized);
      Some(Decision(w', h', if c == NoConversion then mode else "RGB", resized, c))
  }

  /** What the call returns: True when the image was written back; False when it was not, or when an exception (also one from the save, `saveFails`) was caught. */
  function ResizeReturns(o: Option<Decision>, saveFails: bool): (r: bool)
    ensures r <==> o.Some? && o.value.Saved() && !saveFails
  {
    match o
    case None => false
    case Some(d) => d.Saved() && !saveFails
  }

  /**
    An image within bounds keeps its size and is not asked about; it is still
    converted, and so written back, when it is a non-RGB .jpg/.jpeg file.
  */
  lemma SmallImageKeepsSize(path: string, w: int, h: int, mode: string, maxSize: int, answer: Answer, crop: CropOutcome)
    requires 0 <= w && 0 <= h && 0 < maxSize && !Oversize(w, h, maxSize)
    ensures var o := Normalize(path, w, h, mode, maxSize, answer, crop);
            && o.Some? && o.value.width == w && o.value.height == h && !o.value.resized
            && (o.value.Saved() <==> mode != "RGB" && JpegExtension(Extension(path)))
            && o == Normalize(path, w, h, mode, maxSize, No, CropRejected)
  {
  }

  /**
    The scale path (answer No, or the crop dialog rejected) fails exactly when
    a scaled side comes out 0; otherwise it brings both sides within
    `maxSize`, the larger exactly to it, converts to RGB and writes the image
    back.
  */
  lemma ScalePathFits(path: string, w: int, h: int, mode: string, maxSize: int, answer: Answer, crop: CropOutcome)
    requires 0 < w && 0 < h && 0 < maxSize && Oversize(w, h, maxSize)
    requires answer == No || crop == CropRejected
    ensures var o := Normalize(path, w, h, mode, maxSize, answer, crop);
            && (o.None? <==> ScaledSize(w, h, maxSize).0 == 0 || ScaledSize(w, h, maxSize).1 == 0)
            && (o.Some? ==>
                  && o.value.resized && o.value.Saved() && o.value.mode == "RGB"
                  && 0 < o.value.width <= maxSize && 0 < o.value.height <= maxSize
                  && MaxInt(o.value.width, o.value.height) == maxSize)
  {
  }

  /**
    A 3000 x 1 image scales to a height of int(1 * 2048 / 3000) = 0, which
    `resize` refuses: the call returns False and writes nothing.
  */
  lemma ThinImageFails()
    ensures Normalize("a.png", 3000, 1, "RGB", UploadMaxSide, No, CropRejected) == None
    ensures !ResizeReturns(Normalize("a.png", 3000, 1, "RGB", UploadMaxSide, No, CropRejected), false)
  {
    ScaledSideIs(3000, 1, UploadMaxSide);
    assert 1.0 * (2048.0 / 3000.0) < 1.0;
  }

  /** The crop path gives exactly the crop box's size, which need not be within `maxSize`. */
  lemma CropPathExactSize(path: string, w: int, h: int, mode: string, maxSize: int, b: Box)
    requires 0 <= w && 0 <= h && 0 < maxSize && Oversize(w, h, maxSize)
    requires 0 <= b.w && 0 <= b.h
    ensures var o := Normalize(path, w, h, mode, maxSize, Yes, CropAccepted(Some(b)));
            && o.Some? && o.value.width == b.w && o.value.height == b.h
            && o.value.resized && o.value.mode == "RGB"
  {
  }

  /**
    Normalising a result that is within bounds again changes nothing and
    writes nothing, whatever the user would answer.
  */
  lemma {:induction false} SecondPassNoop(path: string, w: int, h: int, mode: string, maxSize: int,
                                          answer: Answer, crop: CropOutcome, answer2: Answer, crop2: CropOutcome)
    requires 0 <= w && 0 <= h && 0 < maxSize
    requires var o := Normalize(path, w, h, mode, maxSize, answer, crop);
             o.Some? && 0 <= o.value.width <= maxSize && 0 <= o.value.height <= maxSize
    ensures var d := Normalize(path, w, h, mode, maxSize, answer, crop).value;
            Normalize(path, d.width, d.height, d.mode, maxSize, answer2, crop2)
              == Some(Decision(d.width, d.height, d.mode, false, NoConversion))
  {
    var d := Normalize(path, w, h, mode, maxSize, answer, crop).value;
    var ext := Extension(path);
    var c := ConversionFor(d.mode, ext, false);
    if d.mode != "RGB" {
      assert d.conversion == NoConversion && d.mode == mode;
      assert !JpegExtension(ext);
    }
    assert c == NoConversion;
  }

  /**
    A crop larger than `maxSize` is kept as it is, so a second pass over the
    result would find it oversized again: normalising is not idempotent on
    the crop path.
  */
  lemma CropMayStayOversize()
    ensures var o := Normalize("a.png", 5000, 5000, "RGB", 2048, Yes, CropAccepted(Some(Box(0, 0, 3000, 3000))));
            && o == Some(Decision(3000, 3000, "RGB", true, NoConversion))
            && Oversize(3000, 3000, 2048)
  {
  }

  /** A 4000 x 3000 upload is scaled to 2048 x 1536. */
  lemma ScaleExample()
    ensures ScaledSize(4000, 3000, UploadMaxSide) == (2048, 1536)
  {
    ScaleFacts(4000, 3000, UploadMaxSide);
  }
}
