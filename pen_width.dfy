/**
  `calculate_pen_width`: the stroke width of the crop rectangle's outline, in
  whole pixels, from the image diagonal and the view's zoom. Widths grow with
  the image (bands at 3000, 5000 and 8000 px of diagonal, doubled above 8000)
  and shrink as the view zooms in, and always stay within [3, 30].
  Exact reals stand for the source's doubles; the diagonal is an input, since
  its square root is not computed here (see `DiagonalMonotone`).
*/
module PenWidth {
  import opened CropGeometry

  const MinPen: int := 3
  const MaxPen: int := 30

  /** The base width of the diagonal's band. */
  function BaseWidth(diag: real): (b: real)
    ensures 3.0 <= b
  {
    if diag > 8000.0 then MaxReal(diag / 400.0, 8.0)
    else if diag > 5000.0 then MaxReal(diag / 500.0, 6.0)
    else if diag > 3000.0 then MaxReal(diag / 800.0, 4.0)
    else MaxReal(diag / 1000.0, 3.0)
  }

  /** The zoom adjustment: the reciprocal of the view scale, never below 0.3. */
  function ZoomAdjustment(scale: real): (a: real)
    requires 0.0 < scale
    ensures 0.3 <= a && 1.0 <= a * scale
  {
    MaxReal(1.0 / scale, 0.3)
  }

  /**
    The width before `int()`: base times adjustment, doubled for the largest
    band. It is never below 0.9, the smallest base width times the smallest
    adjustment.
  */
  function RawWidth(diag: real, scale: real): (r: real)
    requires 0.0 < scale
    ensures 0.9 <= r
  {
    var w := BaseWidth(diag) * ZoomAdjustment(scale);
    MulMonotone(3.0, BaseWidth(diag), ZoomAdjustment(scale));
    MulMonotone(0.3, ZoomAdjustment(scale), 3.0);
    if diag > 8000.0 then w * 2.0 else w
  }

  function PenWidth(diag: real, scale: real): (px: int)
    requires 0.0 < scale
    ensures MinPen <= px <= MaxPen
  {
    MaxInt(MinPen, MinInt(Trunc(RawWidth(diag, scale)), MaxPen))
  }

  /** The base width with the largest band's doubling folded in. */
  function BandWidth(diag: real): (b: real)
    ensures 3.0 <= b
  {
    if diag > 8000.0 then BaseWidth(diag) * 2.0 else BaseWidth(diag)
  }

  /** Every band starts at least where the one below it ends, so the band width never drops. */
  lemma BandWidthMonotone(d1: real, d2: real)
    requires d1 <= d2
    ensures BandWidth(d1) <= BandWidth(d2)
  {
    if d2 > 8000.0 {
      assert BandWidth(d2) >= 40.0;
      assert BandWidth(d1) <= 16.0 || (d1 > 8000.0 && d1 / 400.0 <= d2 / 400.0);
    } else if d2 > 5000.0 {
      assert BandWidth(d1) <= 6.25 || d1 / 500.0 <= d2 / 500.0;
    } else if d2 > 3000.0 {
      assert BandWidth(d1) <= 4.0 || d1 / 800.0 <= d2 / 800.0;
    }
  }

  /** The raw width is the band width times the zoom adjustment. */
  lemma RawWidthFactors(diag: real, scale: real)
    requires 0.0 < scale
    ensures RawWidth(diag, scale) == BandWidth(diag) * ZoomAdjustment(scale)
  {
  }

  lemma MulMonotone(a: real, b: real, c: real)
    requires a <= b && 0.0 <= c
    ensures a * c <= b * c
  {
    assert b * c - a * c == (b - a) * c;
  }

  lemma MulStrict(a: real, b: real, c: real)
    requires a < b && 0.0 < c
    ensures a * c < b * c
  {
    assert b * c - a * c == (b - a) * c;
  }

  lemma SquareStrict(a: real, b: real)
    requires 0.0 <= a < b
    ensures a * a < b * b
  {
    MulStrict(0.0, b - a, b + a);
    assert b * b - a * a == (b - a) * (b + a);
  }

  lemma SquareMonotone(a: int, b: int)
    requires 0 <= a <= b
    ensures a * a <= b * b
  {
    assert a * a <= a * b by { assert a * b - a * a == a * (b - a); }
    assert a * b <= b * b by { assert b * b - a * b == (b - a) * b; }
  }

  lemma TruncMonotone(r1: real, r2: real)
    requires 0.0 <= r1 <= r2
    ensures Trunc(r1) <= Trunc(r2)
  {
  }

  lemma ReciprocalAntitone(s1: real, s2: real)
    requires 0.0 < s1 <= s2
    ensures 1.0 / s2 <= 1.0 / s1
  {
    assert (1.0 / s2) * s2 == 1.0;
    assert (1.0 / s1) * s1 == 1.0;
    if 1.0 / s2 > 1.0 / s1 {
      MulMonotone(1.0 / s1, 1.0 / s2, s1);
      MulMonotone(s1, s2, 1.0 / s2);
      assert false;
    }
  }

  /** Ordered products with the same non-negative factor truncate in the same order. */
  lemma TruncOfOrderedProducts(r1: real, r2: real, a1: real, a2: real, c: real)
    requires 0.0 <= a1 <= a2 && 0.0 <= c
    requires r1 == a1 * c && r2 == a2 * c
    ensures Trunc(r1) <= Trunc(r2)
  {
    MulMonotone(a1, a2, c);
    MulMonotone(0.0, a1, c);
    TruncMonotone(r1, r2);
  }

  /** A larger diagonal never gets a thinner outline at the same zoom. */
  lemma {:induction false} PenWidthMonotoneInDiagonal(d1: real, d2: real, scale: real)
    requires d1 <= d2 && 0.0 < scale
    ensures PenWidth(d1, scale) <= PenWidth(d2, scale)
  {
    RawWidthFactors(d1, scale);
    RawWidthFactors(d2, scale);
    BandWidthMonotone(d1, d2);
    TruncOfOrderedProducts(RawWidth(d1, scale), RawWidth(d2, scale), BandWidth(d1), BandWidth(d2), ZoomAdjustment(scale));
  }

  /** Zooming in never thickens the outline. */
  lemma {:induction false} PenWidthAntitoneInScale(diag: real, s1: real, s2: real)
    requires 0.0 < s1 <= s2
    ensures PenWidth(diag, s2) <= PenWidth(diag, s1)
  {
    ReciprocalAntitone(s1, s2);
    RawWidthFactors(diag, s1);
    RawWidthFactors(diag, s2);
    assert ZoomAdjustment(s2) <= ZoomAdjustment(s1);
    TruncOfOrderedProducts(RawWidth(diag, s2), RawWidth(diag, s1), ZoomAdjustment(s2), ZoomAdjustment(s1), BandWidth(diag));
  }

  /**
    The diagonal is fixed by the image size through d * d == w * w + h * h; a
    wider and taller image has a diagonal at least as long, hence (by
    `PenWidthMonotoneInDiagonal`) an outline at least as thick.
  */
  lemma {:induction false} DiagonalMonotone(w1: int, h1: int, d1: real, w2: int, h2: int, d2: real)
    requires 0 <= w1 <= w2 && 0 <= h1 <= h2
    requires 0.0 <= d1 && d1 * d1 == (w1 * w1 + h1 * h1) as real
    requires 0.0 <= d2 && d2 * d2 == (w2 * w2 + h2 * h2) as real
    ensures d1 <= d2
  {
    SquareMonotone(w1, w2);
    SquareMonotone(h1, h2);
    assert (w1 * w1 + h1 * h1) as real <= (w2 * w2 + h2 * h2) as real;
    if d1 > d2 {
      SquareStrict(d2, d1);
      assert false;
    }
  }
}
