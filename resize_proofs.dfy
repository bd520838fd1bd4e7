/**
  What the `image_resize_dimensions` replacement promises: the crop branch
  keeps the requested size even when it is larger than the original (the
  upscaling), derives a missing axis from the aspect ratio, and reads the
  largest centred rectangle of the source that has the destination's shape;
  the no-crop branch reads the whole source and, given a full box, grows or
  shrinks it until it meets a side of that box.
 */
module ResizeProofs {
  import opened PhpMath
  import opened UpscaleImages
  import ConstrainProofs

  /** A side that `k` times the source covers, scaled back by `k` and rounded, is at most the source side. */
  lemma RoundedBackWithin(side: nat, k: real, orig: nat)
    requires 0.0 < k && side as real <= k * orig as real
    ensures 0 <= Round(side as real / k) <= orig
  {
    var a := side as real;
    assert (a / k) * k == a;
    assert a / k <= orig as real;
    RoundAtMost(a / k, orig);
  }

  /** A positive side divided by its own ratio to `d` gives `d` back. */
  lemma DivByOwnRatio(n: real, d: real)
    requires 0.0 < n && 0.0 < d
    ensures n / (n / d) == d
  {
    assert (n / d) * d == n;
  }

  /** The `floor((total - part) / 2)` offset centres `part` inside `total`. */
  lemma CentredOffset(total: int, part: int)
    requires 0 <= part <= total
    ensures var x := ((total - part) as real / 2.0).Floor;
            0 <= x && x + part <= total && 0 <= (total - x - part) - x <= 1
  {
  }

  /** Scaled by the cover ratio, the source covers the destination on both axes. */
  lemma CoverRatioCovers(origW: nat, origH: nat, newW: nat, newH: nat)
    requires origW > 0 && origH > 0
    ensures var k := CoverRatio(origW, origH, newW, newH);
            newW as real <= k * origW as real && newH as real <= k * origH as real
  {
    var a, b := newW as real / origW as real, newH as real / origH as real;
    var k := CoverRatio(origW, origH, newW, newH);
    assert a <= k && b <= k;
    assert a * origW as real == newW as real;
    assert b * origH as real == newH as real;
  }

  /** Scaled back by the cover ratio and rounded, the destination fits inside the source. */
  lemma CoverRatioRoundsWithin(origW: nat, origH: nat, newW: nat, newH: nat)
    requires origW > 0 && origH > 0 && (newW > 0 || newH > 0)
    ensures var k := CoverRatio(origW, origH, newW, newH);
            && 0 <= Round(newW as real / k) <= origW
            && 0 <= Round(newH as real / k) <= origH
  {
    var k := CoverRatio(origW, origH, newW, newH);
    CoverRatioCovers(origW, origH, newW, newH);
    RoundedBackWithin(newW, k, origW);
    RoundedBackWithin(newH, k, origH);
  }

  /** The cover ratio scales the source onto the destination exactly on at least one axis. */
  lemma CoverRatioTouches(origW: nat, origH: nat, newW: nat, newH: nat)
    requires origW > 0 && origH > 0 && (newW > 0 || newH > 0)
    ensures var k := CoverRatio(origW, origH, newW, newH);
            newW as real / k == origW as real || newH as real / k == origH as real
  {
    var a, b := newW as real / origW as real, newH as real / origH as real;
    var k := CoverRatio(origW, origH, newW, newH);
    assert k == Max(a, b);
    if k == a && newW > 0 {
      DivByOwnRatio(newW as real, origW as real);
    } else {
      assert k == b && newH > 0;
      DivByOwnRatio(newH as real, origH as real);
    }
  }

  /** With both destination sides given, the destination is exactly that size, larger than the original or not. */
  lemma CropKeepsRequestedSize(origW: nat, origH: nat, destW: nat, destH: nat)
    requires origW > 0 && origH > 0 && destW > 0 && destH > 0
    ensures var r := CropToFill(origW, origH, destW, destH);
            r.dstW == destW && r.dstH == destH
  {
  }

  /** A missing destination width is derived from the height through the original's aspect ratio, truncated. */
  lemma CropDerivesWidth(origW: nat, origH: nat, destH: nat)
    requires origW > 0 && origH > 0
    ensures var n := CropWidth(origW, origH, 0, destH);
            && n as real * origH as real <= destH as real * origW as real
            && destH as real * origW as real < n as real * origH as real + origH as real
  {
    var n := CropWidth(origW, origH, 0, destH);
    var w, h := origW as real, origH as real;
    var x := destH as real * (w / h);
    assert x * h == destH as real * w by {
      assert (w / h) * h == w;
    }
    TruncatedQuotient(n, x, destH as real * w, h);
  }

  /** A missing destination height is derived from the width through the original's aspect ratio, truncated. */
  lemma CropDerivesHeight(origW: nat, origH: nat, destW: nat)
    requires origW > 0 && origH > 0
    ensures var n := CropHeight(origW, origH, destW, 0);
            && n as real * origW as real <= destW as real * origH as real
            && destW as real * origH as real < n as real * origW as real + origW as real
  {
    var n := CropHeight(origW, origH, destW, 0);
    var w, h := origW as real, origH as real;
    assert CropWidth(origW, origH, destW, 0) == destW by {
      if destW == 0 {
        assert 0 as real * (w / h) == 0.0;
        IntValOfWhole(0);
      }
    }
    var x := destW as real / (w / h);
    assert x * w == destW as real * h by {
      assert x * (w / h) == destW as real;
      assert (w / h) * h == w;
    }
    TruncatedQuotient(n, x, destW as real * h, w);
  }

  /** If `x` is the quotient `num / f` and `n <= x < n + 1`, then `n * f <= num < n * f + f`. */
  lemma TruncatedQuotient(n: int, x: real, num: real, f: real)
    requires n as real <= x < (n + 1) as real && 0.0 < f && x * f == num
    ensures n as real * f <= num < n as real * f + f
  {
    assert x * f < (n + 1) as real * f;
    assert (n + 1) as real * f == n as real * f + f;
  }

  /**
    The source rectangle is the destination scaled back by the cover ratio and
    rounded: the smallest factor by which the whole source covers the
    destination, under which at least one side of the source is scaled exactly
    onto the destination.
   */
  lemma CropRectScaledBack(origW: nat, origH: nat, newW: nat, newH: nat)
    requires origW > 0 && origH > 0 && (newW > 0 || newH > 0)
    ensures var r := CropRect(origW, origH, newW, newH);
            var k := CoverRatio(origW, origH, newW, newH);
            && 0.0 < k
            && newW as real <= k * origW as real && newH as real <= k * origH as real
            && (newW as real / k == origW as real || newH as real / k == origH as real)
            && r.srcW as real - 0.5 <= newW as real / k < r.srcW as real + 0.5
            && r.srcH as real - 0.5 <= newH as real / k < r.srcH as real + 0.5
  {
    CoverRatioCovers(origW, origH, newW, newH);
    CoverRatioTouches(origW, origH, newW, newH);
  }

  /**
    The source rectangle lies inside the original and is centred in it (the
    two margins differ by at most a pixel), and it spans the original's full
    width or full height: the largest portion of that shape.
   */
  lemma CropCentredWithinSource(origW: nat, origH: nat, destW: nat, destH: nat)
    requires origW > 0 && origH > 0 && (destW > 0 || destH > 0)
    ensures var r := CropToFill(origW, origH, destW, destH);
            && WithinSource(r, origW, origH)
            && 0 <= (origW - r.srcX - r.srcW) - r.srcX <= 1
            && 0 <= (origH - r.srcY - r.srcH) - r.srcY <= 1
            && (r.srcW == origW || r.srcH == origH)
  {
    RectCentredWithinSource(origW, origH, CropWidth(origW, origH, destW, destH), CropHeight(origW, origH, destW, destH));
  }

  lemma RectCentredWithinSource(origW: nat, origH: nat, newW: nat, newH: nat)
    requires origW > 0 && origH > 0 && (newW > 0 || newH > 0)
    ensures var r := CropRect(origW, origH, newW, newH);
            && WithinSource(r, origW, origH)
            && 0 <= (origW - r.srcX - r.srcW) - r.srcX <= 1
            && 0 <= (origH - r.srcY - r.srcH) - r.srcY <= 1
            && (r.srcW == origW || r.srcH == origH)
  {
    var r := CropRect(origW, origH, newW, newH);
    var k := CoverRatio(origW, origH, newW, newH);
    assert r.srcW == Round(newW as real / k) && r.srcH == Round(newH as real / k);
    CoverRatioRoundsWithin(origW, origH, newW, newH);
    CentredOffset(origW, r.srcW);
    CentredOffset(origH, r.srcH);
    assert r.srcW == origW || r.srcH == origH by {
      CoverRatioTouches(origW, origH, newW, newH);
      RoundOfWhole(origW);
      RoundOfWhole(origH);
    }
  }

  /**
    Without crop, and with a full box, the destination fits the box and meets
    at least one of its sides, so an original smaller than the box is enlarged.
   */
  lemma FitInsideMeetsBox(origW: nat, origH: nat, destW: nat, destH: nat)
    requires origW > 0 && origH > 0 && destW > 0 && destH > 0
    ensures var r := FitInside(origW, origH, destW, destH);
            && r.dstW <= destW && r.dstH <= destH
            && (r.dstW == destW || r.dstH == destH)
  {
    ConstrainProofs.ConstrainFitsBox(origW, origH, destW, destH);
    ConstrainProofs.ConstrainTouchesBox(origW, origH, destW, destH);
  }

  /**
    Whatever the branch, a computed geometry reads a rectangle inside the
    source and writes a non-negative size at the destination's origin.
   */
  lemma ImageResizeWithinSource(origW: nat, origH: nat, destW: nat, destH: nat, crop: bool)
    requires crop ==> origW > 0 && origH > 0 && (destW > 0 || destH > 0)
    ensures var r := ImageResizeDimensions(None, origW, origH, destW, destH, crop);
            && r.dstX == 0 && r.dstY == 0
            && WithinSource(r, origW, origH)
            && 0 <= r.dstW && 0 <= r.dstH
  {
    if crop {
      CropCentredWithinSource(origW, origH, destW, destH);
    }
  }

  /** 1000×500 cropped to 200×200 reads the centred 500×500 square. */
  lemma CropSquareFromWide()
    ensures ImageResizeDimensions(None, 1000, 500, 200, 200, true) == Resample(0, 0, 250, 0, 200, 200, 500, 500)
  {
    var k := CoverRatio(1000, 500, 200, 200);
    assert k == 0.4;
    assert 200.0 / k == 500.0;
    RoundOfWhole(500);
    assert (500 as real / 2.0).Floor == 250;
  }

  /** 800×600 with only a 300 height bound and no crop becomes 400×300 from the whole source. */
  lemma FitHeightBoundOnly()
    ensures ImageResizeDimensions(None, 800, 600, 0, 300, false) == Resample(0, 0, 0, 0, 400, 300, 800, 600)
  {
    ConstrainProofs.ConstrainHeightBoundOnly();
  }
}
