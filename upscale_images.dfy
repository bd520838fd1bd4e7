/**
  The resize geometry of the Upscale Images plugin (class BJ_Upscale_Images):
  the replacement it installs for the host's `image_resize_dimensions` filter,
  which lets small images be scaled up as well as down, and the
  `constrain_dimensions` box fit it uses when no crop is asked for.

  Ratios are exact rationals; every place where the plugin turns a ratio back
  into pixels goes through PhpMath (intval, round, floor).
 */
module UpscaleImages {
  import opened PhpMath

  datatype Option<T> = None | Some(value: T)

  /** A width × height pair, as returned by `constrain_dimensions`. */
  datatype Size = Size(w: int, h: int)

  /**
    The eight integers handed to the host's resampler, in the order of
    imagecopyresampled(): destination offset, source offset, destination size,
    source (crop) size.
   */
  datatype Resample = Resample(
    dstX: int, dstY: int,
    srcX: int, srcY: int,
    dstW: int, dstH: int,
    srcW: int, srcH: int)

  /** The source rectangle lies inside an `origW` × `origH` image. */
  predicate WithinSource(g: Resample, origW: int, origH: int)
  {
    && 0 <= g.srcX && 0 <= g.srcW && g.srcX + g.srcW <= origW
    && 0 <= g.srcY && 0 <= g.srcH && g.srcY + g.srcH <= origH
  }

  // ---------------------------------------------------------------------
  // constrain_dimensions
  // ---------------------------------------------------------------------

  /** An axis takes part in the fit when it has both a bound and some extent. */
  predicate AxisConstrained(current: nat, max: nat)
  {
    max > 0 && current > 0
  }

  /** `max / current` for a constrained axis, 1.0 for any other. */
  function AxisRatio(current: nat, max: nat): (r: real)
    ensures 0.0 < r
    ensures AxisConstrained(current, max) ==> current as real * r == max as real
  {
    if AxisConstrained(current, max) then max as real / current as real else 1.0
  }

  /** One axis scaled by `ratio` and truncated. */
  function ScaleAxis(current: nat, ratio: real): (r: int)
    requires 0.0 <= ratio
    ensures 0 <= r
  {
    IntVal(current as real * ratio)
  }

  /** The larger ratio would push some axis past its bound (a 0 bound counts as 0 here). */
  predicate Overflows(cw: nat, ch: nat, mw: nat, mh: nat, ratio: real)
    requires 0.0 <= ratio
  {
    ScaleAxis(cw, ratio) > mw || ScaleAxis(ch, ratio) > mh
  }

  /**
    The ratio the fit uses: the larger of the two axis ratios when it does not
    overflow the box (the snug fit), the smaller one otherwise.
   */
  function SnugRatio(cw: nat, ch: nat, mw: nat, mh: nat): (r: real)
    ensures 0.0 < r
    ensures r == Min(AxisRatio(cw, mw), AxisRatio(ch, mh)) || r == Max(AxisRatio(cw, mw), AxisRatio(ch, mh))
  {
    var larger := Max(AxisRatio(cw, mw), AxisRatio(ch, mh));
    var smaller := Min(AxisRatio(cw, mw), AxisRatio(ch, mh));
    if Overflows(cw, ch, mw, mh, larger) then smaller else larger
  }

  /** The rounding correction: a constrained axis one pixel short of its bound is raised to it. */
  function BumpAxis(v: int, current: nat, max: nat): (r: int)
    ensures r == v || (AxisConstrained(current, max) && v == max - 1 && r == max)
    ensures AxisConstrained(current, max) ==> r != max - 1
  {
    if AxisConstrained(current, max) && v == max - 1 then max else v
  }

  /**
    `constrain_dimensions($current_width, $current_height, $max_width, $max_height)`:
    fit a `cw` × `ch` image into an `mw` × `mh` box, where a 0 bound means
    that axis is unbounded.
   */
  function ConstrainDimensions(cw: nat, ch: nat, mw: nat, mh: nat): (r: Size)
    ensures 0 <= r.w && 0 <= r.h
    ensures mw == 0 && mh == 0 ==> r == Size(cw, ch)
    ensures AxisConstrained(cw, mw) ==> r.w != mw - 1
    ensures AxisConstrained(ch, mh) ==> r.h != mh - 1
  {
    if mw == 0 && mh == 0 then
      Size(cw, ch)
    else
      var ratio := SnugRatio(cw, ch, mw, mh);
      Size(BumpAxis(ScaleAxis(cw, ratio), cw, mw), BumpAxis(ScaleAxis(ch, ratio), ch, mh))
  }

  // ---------------------------------------------------------------------
  // image_resize_dimensions
  // ---------------------------------------------------------------------

  /**
    The factor that makes an `origW` × `origH` source just cover a
    `newW` × `newH` destination: the larger of the two axis ratios.
   */
  function CoverRatio(origW: nat, origH: nat, newW: nat, newH: nat): (r: real)
    requires origW > 0 && origH > 0
    ensures newW > 0 || newH > 0 ==> 0.0 < r
  {
    Max(newW as real / origW as real, newH as real / origH as real)
  }

  /** The destination width: `dest_w`, or derived from `dest_h` and the aspect ratio when 0. */
  function CropWidth(origW: nat, origH: nat, destW: nat, destH: nat): (r: nat)
    requires origW > 0 && origH > 0
  {
    if destW == 0 then IntVal(destH as real * (origW as real / origH as real)) else destW
  }

  /** The destination height: `dest_h`, or derived from the (possibly derived) width when 0. */
  function CropHeight(origW: nat, origH: nat, destW: nat, destH: nat): (r: nat)
    requires origW > 0 && origH > 0
  {
    if destH == 0 then
      IntVal(CropWidth(origW, origH, destW, destH) as real / (origW as real / origH as real))
    else
      destH
  }

  /**
    Lines 66-72 of the crop branch: scale the destination back by the cover
    ratio, round, and centre the resulting rectangle in the source.
   */
  function CropRect(origW: nat, origH: nat, newW: nat, newH: nat): (r: Resample)
    requires origW > 0 && origH > 0 && (newW > 0 || newH > 0)
    ensures r.dstX == 0 && r.dstY == 0 && r.dstW == newW && r.dstH == newH
  {
    var sizeRatio := CoverRatio(origW, origH, newW, newH);
    var cropW := Round(newW as real / sizeRatio);
    var cropH := Round(newH as real / sizeRatio);
    var sX := ((origW - cropW) as real / 2.0).Floor;
    var sY := ((origH - cropH) as real / 2.0).Floor;
    Resample(0, 0, sX, sY, newW, newH, cropW, cropH)
  }

  /**
    The crop branch: cut the largest centred portion of the source that has
    the destination's shape, and size it to the destination.
   */
  function CropToFill(origW: nat, origH: nat, destW: nat, destH: nat): (r: Resample)
    requires origW > 0 && origH > 0 && (destW > 0 || destH > 0)
    ensures r.dstX == 0 && r.dstY == 0
    ensures r.dstW == CropWidth(origW, origH, destW, destH) && r.dstH == CropHeight(origW, origH, destW, destH)
  {
    CropRect(origW, origH, CropWidth(origW, origH, destW, destH), CropHeight(origW, origH, destW, destH))
  }

  /** The no-crop branch: the whole source, sized by `constrain_dimensions`. */
  function FitInside(origW: nat, origH: nat, destW: nat, destH: nat): (r: Resample)
    ensures r.dstX == 0 && r.dstY == 0
    ensures r.srcX == 0 && r.srcY == 0 && r.srcW == origW && r.srcH == origH
    ensures Size(r.dstW, r.dstH) == ConstrainDimensions(origW, origH, destW, destH)
  {
    var size := ConstrainDimensions(origW, origH, destW, destH);
    Resample(0, 0, 0, 0, size.w, size.h, origW, origH)
  }

  /**
    The filter callback `image_resize_dimensions($value, ...)`: a value some
    other callback already produced wins; otherwise the geometry is computed.
    Only the crop branch divides by the original size and by the cover ratio,
    so only it needs a non-empty source and at least one destination axis.
   */
  function ImageResizeDimensions(
    value: Option<Resample>, origW: nat, origH: nat, destW: nat, destH: nat, crop: bool): (r: Resample)
    requires value.None? && crop ==> origW > 0 && origH > 0 && (destW > 0 || destH > 0)
    ensures value.Some? ==> r == value.value
    ensures value.None? ==> r.dstX == 0 && r.dstY == 0
    ensures value.None? && !crop ==>
      && r.srcX == 0 && r.srcY == 0 && r.srcW == origW && r.srcH == origH
      && Size(r.dstW, r.dstH) == ConstrainDimensions(origW, origH, destW, destH)
  {
    match value
    case Some(v) => v
    case None => if crop then CropToFill(origW, origH, destW, destH) else FitInside(origW, origH, destW, destH)
  }
}
