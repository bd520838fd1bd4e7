# Upscale Images: resize geometry

This project models the WordPress plugin *Upscale Images* (`upscale-images.php`, class
`BJ_Upscale_Images`) and proves properties of that model. The plugin replaces the host's
`image_resize_dimensions` filter so that images smaller than the requested size are
enlarged, not only reduced. It has two pieces of logic:

- `image_resize_dimensions($value, $orig_w, $orig_h, $dest_w, $dest_h, $crop)` returns the
  eight integers handed to `imagecopyresampled()`: the destination offset, the source
  offset, the destination size and the source (crop) size.
  - With `$crop`, it is a cover fit. A missing destination side is derived from the
    original's aspect ratio and truncated. The destination is scaled back by the larger of
    the two ratios and rounded, and the resulting rectangle is centred in the source with
    `floor`.
  - Without `$crop`, it is a contain fit. The whole source is used, and the destination
    size comes from `constrain_dimensions`.
  - A non-null `$value` produced by another callback is returned untouched.
- `constrain_dimensions($current_width, $current_height, $max_width, $max_height)` fits an
  image into a box in which a 0 bound means that axis is unbounded. It takes the larger of
  the two axis ratios unless that ratio would overflow the box, truncates with `intval`,
  and raises a bounded axis that comes out one pixel short of its bound to the bound.

The code is pure arithmetic, so the model is made of functions and lemmas:

- `php_math.dfy` (module `PhpMath`) defines PHP's `intval` (truncation toward zero) and
  `round` (nearest, halves away from zero) over exact rationals. `floor` is Dafny's
  `.Floor`.
- `upscale_images.dfy` (module `UpscaleImages`) holds the datatypes and the two
  operations, split into the steps the source takes.
- `constrain_proofs.dfy` (module `ConstrainProofs`) holds what `constrain_dimensions`
  promises: it fits the box, touches it, keeps the aspect ratio, never enlarges the image
  under a single bound beyond the one-pixel rounding correction, and is idempotent (the
  purpose stated for the rounding correction).
- `resize_proofs.dfy` (module `ResizeProofs`) holds what `image_resize_dimensions`
  promises in each branch, with the worked examples.

Two details of the code fix the model's domain and rounding:

- With crop, the code divides by zero (lines 54, 66 and 68-69) when a side of the original
  is 0 or both destination sides are 0, so the crop branch requires these to be non-zero.
- PHP's `round` breaks ties away from zero, and the model does the same.

## Model

| member | source | states |
|---|---|---|
| UpscaleImages.ImageResizeDimensions | upscale-images.php:45-88 | a non-null value from an earlier callback is returned unchanged; otherwise the destination offset is (0, 0); without crop the whole source is read and the destination size is exactly constrain_dimensions of the original into the requested box |
| UpscaleImages.FitInside | upscale-images.php:73-82 | the no-crop branch reads the whole source from (0, 0) and writes at (0, 0) a destination sized by constrain_dimensions |
| UpscaleImages.CropToFill | upscale-images.php:52-72 | the crop branch writes at (0, 0), and its destination size is the requested size with a zero side replaced by the derived one |
| UpscaleImages.CropRect | upscale-images.php:66-72 | the crop rectangle computation keeps the destination at (0, 0) with the size it was given |
| UpscaleImages.CoverRatio | upscale-images.php:66 | the cover ratio is positive whenever some destination side is |
| UpscaleImages.ConstrainDimensions | upscale-images.php:94-134 | the result is non-negative; with both bounds 0 the input comes back unchanged; a bounded axis of a non-empty image never ends one pixel short of its bound |
| UpscaleImages.AxisRatio | upscale-images.php:98-109 | an axis ratio is positive, and scaling a constrained axis by it gives exactly the bound |
| UpscaleImages.SnugRatio | upscale-images.php:111-120 | the chosen ratio is positive and is one of the two axis ratios |
| UpscaleImages.BumpAxis | upscale-images.php:128-131 | the correction changes a value only when it is one short of the bound of a constrained axis, and then to the bound; afterwards it is never one short |
| UpscaleImages.ScaleAxis | upscale-images.php:122-123 | a scaled and truncated side is non-negative |
| PhpMath.IntVal | upscale-images.php:59 | truncation toward zero: the result is the whole number at or below a non-negative argument, less than one away, and the mirror image for negative ones |
| PhpMath.Round | upscale-images.php:68-69 | the result is within half a unit of the argument, halves going away from zero |
| PhpMath.Min | upscale-images.php:112 | the smaller of the two ratios |
| PhpMath.Max | upscale-images.php:113 | the larger of the two ratios |
| ConstrainProofs.ConstrainFitsBox | upscale-images.php:111-131 | on every axis with a bound the result is at most that bound, for all inputs, the correction included |
| ConstrainProofs.ConstrainTouchesBox | upscale-images.php:111-131 | with both bounds and a non-empty image, the result reaches the box on at least one axis, so a small image is enlarged until it meets a side |
| ConstrainProofs.ConstrainKeepsAspect | upscale-images.php:115-131 | both axes are scaled by the same positive factor, and each result is within one pixel of the exact scaled size |
| ConstrainProofs.ConstrainHeightOnly | upscale-images.php:98-131 | with only a height bound the ratio is min(1, bound / height); the width never grows and is kept when the height is within the bound; the height becomes the bound when it was above it or one short of it, and is kept otherwise |
| ConstrainProofs.ConstrainWidthOnly | upscale-images.php:98-131 | with only a width bound the ratio is min(1, bound / width); the height never grows and is kept when the width is within the bound; the width becomes the bound when it was above it or one short of it, and is kept otherwise |
| ConstrainProofs.ConstrainZeroWidth | upscale-images.php:101-131 | an image of width 0 with a height bound gets exactly the bound's height and width 0 |
| ConstrainProofs.ConstrainSwap | upscale-images.php:94-134 | exchanging the two axes of the input and of the box exchanges the two axes of the result |
| ConstrainProofs.ConstrainIdempotent | upscale-images.php:125-131 | constraining a result again to the same box gives the same result, for every input |
| ConstrainProofs.ConstrainTallIntoSquare | upscale-images.php:125 | 465×700 in a 177×177 box gives 117×177 |
| ConstrainProofs.ConstrainHeightBoundOnly | upscale-images.php:98-123 | 800×600 with only a height bound of 300 gives 400×300 |
| ResizeProofs.CropKeepsRequestedSize | upscale-images.php:55-56 | with both destination sides given, the crop branch writes exactly that size, also when it is larger than the original |
| ResizeProofs.CropDerivesWidth | upscale-images.php:58-60 | a missing destination width is the height times the original's aspect ratio, truncated: n·orig_h ≤ dest_h·orig_w < (n+1)·orig_h |
| ResizeProofs.CropDerivesHeight | upscale-images.php:62-64 | a missing destination height is the width divided by the aspect ratio, truncated: n·orig_w ≤ dest_w·orig_h < (n+1)·orig_w |
| ResizeProofs.CoverRatioCovers | upscale-images.php:66 | the original scaled by the cover ratio covers the destination on both axes |
| ResizeProofs.CoverRatioTouches | upscale-images.php:66 | scaled back by the cover ratio, one destination side is exactly the original's side |
| ResizeProofs.CropRectScaledBack | upscale-images.php:66-69 | the crop size is the destination scaled back by the cover ratio and rounded to within half a pixel; the ratio is positive, covers the destination on both axes and is exact on one |
| ResizeProofs.CropCentredWithinSource | upscale-images.php:52-72 | the crop rectangle lies inside the original, its two margins differ by at most one pixel on each axis, and it spans the original's full width or full height |
| ResizeProofs.FitInsideMeetsBox | upscale-images.php:73-82 | without crop and with a full box, the destination fits the box and meets one of its sides, so a small original is enlarged |
| ResizeProofs.ImageResizeWithinSource | upscale-images.php:52-86 | in either branch the computed geometry writes at (0, 0), has a non-negative size and reads a rectangle inside the original |
| ResizeProofs.CropSquareFromWide | upscale-images.php:52-86 | 1000×500 cropped to 200×200 gives (0, 0, 250, 0, 200, 200, 500, 500) |
| ResizeProofs.FitHeightBoundOnly | upscale-images.php:73-86 | 800×600 resized without crop to a height of 300 gives (0, 0, 0, 0, 400, 300, 800, 600) |

## Left out

- The constructor and the `add_filter` registration (upscale-images.php:29, 33-39) are
  left out. They are hook plumbing with no behaviour of their own.
- The pixel copy by `imagecopyresampled()` that consumes the eight integers is left out.
  It is host code.
- Ratios are exact rationals, not IEEE doubles. Products that land just below a whole
  number in double precision, and PHP `round`'s pre-rounding of such values, are not
  reproduced. In exact arithmetic, 465×700 in a 177×177 box already gives 117×177 before
  the correction. The property that the correction makes a second constraint change
  nothing is proved for exact arithmetic only.
- PHP's loose typing is not modelled:
  - `$value` is either absent or an eight-integer geometry, so a non-null value of
    another shape (such as `false`) is not represented;
  - `$crop` is a boolean rather than any truthy value;
  - the sizes are non-negative integers, so empty strings, nulls and negative numbers are
    not represented.
- UpscaleImages.ImageResizeDimensions: requires, for the crop branch, a non-empty original
  and at least one destination side. The code divides by zero otherwise (lines 54, 66 and
  68-69), which PHP reports as a warning or an error rather than a result.
- The `(int)` casts at line 86 are identities in the model: every value reaching them is
  already a whole number here.
- A single bound can stretch an image by one pixel. For example, 800×299 with only a height
  bound of 300 becomes 800×300, because the correction raises the height while the width
  stays. ConstrainProofs.ConstrainHeightOnly states this behaviour as the code has it.
