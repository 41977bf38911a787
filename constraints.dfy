/** `checkImageIsLargeEnough` and the crop reset of `onImageSelected`
    (imageplus.panel.input.js). */
module Constraints {
  import opened Wrappers
  import opened TvCodec

  /** A missing dimension behaves as 0 in every comparison below,
      since `undefined > 0` is false. */
  function Dim(d: Option<real>): (r: real) {
    d.GetOr(0.0)
  }

  /** Lines 317-331: an image is rejected when a configured minimum exceeds
      a known (positive) dimension; a falsy `sourceImg` (undefined, null or
      false) is always accepted. */
  function LargeEnough(img: SourceRef, targetWidth: real, targetHeight: real): (ok: bool)
    ensures !ok <==>
      img.Obj? &&
      ((targetWidth > 0.0 && Dim(img.value.width) > 0.0 && targetWidth > Dim(img.value.width)) ||
       (targetHeight > 0.0 && Dim(img.value.height) > 0.0 && targetHeight > Dim(img.value.height)))
  {
    if !img.Obj? then true
    else if targetWidth > 0.0 && Dim(img.value.width) > 0.0 && targetWidth > Dim(img.value.width) then false
    else if targetHeight > 0.0 && Dim(img.value.height) > 0.0 && targetHeight > Dim(img.value.height) then false
    else true
  }

  /** With no minimum configured every image is accepted. */
  lemma UnconstrainedAccepts(img: SourceRef, targetWidth: real, targetHeight: real)
    requires targetWidth <= 0.0 && targetHeight <= 0.0
    ensures LargeEnough(img, targetWidth, targetHeight)
  {
  }

  /** An accepted image meets every configured minimum wherever its size is known. */
  lemma AcceptedMeetsMinimum(s: SrcImg, targetWidth: real, targetHeight: real)
    requires LargeEnough(Obj(s), targetWidth, targetHeight)
    ensures s.width.Some? && s.width.value > 0.0 ==> s.width.value >= targetWidth
    ensures s.height.Some? && s.height.value > 0.0 ==> s.height.value >= targetHeight
  {
  }

  /** An image of 100 x 50 is too small for a minimum width of 200. */
  lemma NarrowImageRejected()
    ensures !LargeEnough(Obj(SrcImg(Some("a.jpg"), Some(100.0), Some(50.0), None, None, ["src", "width", "height"])), 200.0, 0.0)
  {
  }

  /** Lines 187-201, kept as written: a new image gets a crop at the origin;
      with no target ratio (0 is falsy) it covers the image; with one, the
      branch taken is decided by `width / height < targetRatio` (false when
      the height is 0, as the JavaScript quotient is infinite or NaN); the
      first branch keeps the width and divides the HEIGHT by the ratio, the
      second divides the WIDTH by the ratio and keeps the height. */
  function ResetCrop(width: nat, height: nat, targetRatio: real): (c: Crop)
    ensures c.x == 0.0 && c.y == 0.0
    ensures targetRatio == 0.0 ==> c.width == width as real && c.height == height as real
    ensures targetRatio != 0.0 && height > 0 && (width as real) / (height as real) < targetRatio ==>
      c.width == width as real && c.height * targetRatio == height as real
    ensures targetRatio != 0.0 && !(height > 0 && (width as real) / (height as real) < targetRatio) ==>
      c.width * targetRatio == width as real && c.height == height as real
  {
    var w, h := width as real, height as real;
    if targetRatio != 0.0 then
      if height > 0 && w / h < targetRatio then Crop(0.0, 0.0, w, h / targetRatio)
      else Crop(0.0, 0.0, w / targetRatio, h)
    else Crop(0.0, 0.0, w, h)
  }

  /** A square 1000 x 1000 image with target ratio 2 gets a 1000 x 500 crop. */
  lemma SquareCropScenario()
    ensures ResetCrop(1000, 1000, 2.0) == Crop(0.0, 0.0, 1000.0, 500.0)
  {
  }

  /** A 1000 x 500 image with target ratio 2 gets a 500 x 500 crop as written,
      not the full 1000 x 500 image that already has ratio 2. */
  lemma WideCropScenario()
    ensures ResetCrop(1000, 500, 2.0) == Crop(0.0, 0.0, 500.0, 500.0)
  {
  }

  /** For a square image the as-written crop has exactly the target aspect
      ratio whenever the ratio exceeds 1. */
  lemma SquareImageGetsTargetAspect(side: nat, targetRatio: real)
    requires side > 0 && targetRatio > 1.0
    ensures var c := ResetCrop(side, side, targetRatio); c.width == c.height * targetRatio
  {
    var s := side as real;
    assert s / s == 1.0;
  }

  /** With no ratio, or a ratio of at least 1, the as-written crop lies
      inside the image. */
  lemma ResetCropFits(width: nat, height: nat, targetRatio: real)
    requires targetRatio == 0.0 || targetRatio >= 1.0
    ensures var c := ResetCrop(width, height, targetRatio);
      0.0 <= c.width <= width as real && 0.0 <= c.height <= height as real
  {
    var w, h := width as real, height as real;
    if targetRatio != 0.0 {
      assert w / targetRatio <= w by {
        assert (w / targetRatio) * targetRatio == w;
      }
      if height > 0 {
        assert h / targetRatio <= h by {
          assert (h / targetRatio) * targetRatio == h;
        }
      }
    }
  }

  /** The as-written crop leaves the image for a ratio below 1, and misses
      the target aspect for a tall image: a 1000 x 1000 image with ratio 0.5
      gets a crop 2000 wide, a 100 x 1000 one a crop 2000 high, and a
      500 x 1000 image with ratio 2 a square crop. */
  lemma ResetCropMisfits()
    ensures ResetCrop(1000, 1000, 0.5) == Crop(0.0, 0.0, 2000.0, 1000.0)
    ensures ResetCrop(100, 1000, 0.5) == Crop(0.0, 0.0, 100.0, 2000.0)
    ensures ResetCrop(500, 1000, 2.0) == Crop(0.0, 0.0, 500.0, 500.0)
  {
  }

  /** The crop lines 190-197 evidently intend: the largest rectangle at the
      origin with the target aspect (width over height) that fits the image,
      or the whole image when no ratio is set. */
  function FittedCrop(width: nat, height: nat, targetRatio: real): (c: Crop)
    ensures c.x == 0.0 && c.y == 0.0
    ensures targetRatio == 0.0 ==> c.width == width as real && c.height == height as real
    ensures targetRatio > 0.0 ==> c.width == c.height * targetRatio
    ensures targetRatio > 0.0 ==> 0.0 <= c.width <= width as real && 0.0 <= c.height <= height as real
    ensures targetRatio > 0.0 ==> c.width == width as real || c.height == height as real
  {
    var w, h := width as real, height as real;
    if targetRatio != 0.0 then
      if height > 0 && w / h < targetRatio then
        assert w < h * targetRatio by { assert (w / h) * h == w; }
        assert (w / targetRatio) * targetRatio == w;
        Crop(0.0, 0.0, w, w / targetRatio)
      else
        assert height > 0 ==> h * targetRatio <= w by {
          if height > 0 { assert (w / h) * h == w; }
        }
        Crop(0.0, 0.0, h * targetRatio, h)
    else Crop(0.0, 0.0, w, h)
  }

  /** The corrected crop on the images of `ResetCropMisfits` and the wide
      image of `WideCropScenario`: each gets the target aspect inside the image. */
  lemma FittedCropScenarios()
    ensures FittedCrop(1000, 1000, 0.5) == Crop(0.0, 0.0, 500.0, 1000.0)
    ensures FittedCrop(100, 1000, 0.5) == Crop(0.0, 0.0, 100.0, 200.0)
    ensures FittedCrop(500, 1000, 2.0) == Crop(0.0, 0.0, 500.0, 250.0)
    ensures FittedCrop(1000, 500, 2.0) == Crop(0.0, 0.0, 1000.0, 500.0)
  {
  }

  /** Where the code is right the two agree: for a square image with a ratio
      of at least 1 the corrected crop is the as-written one. */
  lemma FittedAgreesOnSquare(side: nat, targetRatio: real)
    requires side > 0 && targetRatio >= 1.0
    ensures FittedCrop(side, side, targetRatio) == ResetCrop(side, side, targetRatio)
  {
    var s := side as real;
    assert s / s == 1.0;
  }
}
