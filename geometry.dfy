/** Placement of the background image on the export raster.
    The exporter reproduces the on-screen CSS placement `background-size: contain`
    (CSS Backgrounds and Borders Module Level 3, section 3.9) together with
    `background-position: center` (same module, section 3.6). All lengths are
    CSS pixels, modelled as exact reals. */
module Geometry {

  /** An axis-aligned rectangle: top-left corner (x, y), width w and height h. */
  datatype Rect = Rect(x: real, y: real, w: real, h: real)

  /** The rectangle of size (w, h) centred in a box of size (boxW, boxH). */
  function Centered(boxW: real, boxH: real, w: real, h: real): (r: Rect)
    ensures r.w == w && r.h == h
    ensures 2.0 * r.x + w == boxW && 2.0 * r.y + h == boxH
  {
    Rect((boxW - w) / 2.0, (boxH - h) / 2.0, w, h)
  }

  /** The contain-fit, centred placement of an image of natural size
      (naturalW, naturalH) in a box of size (boxW, boxH), computed as the
      exporter computes it: compare the two aspect ratios, fit the wider
      dimension, derive the other from the image's aspect ratio, then centre.
      The box may be empty. For a box of height 0, JavaScript's boxW / boxH is
      Infinity (or NaN when boxW is 0 too), and the comparison is false in
      both cases, so the image is fitted to the zero height. */
  function ContainFit(boxW: real, boxH: real, naturalW: real, naturalH: real): (p: Rect)
    requires boxW >= 0.0 && boxH >= 0.0 && naturalW > 0.0 && naturalH > 0.0
    // the placed image fits inside the box, and is not empty when the box is not
    ensures 0.0 <= p.w <= boxW && 0.0 <= p.h <= boxH
    ensures boxW > 0.0 && boxH > 0.0 ==> 0.0 < p.w && 0.0 < p.h
    // the image keeps its aspect ratio
    ensures p.w * naturalH == p.h * naturalW
    ensures boxW > 0.0 && boxH > 0.0 ==> p.w / p.h == naturalW / naturalH
    // one side is flush with the box: the width when the image is relatively wider, else the height
    ensures naturalW * boxH > boxW * naturalH ==> p.w == boxW && p.x == 0.0
    ensures naturalW * boxH <= boxW * naturalH ==> p.h == boxH && p.y == 0.0
    // the image is centred
    ensures 0.0 <= p.x && 0.0 <= p.y
    ensures 2.0 * p.x + p.w == boxW && 2.0 * p.y + p.h == boxH
  {
    var imgAspectRatio := naturalW / naturalH;
    if boxH > 0.0 && imgAspectRatio > boxW / boxH then
      WiderFits(boxW, boxH, naturalW, naturalH);
      Centered(boxW, boxH, boxW, boxW / imgAspectRatio)
    else
      TallerFits(boxW, boxH, naturalW, naturalH);
      Centered(boxW, boxH, boxH * imgAspectRatio, boxH)
  }

  /** An image relatively wider than the box, fitted to the box's width,
      keeps its height inside the box. */
  lemma WiderFits(boxW: real, boxH: real, naturalW: real, naturalH: real)
    requires boxW >= 0.0 && boxH > 0.0 && naturalW > 0.0 && naturalH > 0.0
    requires naturalW / naturalH > boxW / boxH
    ensures naturalW * boxH > boxW * naturalH
    ensures 0.0 <= boxW / (naturalW / naturalH) < boxH
    ensures (boxW / (naturalW / naturalH)) * naturalW == boxW * naturalH
  {
    // both cross products are the ratios scaled by naturalH * boxH
    assert naturalW * boxH == (naturalW / naturalH) * (naturalH * boxH);
  }

  /** An image relatively taller than the box (or any image in a box of
      height 0), fitted to the box's height, keeps its width inside the box. */
  lemma TallerFits(boxW: real, boxH: real, naturalW: real, naturalH: real)
    requires boxW >= 0.0 && boxH >= 0.0 && naturalW > 0.0 && naturalH > 0.0
    requires !(boxH > 0.0 && naturalW / naturalH > boxW / boxH)
    ensures naturalW * boxH <= boxW * naturalH
    ensures 0.0 <= boxH * (naturalW / naturalH) <= boxW
    ensures (boxH * (naturalW / naturalH)) * naturalH == boxH * naturalW
  {
    // both cross products are the ratios scaled by naturalH * boxH
    assert naturalW * boxH == (naturalW / naturalH) * (naturalH * boxH);
  }

  /** The scale factor CSS prescribes for `contain`: the largest factor at
      which both dimensions of the image fit in the box. */
  function ContainScale(boxW: real, boxH: real, naturalW: real, naturalH: real): (s: real)
    requires boxW >= 0.0 && boxH >= 0.0 && naturalW > 0.0 && naturalH > 0.0
    ensures s >= 0.0 && s * naturalW <= boxW && s * naturalH <= boxH
    ensures boxW > 0.0 && boxH > 0.0 ==> s > 0.0
    ensures s * naturalW == boxW || s * naturalH == boxH
  {
    var sx, sy := boxW / naturalW, boxH / naturalH;
    if sx <= sy then sx else sy
  }

  /** Any scale at which the whole image fits is at most the contain scale. */
  lemma ContainScaleIsLargest(boxW: real, boxH: real, naturalW: real, naturalH: real, k: real)
    requires boxW >= 0.0 && boxH >= 0.0 && naturalW > 0.0 && naturalH > 0.0
    requires k * naturalW <= boxW && k * naturalH <= boxH
    ensures k <= ContainScale(boxW, boxH, naturalW, naturalH)
  {}

  /** The exporter's arithmetic is exactly CSS `contain` + `center`: the image
      scaled by the contain scale and centred in the box. */
  lemma ContainFitIsCssContain(boxW: real, boxH: real, naturalW: real, naturalH: real)
    requires boxW >= 0.0 && boxH >= 0.0 && naturalW > 0.0 && naturalH > 0.0
    ensures var s := ContainScale(boxW, boxH, naturalW, naturalH);
            ContainFit(boxW, boxH, naturalW, naturalH) == Centered(boxW, boxH, s * naturalW, s * naturalH)
  {}

  /** Every scaled copy of the image that fits in the box is no larger than
      the contain-fit placement. */
  lemma ContainFitIsLargest(boxW: real, boxH: real, naturalW: real, naturalH: real, k: real)
    requires boxW >= 0.0 && boxH >= 0.0 && naturalW > 0.0 && naturalH > 0.0
    requires k > 0.0 && k * naturalW <= boxW && k * naturalH <= boxH
    ensures var p := ContainFit(boxW, boxH, naturalW, naturalH);
            k * naturalW <= p.w && k * naturalH <= p.h
  {}

  /** A landscape image in a 800x600 box is fitted to the width and centred vertically. */
  lemma ContainFitLandscapeExample()
    ensures ContainFit(800.0, 600.0, 1600.0, 800.0) == Rect(0.0, 100.0, 800.0, 400.0)
  {}

  /** A portrait image in a 800x600 box is fitted to the height and centred horizontally. */
  lemma ContainFitPortraitExample()
    ensures ContainFit(800.0, 600.0, 400.0, 800.0) == Rect(250.0, 0.0, 300.0, 600.0)
  {}

  /** A box of width 0 gets an empty image at its vertical centre. */
  lemma ContainFitZeroWidthExample()
    ensures ContainFit(0.0, 600.0, 400.0, 800.0) == Rect(0.0, 300.0, 0.0, 0.0)
  {}

  /** A box of height 0 gets an empty image at its horizontal centre. */
  lemma ContainFitZeroHeightExample()
    ensures ContainFit(800.0, 0.0, 400.0, 800.0) == Rect(400.0, 0.0, 0.0, 0.0)
  {}
}
