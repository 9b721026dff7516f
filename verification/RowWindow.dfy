/** The files that the preparer works on: image files and their rows, and the coarser ocean mask. */
module RowWindow {
  import opened Common
  import opened HoleFilling

  const HEADER_SIZE := 32

  type File = seq<Byte>

  /** Image and mask dimensions; the mask is coarser than the image by a whole ratio. */
  datatype Layout = Layout(width: nat, height: nat, maskWidth: nat, cropped: nat) {
    ghost predicate Valid() {
      0 < maskWidth && 0 < width && width % maskWidth == 0 && 2 <= height
    }

    function Ratio(): nat
      requires maskWidth > 0
    {
      width / maskWidth
    }

    /** Where the mask row for image row y starts in the mask file. */
    function MaskOffset(y: nat): nat
      requires maskWidth > 0 && Ratio() > 0
    {
      y / Ratio() * maskWidth + cropped
    }
  }

  lemma RatioPositive(l: Layout)
    requires l.Valid()
    ensures l.Ratio() > 0 && l.Ratio() * l.maskWidth == l.width
  {
    assert l.width == l.width / l.maskWidth * l.maskWidth + l.width % l.maskWidth;
  }

  lemma MaskColumnInside(l: Layout, x: nat)
    requires l.Valid() && x < l.width
    ensures l.Ratio() > 0 && 0 <= x / l.Ratio() < l.maskWidth
  {
    RatioPositive(l);
    var r := l.Ratio();
    if l.maskWidth <= x / r {
      MulLess(l.maskWidth - 1, x / r, r);
    }
  }

  // ------------------------------------------------------------------ files as images

  /** Where image row y starts in a prepared file; a sum of rows rather than a product, for the solver. */
  function RowStart(width: nat, y: nat): (start: nat)
    ensures start >= HEADER_SIZE
  {
    if y == 0 then HEADER_SIZE else RowStart(width, y - 1) + width
  }

  lemma {:induction false} RowStartIsOffset(width: nat, y: nat)
    ensures RowStart(width, y) == HEADER_SIZE + y * width
  {
    if y > 0 {
      RowStartIsOffset(width, y - 1);
      assert y * width == (y - 1) * width + width;
    }
  }

  lemma {:induction false} RowsInside(width: nat, height: nat, y: nat)
    requires y < height
    ensures RowStart(width, y) + width == RowStart(width, y + 1) <= RowStart(width, height)
  {
    if y + 1 < height {
      RowsInside(width, height - 1, y);
    }
  }

  predicate ImageFits(l: Layout, file: File) {
    RowStart(l.width, l.height) <= |file|
  }

  function RowOf(l: Layout, file: File, y: nat): (row: seq<Byte>)
    requires ImageFits(l, file) && y < l.height
    ensures |row| == l.width
  {
    RowsInside(l.width, l.height, y);
    file[RowStart(l.width, y)..RowStart(l.width, y) + l.width]
  }

  /** The image stored in a prepared file, behind its header. */
  function ImageOf(l: Layout, file: File): (img: Image)
    requires ImageFits(l, file)
    ensures Rect(img, l.width, l.height)
  {
    seq(l.height, y requires 0 <= y < l.height => RowOf(l, file, y))
  }

  function Flatten(img: Image): seq<Byte> {
    if img == [] then [] else Flatten(img[..|img| - 1]) + img[|img| - 1]
  }

  lemma {:induction false} FlattenLength(img: Image, width: nat, height: nat)
    requires Rect(img, width, height)
    ensures HEADER_SIZE + |Flatten(img)| == RowStart(width, height)
  {
    if height > 0 {
      FlattenLength(img[..height - 1], width, height - 1);
    }
  }

  lemma {:induction false} ReadBack(header: File, img: Image, width: nat, height: nat, y: nat)
    requires |header| == HEADER_SIZE && Rect(img, width, height) && y < height
    ensures var file, start := header + Flatten(img), RowStart(width, y);
            start + width <= |file| == RowStart(width, height) && file[start..start + width] == img[y]
  {
    var init, last := img[..height - 1], img[height - 1];
    FlattenLength(img, width, height);
    FlattenLength(init, width, height - 1);
    var before := header + Flatten(init);
    assert header + Flatten(img) == before + last;
    if y < height - 1 {
      ReadBack(header, init, width, height - 1, y);
      assert (before + last)[..|before|] == before;
    }
  }

  lemma ReadBackRow(l: Layout, header: File, img: Image, y: nat)
    requires |header| == HEADER_SIZE && Rect(img, l.width, l.height) && y < l.height
    ensures ImageFits(l, header + Flatten(img))
    ensures RowOf(l, header + Flatten(img), y) == img[y]
  {
    ReadBack(header, img, l.width, l.height, y);
  }

  /** Writing an image behind a header and reading it back gives the same image. */
  lemma ImageRoundTrip(l: Layout, header: File, img: Image)
    requires |header| == HEADER_SIZE && Rect(img, l.width, l.height) && l.height > 0
    ensures ImageFits(l, header + Flatten(img))
    ensures ImageOf(l, header + Flatten(img)) == img
  {
    ReadBackRow(l, header, img, 0);
    var read := ImageOf(l, header + Flatten(img));
    forall y | 0 <= y < l.height ensures read[y] == img[y] {
      ReadBackRow(l, header, img, y);
    }
  }

  // ------------------------------------------------------------------ the mask

  predicate MaskFits(l: Layout, mask: File)
    requires l.Valid()
  {
    RatioPositive(l);
    forall y: nat :: y < l.height ==> l.MaskOffset(y) + l.maskWidth <= |mask|
  }

  predicate IsLand(l: Layout, mask: File, x: nat, y: nat)
    requires l.Valid() && MaskFits(l, mask) && x < l.width && y < l.height
  {
    MaskColumnInside(l, x);
    mask[l.MaskOffset(y) + x / l.Ratio()] > 128
  }

  /** The mask stretched to the resolution of the image. */
  function LandOf(l: Layout, mask: File): (land: Land)
    requires l.Valid() && MaskFits(l, mask)
    ensures Rect(land, l.width, l.height)
  {
    seq(l.height, y requires 0 <= y < l.height =>
      seq(l.width, x requires 0 <= x < l.width => IsLand(l, mask, x, y)))
  }
}
