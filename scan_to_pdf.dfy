/** scan_to_pdf.py: place an image on an A4 page, scaled to fit inside
    10 mm margins with its aspect ratio kept, and centred. Lengths are in
    millimetres, on exact reals. */
module ScanToPdf {
  import opened Wrappers

  const PageWidth: real := 210.0
  const PageHeight: real := 297.0

  /** Twice the 10 mm margin. */
  const Margins: real := 20.0

  /** Where `pdf.image` puts the image: top-left corner and size. */
  datatype Placement = Placement(x: real, y: real, w: real, h: real)

  /** The centred placement of a `w` by `h` image. */
  function Centred(w: real, h: real): Placement {
    Placement((PageWidth - w) / 2.0, (PageHeight - h) / 2.0, w, h)
  }

  /** The placement `image_to_pdf` computes for an image of the given pixel
      size; None when the height is 0, where the division raises and the
      function returns False. The test compares the image's aspect ratio
      with the page's. */
  function Place(imgWidth: nat, imgHeight: nat): Option<Placement> {
    if imgHeight == 0 then None
    else
      var aspect := imgWidth as real / imgHeight as real;
      if aspect > PageWidth / PageHeight then
        var w := PageWidth - Margins;
        Some(Centred(w, w / aspect))
      else
        var h := PageHeight - Margins;
        Some(Centred(h * aspect, h))
  }

  /** What `Image.open` gives: an image of the given pixel size, or an
      exception (a missing file, a format PIL cannot read). */
  datatype Opened = Unopenable | Image(width: nat, height: nat)

  /** `image_to_pdf`'s return value. `drawn` and `written` say whether
      `pdf.image` and `pdf.output` return normally; any exception on the way,
      the division by a zero height included, makes it return False. */
  function ImageToPdf(img: Opened, drawn: bool, written: bool): bool {
    match img
    case Unopenable => false
    case Image(w, h) => Place(w, h).Some? && drawn && written
  }

  /** The same computation comparing the aspect ratio with that of the area
      inside the margins, 190 by 277. */
  function PlaceInBox(imgWidth: nat, imgHeight: nat): Option<Placement> {
    if imgHeight == 0 then None
    else
      var aspect := imgWidth as real / imgHeight as real;
      if aspect > (PageWidth - Margins) / (PageHeight - Margins) then
        var w := PageWidth - Margins;
        Some(Centred(w, w / aspect))
      else
        var h := PageHeight - Margins;
        Some(Centred(h * aspect, h))
  }

  // ---------------------------------------------------------------------
  // Properties

  /** The conversion succeeds exactly when the image opens, has a height,
      and FPDF draws and writes it; an image that opens and that FPDF
      handles fails only for a zero height. */
  lemma ImageToPdfFails(img: Opened, drawn: bool, written: bool)
    ensures ImageToPdf(img, drawn, written) <==> img.Image? && img.height > 0 && drawn && written
    ensures img.Image? && drawn && written ==> (!ImageToPdf(img, drawn, written) <==> img.height == 0)
  {
  }

  /** The image lies on the page, centred both ways, with its aspect ratio
      kept and one side reaching its margin. */
  lemma PlaceFitsPage(imgWidth: nat, imgHeight: nat)
    requires imgHeight > 0
    ensures var p := Place(imgWidth, imgHeight).value;
      0.0 <= p.x && p.x + p.w <= PageWidth && 0.0 <= p.y && p.y + p.h <= PageHeight
      && p.x == PageWidth - (p.x + p.w) && p.y == PageHeight - (p.y + p.h)
      && p.w * imgHeight as real == p.h * imgWidth as real
      && (p.w == PageWidth - Margins || p.h == PageHeight - Margins)
      && p.h <= PageHeight - Margins
  {
    var aspect := imgWidth as real / imgHeight as real;
    var p := Place(imgWidth, imgHeight).value;
    if aspect > PageWidth / PageHeight {
      assert aspect * imgHeight as real == imgWidth as real;
      assert p.h * aspect == p.w;
      assert p.h < 190.0 * 297.0 / 210.0 by {
        assert p.h * aspect == 190.0;
        assert 190.0 < aspect * (190.0 * 297.0 / 210.0);
      }
    } else {
      assert aspect * imgHeight as real == imgWidth as real;
      assert p.w <= 277.0 * 210.0 / 297.0;
    }
  }

  /** A tall image whose aspect ratio is just under the page's gets wider
      than the 190 mm the margins leave: the side margins shrink to 7.5 mm. */
  lemma SideMarginLost()
    ensures Place(209, 297).value.w > PageWidth - Margins
    ensures Place(209, 297).value.x < Margins / 2.0
  {
    assert (209 as real / 297 as real) <= PageWidth / PageHeight;
  }

  /** Comparing with the box's aspect ratio keeps the image inside all four
      margins, with everything else as before. */
  lemma PlaceInBoxKeepsMargins(imgWidth: nat, imgHeight: nat)
    requires imgHeight > 0
    ensures var p := PlaceInBox(imgWidth, imgHeight).value;
      Margins / 2.0 <= p.x && p.x + p.w <= PageWidth - Margins / 2.0
      && Margins / 2.0 <= p.y && p.y + p.h <= PageHeight - Margins / 2.0
      && p.x == PageWidth - (p.x + p.w) && p.y == PageHeight - (p.y + p.h)
      && p.w * imgHeight as real == p.h * imgWidth as real
      && (p.w == PageWidth - Margins || p.h == PageHeight - Margins)
  {
    var aspect := imgWidth as real / imgHeight as real;
    var p := PlaceInBox(imgWidth, imgHeight).value;
    assert aspect * imgHeight as real == imgWidth as real;
    if aspect > 190.0 / 277.0 {
      assert p.h * aspect == p.w;
      assert p.h < 277.0 by {
        assert p.h * aspect == 190.0;
        assert 190.0 < aspect * 277.0;
      }
    } else {
      assert p.w <= 277.0 * (190.0 / 277.0);
    }
  }

  /** The two placements differ only for aspect ratios between the box's and
      the page's. */
  lemma PlacementsAgreeOutsideGap(imgWidth: nat, imgHeight: nat)
    requires imgHeight > 0
    requires var aspect := imgWidth as real / imgHeight as real;
      aspect <= 190.0 / 277.0 || aspect > 210.0 / 297.0
    ensures Place(imgWidth, imgHeight) == PlaceInBox(imgWidth, imgHeight)
  {
  }
}
