/** The PDF post-processing hook `usePDFWithFooter`: it stamps a footer on
    every page of the rendered report, then appends photo pages, two photos
    to a page, each photo scaled into its half of the page, turned by its
    rotation and captioned. The PDF library is modelled by what it draws:
    a page is a record of its header, its photo slots and its footer. The
    font's width measures and the decoded image sizes are parameters. */
module PdfWithFooter {
  import opened Util
  import opened Translation
  import opened HeaderSelection
  import opened WordWrap

  // ---------------------------------------------------------------------------
  // Footer
  // ---------------------------------------------------------------------------

  /** The company named in the footer. */
  function FooterCompany(h: HeaderType): (c: string)
    ensures c == Config(h).companyName
  {
    if h == Maestrale then "Maestrale Srl" else "Redesco Progetti srl"
  }

  /** The contact line printed at the right of the footer. */
  function FooterDetails(h: HeaderType): string
  {
    if h == Maestrale then "amministrazione@maestrale.mi.it" else "www.redesco.it - redesco@redesco.it"
  }

  /** `pre` + page number + `mid` + total: the shape of both footer texts. */
  function NumberedText(pre: string, page: nat, mid: string, total: nat): string
  {
    pre + (NatToString(page) + (mid + NatToString(total)))
  }

  /** `${company} - Inspection Report | Page ${n} of ${t}` or its Italian form. */
  function FooterText(h: HeaderType, language: Language, page: nat, total: nat): (t: string)
    ensures StartsWith(t, FooterCompany(h))
  {
    var company := FooterCompany(h);
    var r := if language == En then NumberedText(company + " - Inspection Report | Page ", page, " of ", total)
             else NumberedText(company + " - Scheda di Verifica | Pagina ", page, " di ", total);
    assert r[..|company|] == company;
    r
  }

  /** The page number and the total can be read back from a numbered text
      whose middle part starts with a space. */
  lemma NumberedTextInjective(pre: string, mid: string, p: nat, t: nat, p': nat, t': nat)
    requires mid != [] && mid[0] == ' '
    requires NumberedText(pre, p, mid, t) == NumberedText(pre, p', mid, t')
    ensures p == p' && t == t'
  {
    var x, y, x', y' := NatToString(p), NatToString(t), NatToString(p'), NatToString(t');
    assert (pre + (x + (mid + y)))[|pre|..] == x + (mid + y);
    assert (pre + (x' + (mid + y')))[|pre|..] == x' + (mid + y');
    DigitsBeforeSpace(x, mid + y, x', mid + y');
    assert y == (mid + y)[|mid|..] && y' == (mid + y')[|mid|..];
    NatToStringRoundTrip(p);
    NatToStringRoundTrip(p');
    NatToStringRoundTrip(t);
    NatToStringRoundTrip(t');
  }

  /** The same footer text never stands for two page/total pairs. */
  lemma FooterTextInjective(h: HeaderType, language: Language, p: nat, t: nat, p': nat, t': nat)
    requires FooterText(h, language, p, t) == FooterText(h, language, p', t')
    ensures p == p' && t == t'
  {
    var company := FooterCompany(h);
    if language == En {
      NumberedTextInjective(company + " - Inspection Report | Page ", " of ", p, t, p', t');
    } else {
      NumberedTextInjective(company + " - Scheda di Verifica | Pagina ", " di ", p, t, p', t');
    }
  }

  /** Two digit strings each followed by text that starts with a space are
      equal when the joined strings are. */
  lemma {:induction false} DigitsBeforeSpace(x: string, u: string, x': string, u': string)
    requires AllDigits(x) && AllDigits(x') && u != [] && u' != [] && u[0] == ' ' && u'[0] == ' '
    requires x + u == x' + u'
    ensures x == x' && u == u'
    decreases |x|
  {
    assert x != [] ==> (x + u)[0] == x[0];
    assert x == [] ==> x + u == u;
    assert x' != [] ==> (x' + u')[0] == x'[0];
    assert x' == [] ==> x' + u' == u';
    if x != [] && x' != [] {
      assert (x + u)[1..] == x[1..] + u;
      assert (x' + u')[1..] == x'[1..] + u';
      DigitsBeforeSpace(x[1..], u, x'[1..], u');
      assert x == [x[0]] + x[1..];
      assert x' == [x'[0]] + x'[1..];
    }
  }

  /** `totalMainPages + Math.ceil(images.length / 2)`. */
  function TotalPages(mainPages: nat, photoCount: nat): nat
  {
    mainPages + CeilDiv(photoCount, 2)
  }

  /** A footer, by what it draws from: the branding, the language, the page
      number and total, and the width of its page. It draws the numbered text
      at the left and the contact line at the right, both at size 8. */
  datatype Footer = Footer(header: HeaderType, language: Language, page: nat, total: nat, pageWidth: real)
  {
    /** The text drawn at the left. */
    function Text(): string
    {
      FooterText(header, language, page, total)
    }

    /** The contact line drawn at the right. */
    function Details(): string
    {
      FooterDetails(header)
    }

    /** Where the contact line starts, for the font's width measure at size 8. */
    function DetailsX(width8: string -> real): real
    {
      pageWidth - 30.0 - width8(Details())
    }
  }

  /** The footer text opens with the branding's company, and the contact line
      ends 30 points from the right edge of the page. */
  lemma FooterLayout(f: Footer, width8: string -> real)
    ensures StartsWith(f.Text(), Config(f.header).companyName)
    ensures f.DetailsX(width8) + width8(f.Details()) == f.pageWidth - 30.0
  {
  }

  // ---------------------------------------------------------------------------
  // Placing a photo in its half of an appendix page
  // ---------------------------------------------------------------------------

  const A4Width: real := 595.28
  const A4Height: real := 841.89
  const HeaderSpace: real := 105.0
  const FooterSpace: real := 70.0

  datatype Position = Top | Bottom

  /** A photo as the hook receives it: its caption, its rotation in degrees
      and the pixel size the PDF library decodes, or None when decoding fails. */
  datatype Photo = Photo(caption: string, rotation: int, decoded: Option<(real, real)>)

  /** A decoded image always has a positive width and height. */
  predicate SaneSize(p: Photo)
  {
    p.decoded.Some? ==> p.decoded.value.0 > 0.0 && p.decoded.value.1 > 0.0
  }

  /** The extent the image takes once turned: a quarter turn swaps its sides. */
  function BoundingBox(rotation: int, ow: real, oh: real): (r: (real, real))
    ensures rotation == 90 || rotation == 270 ==> r == (oh, ow)
    ensures rotation != 90 && rotation != 270 ==> r == (ow, oh)
  {
    if rotation == 90 || rotation == 270 then (oh, ow) else (ow, oh)
  }

  function ImageAreaHeight(pageHeight: real): real
  {
    (pageHeight - HeaderSpace - FooterSpace) / 2.0
  }

  function MaxImageWidth(pageWidth: real): real
  {
    pageWidth - 120.0
  }

  function MaxImageHeight(pageHeight: real): real
  {
    ImageAreaHeight(pageHeight) - 40.0
  }

  /** `Math.min(maxWidth / bw, maxHeight / bh)`: the largest scale at which
      the turned image fits both limits. */
  function Scale(maxW: real, maxH: real, bw: real, bh: real): (s: real)
    requires bw > 0.0 && bh > 0.0
  {
    MinReal(maxW / bw, maxH / bh)
  }

  /** The scaled extent fits both limits and meets at least one of them. */
  lemma ScaleFits(maxW: real, maxH: real, bw: real, bh: real)
    requires bw > 0.0 && bh > 0.0
    ensures Scale(maxW, maxH, bw, bh) * bw <= maxW
    ensures Scale(maxW, maxH, bw, bh) * bh <= maxH
    ensures Scale(maxW, maxH, bw, bh) * bw == maxW || Scale(maxW, maxH, bw, bh) * bh == maxH
  {
    var s := Scale(maxW, maxH, bw, bh);
    assert (maxW / bw) * bw == maxW;
    assert (maxH / bh) * bh == maxH;
    if s == maxW / bw {
      assert s <= maxH / bh;
      assert s * bh <= (maxH / bh) * bh;
    } else {
      assert s <= maxW / bw;
      assert s * bw <= (maxW / bw) * bw;
    }
  }

  /** The drawn size: the image's own sides times the scale of its turned extent. */
  function FinalSize(rotation: int, ow: real, oh: real, maxW: real, maxH: real): (real, real)
    requires ow > 0.0 && oh > 0.0
  {
    var b := BoundingBox(rotation, ow, oh);
    (ow * Scale(maxW, maxH, b.0, b.1), oh * Scale(maxW, maxH, b.0, b.1))
  }

  /** The drawn size is positive and keeps the image's proportions. */
  lemma FinalSizeProportional(rotation: int, ow: real, oh: real, maxW: real, maxH: real)
    requires ow > 0.0 && oh > 0.0 && maxW > 0.0 && maxH > 0.0
    ensures var fs := FinalSize(rotation, ow, oh, maxW, maxH);
            fs.0 > 0.0 && fs.1 > 0.0 && fs.0 * oh == fs.1 * ow
  {
    var b := BoundingBox(rotation, ow, oh);
    assert Scale(maxW, maxH, b.0, b.1) > 0.0 by {
      assert maxW / b.0 > 0.0 && maxH / b.1 > 0.0;
    }
    var fs := FinalSize(rotation, ow, oh, maxW, maxH);
    assert fs.0 == ow * Scale(maxW, maxH, b.0, b.1);
    assert fs.1 == oh * Scale(maxW, maxH, b.0, b.1);
  }

  /** Once turned, the drawn size fits the limits and meets at least one of them. */
  lemma FinalSizeFits(rotation: int, ow: real, oh: real, maxW: real, maxH: real)
    requires ow > 0.0 && oh > 0.0
    ensures var fs := FinalSize(rotation, ow, oh, maxW, maxH);
            var e := BoundingBox(rotation, fs.0, fs.1);
            e.0 <= maxW && e.1 <= maxH && (e.0 == maxW || e.1 == maxH)
  {
    var b := BoundingBox(rotation, ow, oh);
    ScaleFits(maxW, maxH, b.0, b.1);
    var fs := FinalSize(rotation, ow, oh, maxW, maxH);
    var e := BoundingBox(rotation, fs.0, fs.1);
    assert e.0 == Scale(maxW, maxH, b.0, b.1) * b.0 && e.1 == Scale(maxW, maxH, b.0, b.1) * b.1;
  }

  /** The bottom edge of the half of the page the photo goes in. */
  function AreaTop(position: Position, pageHeight: real): real
  {
    var area := ImageAreaHeight(pageHeight);
    if position == Top then pageHeight - HeaderSpace - area
    else pageHeight - HeaderSpace - area * 2.0 - 5.0
  }

  /** The point the turned image is centred on. */
  function AreaCentre(position: Position, pageWidth: real, pageHeight: real): (real, real)
  {
    var area := ImageAreaHeight(pageHeight);
    (pageWidth / 2.0, AreaTop(position, pageHeight) + (area - 40.0) / 2.0 + 20.0)
  }

  /** Where the unturned lower-left corner goes so that the image, turned
      counter-clockwise about that corner, is centred on `(cx, cy)`; the
      hook sets no origin for any other rotation (None). */
  function DrawOrigin(rotation: int, cx: real, cy: real, fw: real, fh: real): Option<(real, real)>
  {
    if rotation == 0 then Some((cx - fw / 2.0, cy - fh / 2.0))
    else if rotation == 90 then Some((cx + fh / 2.0, cy - fw / 2.0))
    else if rotation == 180 then Some((cx + fw / 2.0, cy + fh / 2.0))
    else if rotation == 270 then Some((cx - fh / 2.0, cy + fw / 2.0))
    else None
  }

  predicate QuarterTurn(rotation: int)
  {
    rotation == 0 || rotation == 90 || rotation == 180 || rotation == 270
  }

  /** The offset `(dx, dy)` turned counter-clockwise by a quarter-turn rotation. */
  function Turn(rotation: int, dx: real, dy: real): (real, real)
  {
    if rotation == 90 then (-dy, dx)
    else if rotation == 180 then (-dx, -dy)
    else if rotation == 270 then (dy, -dx)
    else (dx, dy)
  }

  /** An axis-aligned box. */
  datatype Box = Box(minX: real, minY: real, maxX: real, maxY: real)

  function Min4(a: real, b: real, c: real, d: real): real
  {
    MinReal(MinReal(a, b), MinReal(c, d))
  }

  function Max4(a: real, b: real, c: real, d: real): real
  {
    -Min4(-a, -b, -c, -d)
  }

  /** The box the four corners of a `fw` by `fh` image cover once it is
      turned about its origin corner `(x, y)`. */
  function Footprint(x: real, y: real, rotation: int, fw: real, fh: real): Box
  {
    var c1 := Turn(rotation, fw, 0.0);
    var c2 := Turn(rotation, 0.0, fh);
    var c3 := Turn(rotation, fw, fh);
    Box(x + Min4(0.0, c1.0, c2.0, c3.0), y + Min4(0.0, c1.1, c2.1, c3.1),
        x + Max4(0.0, c1.0, c2.0, c3.0), y + Max4(0.0, c1.1, c2.1, c3.1))
  }

  /** The image drawn from the hook's origin, for every quarter-turn
      rotation, covers exactly the box of its turned extent centred on
      `(cx, cy)`. */
  lemma OriginCentresImage(rotation: int, cx: real, cy: real, fw: real, fh: real)
    requires QuarterTurn(rotation) && fw >= 0.0 && fh >= 0.0
    ensures DrawOrigin(rotation, cx, cy, fw, fh).Some?
    ensures var o := DrawOrigin(rotation, cx, cy, fw, fh).value;
            var e := BoundingBox(rotation, fw, fh);
            Footprint(o.0, o.1, rotation, fw, fh) == Box(cx - e.0 / 2.0, cy - e.1 / 2.0, cx + e.0 / 2.0, cy + e.1 / 2.0)
  {
    if rotation == 0 {
      FootprintUpright(cx - fw / 2.0, cy - fh / 2.0, fw, fh);
    } else if rotation == 90 {
      FootprintQuarter(cx + fh / 2.0, cy - fw / 2.0, fw, fh);
    } else if rotation == 180 {
      FootprintHalf(cx + fw / 2.0, cy + fh / 2.0, fw, fh);
    } else {
      FootprintThreeQuarters(cx - fh / 2.0, cy + fw / 2.0, fw, fh);
    }
  }

  /** The extremes of the corner offsets along one axis, for a side `u`
      turned either way. */
  lemma SideSpan(u: real)
    requires u >= 0.0
    ensures Min4(0.0, u, 0.0, u) == 0.0 && Max4(0.0, u, 0.0, u) == u
    ensures Min4(0.0, 0.0, u, u) == 0.0 && Max4(0.0, 0.0, u, u) == u
    ensures Min4(0.0, -u, 0.0, -u) == -u && Max4(0.0, -u, 0.0, -u) == 0.0
    ensures Min4(0.0, 0.0, -u, -u) == -u && Max4(0.0, 0.0, -u, -u) == 0.0
  {
  }

  lemma FootprintUpright(x: real, y: real, fw: real, fh: real)
    requires fw >= 0.0 && fh >= 0.0
    ensures Footprint(x, y, 0, fw, fh) == Box(x, y, x + fw, y + fh)
  {
    SideSpan(fw);
    SideSpan(fh);
  }

  lemma FootprintQuarter(x: real, y: real, fw: real, fh: real)
    requires fw >= 0.0 && fh >= 0.0
    ensures Footprint(x, y, 90, fw, fh) == Box(x - fh, y, x, y + fw)
  {
    SideSpan(fw);
    SideSpan(fh);
  }

  lemma FootprintHalf(x: real, y: real, fw: real, fh: real)
    requires fw >= 0.0 && fh >= 0.0
    ensures Footprint(x, y, 180, fw, fh) == Box(x - fw, y - fh, x, y)
  {
    SideSpan(fw);
    SideSpan(fh);
  }

  lemma FootprintThreeQuarters(x: real, y: real, fw: real, fh: real)
    requires fw >= 0.0 && fh >= 0.0
    ensures Footprint(x, y, 270, fw, fh) == Box(x, y - fw, x + fh, y)
  {
    SideSpan(fw);
    SideSpan(fh);
  }

  /** What `addImageToPage` draws for a decoded photo. */
  datatype Drawn = Drawn(origin: Option<(real, real)>, width: real, height: real, rotation: int)

  /** The photo's image, or None when it cannot be decoded (the hook then
      draws neither image nor caption). */
  function PlaceImage(p: Photo, position: Position, pageWidth: real, pageHeight: real): (d: Option<Drawn>)
    requires SaneSize(p)
    ensures d.Some? <==> p.decoded.Some?
    ensures d.Some? ==> d.value.rotation == p.rotation && (d.value.origin.Some? <==> QuarterTurn(p.rotation))
  {
    if p.decoded.None? then None
    else
      var size := p.decoded.value;
      var fs := FinalSize(p.rotation, size.0, size.1, MaxImageWidth(pageWidth), MaxImageHeight(pageHeight));
      var c := AreaCentre(position, pageWidth, pageHeight);
      Some(Drawn(DrawOrigin(p.rotation, c.0, c.1, fs.0, fs.1), fs.0, fs.1, p.rotation))
  }

  /** An image whose turned extent fits `maxW` by `maxH`, drawn from the
      hook's origin with a quarter-turn rotation, stays inside the `maxW` by
      `maxH` box centred on `(cx, cy)`. */
  lemma FittingImageInBox(rotation: int, fw: real, fh: real, maxW: real, maxH: real, cx: real, cy: real)
    requires QuarterTurn(rotation) && fw > 0.0 && fh > 0.0
    requires BoundingBox(rotation, fw, fh).0 <= maxW && BoundingBox(rotation, fw, fh).1 <= maxH
    ensures DrawOrigin(rotation, cx, cy, fw, fh).Some?
    ensures var o := DrawOrigin(rotation, cx, cy, fw, fh).value;
            var f := Footprint(o.0, o.1, rotation, fw, fh);
            && cx - maxW / 2.0 <= f.minX && f.maxX <= cx + maxW / 2.0
            && cy - maxH / 2.0 <= f.minY && f.maxY <= cy + maxH / 2.0
  {
    OriginCentresImage(rotation, cx, cy, fw, fh);
  }

  /** The image area of each half: its centre, and the limits, leave 60
      points at either side of the page and 20 points inside the top and
      bottom of the half. */
  lemma AreaLimits(position: Position, pageWidth: real, pageHeight: real)
    ensures var c := AreaCentre(position, pageWidth, pageHeight);
            && c.0 - MaxImageWidth(pageWidth) / 2.0 == 60.0
            && c.0 + MaxImageWidth(pageWidth) / 2.0 == pageWidth - 60.0
            && c.1 - MaxImageHeight(pageHeight) / 2.0 == AreaTop(position, pageHeight) + 20.0
            && c.1 + MaxImageHeight(pageHeight) / 2.0 == AreaTop(position, pageHeight) + ImageAreaHeight(pageHeight) - 20.0
  {
  }

  /** On an A4 page the top half spans from 20 points above its bottom edge
      to 20 points below the header, and the bottom half from 15 points above
      the footer to 25 points below the top half. */
  lemma A4Halves()
    ensures AreaTop(Top, A4Height) + ImageAreaHeight(A4Height) - 20.0 == A4Height - HeaderSpace - 20.0
    ensures AreaTop(Bottom, A4Height) + 20.0 == FooterSpace + 15.0
    ensures AreaTop(Bottom, A4Height) + ImageAreaHeight(A4Height) - 20.0 == AreaTop(Top, A4Height) - 25.0
    ensures MaxImageWidth(A4Width) > 0.0 && MaxImageHeight(A4Height) > 0.0
  {
  }

  /** On an A4 page, a photo with a quarter-turn rotation lies wholly inside
      its half: at least 60 points from either side, the top photo between
      the header and the bottom photo, and the bottom photo above the footer. */
  lemma PlacedInsideItsHalf(p: Photo, position: Position)
    requires SaneSize(p) && p.decoded.Some? && QuarterTurn(p.rotation)
    ensures var d := PlaceImage(p, position, A4Width, A4Height).value;
            var f := Footprint(d.origin.value.0, d.origin.value.1, d.rotation, d.width, d.height);
            && 60.0 <= f.minX && f.maxX <= A4Width - 60.0
            && (position == Top ==> AreaTop(Top, A4Height) + 20.0 <= f.minY && f.maxY <= A4Height - HeaderSpace - 20.0)
            && (position == Bottom ==> FooterSpace + 15.0 <= f.minY && f.maxY <= AreaTop(Top, A4Height) - 25.0)
  {
    var size := p.decoded.value;
    var maxW, maxH := MaxImageWidth(A4Width), MaxImageHeight(A4Height);
    A4Halves();
    AreaLimits(position, A4Width, A4Height);
    var c := AreaCentre(position, A4Width, A4Height);
    var fs := FinalSize(p.rotation, size.0, size.1, maxW, maxH);
    FinalSizeProportional(p.rotation, size.0, size.1, maxW, maxH);
    FinalSizeFits(p.rotation, size.0, size.1, maxW, maxH);
    FittingImageInBox(p.rotation, fs.0, fs.1, maxW, maxH, c.0, c.1);
    assert PlaceImage(p, position, A4Width, A4Height) == Some(Drawn(DrawOrigin(p.rotation, c.0, c.1, fs.0, fs.1), fs.0, fs.1, p.rotation));
  }

  // ---------------------------------------------------------------------------
  // Captions
  // ---------------------------------------------------------------------------

  function FigureWord(language: Language): string
  {
    if language == En then "Figure" else "Figura"
  }

  /** `Figure n - caption`, or `Figure n` when the caption is empty, with
      `n` the photo's position counted from one. */
  function CaptionText(index: nat, caption: string, language: Language): (t: string)
    ensures |t| > |FigureWord(language)| + 1
  {
    var head := FigureWord(language) + " " + NatToString(index + 1);
    if caption != "" then head + " - " + caption else head
  }

  /** The caption starts with the figure number and ends with the user's
      caption; an empty caption adds nothing. */
  lemma CaptionParts(index: nat, caption: string, language: Language)
    ensures StartsWith(CaptionText(index, caption, language), FigureWord(language) + " " + NatToString(index + 1))
    ensures caption != "" ==> CaptionText(index, caption, language)[|CaptionText(index, caption, language)| - |caption|..] == caption
    ensures caption == "" ==> |CaptionText(index, caption, language)| == |FigureWord(language)| + 1 + |NatToString(index + 1)|
  {
    var head := FigureWord(language) + " " + NatToString(index + 1);
    var t := CaptionText(index, caption, language);
    if caption != "" {
      assert t == head + (" - " + caption);
      assert t[..|head|] == head;
    } else {
      assert t[..|head|] == head;
    }
  }

  /** A caption line as drawn: its text and the baseline point it starts at. */
  datatype PlacedLine = PlacedLine(text: string, x: real, y: real)

  /** The caption block of `addImageToPage`: the caption wrapped to the page
      width less 40 points a side, each line centred, the first at
      `areaTop + 5` and each further line 14 points lower. `width12` is the
      font's width measure at size 12. */
  method LayoutCaption(text: string, pageWidth: real, areaTop: real, width12: string -> real)
    returns (placed: seq<PlacedLine>)
    ensures var lines := seq(|placed|, k requires 0 <= k < |placed| => placed[k].text);
            && AllFit(lines, width12, pageWidth - 80.0)
            && Filter(Concat(lines), NotJsSpace) == Filter(text, NotJsSpace)
    ensures forall k :: 0 <= k < |placed| ==> placed[k].x + width12(placed[k].text) / 2.0 == pageWidth / 2.0
    ensures |placed| > 0 ==> placed[0].y == areaTop + 5.0
    ensures forall k :: 0 < k < |placed| ==> placed[k].y == placed[k - 1].y - 14.0
  {
    var lines := WrapTextToLines(text, width12, pageWidth - 80.0);
    placed := [];
    var currentY := areaTop + 5.0;
    var i := 0;
    while i < |lines|
      invariant 0 <= i <= |lines| && |placed| == i
      invariant forall k :: 0 <= k < i ==> placed[k].text == lines[k]
      invariant forall k :: 0 <= k < i ==> placed[k].x + width12(placed[k].text) / 2.0 == pageWidth / 2.0
      invariant i > 0 ==> placed[0].y == areaTop + 5.0
      invariant forall k :: 0 < k < i ==> placed[k].y == placed[k - 1].y - 14.0
      invariant i == 0 ==> currentY == areaTop + 5.0
      invariant i > 0 ==> placed[i - 1].y == currentY + 14.0
    {
      var line := lines[i];
      var lineX := (pageWidth - width12(line)) / 2.0;
      placed := placed + [PlacedLine(line, lineX, currentY)];
      currentY := currentY - 14.0;
      i := i + 1;
    }
    var texts := seq(|placed|, k requires 0 <= k < |placed| => placed[k].text);
    assert |texts| == |lines|;
    assert forall k :: 0 <= k < |lines| ==> texts[k] == lines[k];
    assert texts == lines;
  }

  // ---------------------------------------------------------------------------
  // Pages
  // ---------------------------------------------------------------------------

  /** The branding at the top of a photo page. */
  datatype PageHeader = PageHeader(logoPath: string, logoWidth: real, companyName: string)

  /** One half of a photo page: the photo's index and the photo, and the
      caption text when its image decodes (nothing is drawn otherwise). */
  datatype Slot = Slot(photoIndex: nat, position: Position, photo: Photo, caption: Option<string>)

  /** The image drawn in a slot: the photo placed in the slot's half of an A4 page. */
  function SlotImage(s: Slot): (d: Option<Drawn>)
    requires SaneSize(s.photo)
    ensures d.Some? <==> s.photo.decoded.Some?
  {
    PlaceImage(s.photo, s.position, A4Width, A4Height)
  }

  datatype Page = Page(width: real, height: real, header: Option<PageHeader>, slots: seq<Slot>, footer: Option<Footer>)

  /** The photo-page header: the logo of the chosen branding (70 points wide
      for Maestrale, 100 for Redesco) and the company name, which is left
      empty for Redesco. */
  function AppendixHeader(h: HeaderType): (ph: PageHeader)
    ensures ph.logoPath == Config(h).logoPath
    ensures ph.companyName == (if h == Maestrale then Config(h).companyName else "")
  {
    if h == Maestrale then PageHeader("logo_mae.png", 70.0, "Maestrale Srl")
    else PageHeader("logo.png", 100.0, "")
  }

  function MakeSlot(photos: seq<Photo>, i: nat, position: Position, language: Language): (s: Slot)
    requires i < |photos|
    ensures s.photoIndex == i && s.position == position && s.photo == photos[i]
    ensures s.caption.Some? <==> photos[i].decoded.Some?
  {
    var caption := if photos[i].decoded.Some? then Some(CaptionText(i, photos[i].caption, language)) else None;
    Slot(i, position, photos[i], caption)
  }

  /** The photo page opened at loop index `i` (even): photo `i` on top and,
      when there is one, photo `i + 1` below. */
  function AppendixPage(photos: seq<Photo>, i: nat, mainPages: nat, language: Language, h: HeaderType): (p: Page)
    requires i < |photos|
    ensures |p.slots| == (if i + 1 < |photos| then 2 else 1)
    ensures p.slots[0] == MakeSlot(photos, i, Top, language)
    ensures i + 1 < |photos| ==> p.slots[1] == MakeSlot(photos, i + 1, Bottom, language)
    ensures p.footer == Some(Footer(h, language, mainPages + i / 2 + 1, TotalPages(mainPages, |photos|), A4Width))
  {
    var top := MakeSlot(photos, i, Top, language);
    var slots := if i + 1 < |photos| then [top, MakeSlot(photos, i + 1, Bottom, language)] else [top];
    var total := TotalPages(mainPages, |photos|);
    Page(A4Width, A4Height, Some(AppendixHeader(h)), slots, Some(Footer(h, language, mainPages + i / 2 + 1, total, A4Width)))
  }

  /** All photo pages, in order. */
  function AppendixPages(photos: seq<Photo>, mainPages: nat, language: Language, h: HeaderType): (ps: seq<Page>)
    ensures |ps| == CeilDiv(|photos|, 2)
  {
    seq(CeilDiv(|photos|, 2), j requires 0 <= j < CeilDiv(|photos|, 2) =>
      AppendixPage(photos, 2 * j, mainPages, language, h))
  }

  /** Photo page `j` is the one opened at loop index `2 * j`. */
  lemma AppendixPageAt(photos: seq<Photo>, mainPages: nat, language: Language, h: HeaderType, j: nat)
    requires j < CeilDiv(|photos|, 2)
    ensures 2 * j < |photos|
    ensures AppendixPages(photos, mainPages, language, h)[j] == AppendixPage(photos, 2 * j, mainPages, language, h)
  {
  }

  /** The rendered pages with the footer stamped on each. */
  function WithFooters(pages: seq<Page>, photoCount: nat, language: Language, h: HeaderType): (ps: seq<Page>)
    ensures |ps| == |pages|
  {
    seq(|pages|, k requires 0 <= k < |pages| =>
      pages[k].(footer := Some(Footer(h, language, k + 1, TotalPages(|pages|, photoCount), pages[k].width))))
  }

  /** The finished document. */
  function FinalPages(pages: seq<Page>, photos: seq<Photo>, language: Language, h: HeaderType): seq<Page>
  {
    WithFooters(pages, |photos|, language, h) + AppendixPages(photos, |pages|, language, h)
  }

  /** The document being post-processed: the pages the PDF library holds. */
  class PdfDocument {
    var pages: seq<Page>

    /** `PDFDocument.load` of the rendered report. */
    constructor (rendered: seq<Page>)
      ensures pages == rendered
    {
      pages := rendered;
    }

    /** `pages.forEach(...)`: stamps the footer on every rendered page. */
    method AddFooters(photoCount: nat, language: Language, h: HeaderType)
      modifies this
      ensures pages == WithFooters(old(pages), photoCount, language, h)
    {
      var total := TotalPages(|pages|, photoCount);
      var index := 0;
      while index < |pages|
        invariant 0 <= index <= |pages| == |old(pages)|
        invariant total == TotalPages(|old(pages)|, photoCount)
        invariant forall k :: 0 <= k < index ==>
          pages[k] == old(pages)[k].(footer := Some(Footer(h, language, k + 1, total, old(pages)[k].width)))
        invariant forall k :: index <= k < |pages| ==> pages[k] == old(pages)[k]
      {
        var page := pages[index];
        pages := pages[index := page.(footer := Some(Footer(h, language, index + 1, total, page.width)))];
        index := index + 1;
      }
    }

    /** `for (let i = 0; i < images.length; i += 2)`: appends one photo page
        per pair of photos. */
    method AddAppendix(photos: seq<Photo>, mainPages: nat, language: Language, h: HeaderType)
      modifies this
      ensures pages == old(pages) + AppendixPages(photos, mainPages, language, h)
    {
      ghost var all := AppendixPages(photos, mainPages, language, h);
      var i := 0;
      ghost var j := 0;
      while i < |photos|
        invariant i == 2 * j && j <= |all|
        invariant |pages| == |old(pages)| + j && pages[..|old(pages)|] == old(pages)
        invariant forall k :: 0 <= k < j ==> pages[|old(pages)| + k] == all[k]
      {
        assert j < |all|;
        assert all[j] == AppendixPage(photos, i, mainPages, language, h);
        pages := pages + [AppendixPage(photos, i, mainPages, language, h)];
        i := i + 2;
        j := j + 1;
      }
      assert j == |all|;
    }
  }

  /** `generatePDFWithFooter`: footers on the rendered pages, then the photo
      pages, numbered on from the rendered ones. */
  method GeneratePdfWithFooter(doc: PdfDocument, photos: seq<Photo>, language: Language, h: HeaderType)
    modifies doc
    ensures doc.pages == FinalPages(old(doc.pages), photos, language, h)
  {
    var totalMainPages := |doc.pages|;
    doc.AddFooters(|photos|, language, h);
    doc.AddAppendix(photos, totalMainPages, language, h);
  }

  // ---------------------------------------------------------------------------
  // Properties of the finished document
  // ---------------------------------------------------------------------------

  /** The page's footer is the one of this branding and language that reads
      "page `page` of `total`": its text is `FooterText(h, language, page, total)`,
      which by `FooterTextInjective` names no other pair. */
  predicate NumberedAs(p: Page, h: HeaderType, language: Language, page: nat, total: nat)
  {
    && p.footer.Some?
    && p.footer.value.header == h && p.footer.value.language == language
    && p.footer.value.page == page && p.footer.value.total == total
  }

  /** Rendered page `k` (from zero) says "page k + 1 of the total". */
  lemma WithFootersNumbering(pages: seq<Page>, photoCount: nat, language: Language, h: HeaderType, k: nat)
    requires k < |pages|
    ensures var w := WithFooters(pages, photoCount, language, h);
            NumberedAs(w[k], h, language, k + 1, TotalPages(|pages|, photoCount))
  {
  }

  /** Photo page `j` (from zero) says "page mainPages + j + 1 of the total". */
  lemma AppendixNumbering(photos: seq<Photo>, mainPages: nat, language: Language, h: HeaderType, j: nat)
    requires j < CeilDiv(|photos|, 2)
    ensures var a := AppendixPages(photos, mainPages, language, h);
            NumberedAs(a[j], h, language, mainPages + j + 1, TotalPages(mainPages, |photos|))
  {
    AppendixPageAt(photos, mainPages, language, h, j);
    assert (2 * j) / 2 == j;
  }

  /** The document has the announced number of pages, and page `k` (from
      one) says "page k of that total" in its footer, for the rendered and
      the photo pages alike. */
  lemma FooterNumbering(pages: seq<Page>, photos: seq<Photo>, language: Language, h: HeaderType)
    ensures var f := FinalPages(pages, photos, language, h);
            && |f| == TotalPages(|pages|, |photos|)
            && forall k :: 0 <= k < |f| ==> NumberedAs(f[k], h, language, k + 1, |f|)
  {
    var f := FinalPages(pages, photos, language, h);
    var w := WithFooters(pages, |photos|, language, h);
    var a := AppendixPages(photos, |pages|, language, h);
    assert f == w + a;
    assert |f| == TotalPages(|pages|, |photos|);
    forall k | 0 <= k < |f|
      ensures NumberedAs(f[k], h, language, k + 1, |f|)
    {
      if k < |pages| {
        assert f[k] == w[k];
        WithFootersNumbering(pages, |photos|, language, h, k);
      } else {
        var j := k - |pages|;
        assert f[k] == a[j];
        AppendixNumbering(photos, |pages|, language, h, j);
        assert |pages| + j + 1 == k + 1;
      }
    }
  }

  /** Photo `i` sits on photo page `i / 2`, on top when `i` is even and
      below otherwise; a page carries two photos except the last one when
      the number of photos is odd. */
  lemma PhotoPlacement(photos: seq<Photo>, mainPages: nat, language: Language, h: HeaderType, i: nat)
    requires i < |photos|
    ensures var a := AppendixPages(photos, mainPages, language, h);
            && i / 2 < |a|
            && exists s :: 0 <= s < |a[i / 2].slots| && a[i / 2].slots[s] == MakeSlot(photos, i, if i % 2 == 0 then Top else Bottom, language)
    ensures var a := AppendixPages(photos, mainPages, language, h);
            |a[i / 2].slots| == (if 2 * (i / 2) + 1 < |photos| then 2 else 1)
  {
    var j := i / 2;
    HalfIndex(i, |photos|);
    AppendixPageAt(photos, mainPages, language, h, j);
    var p := AppendixPage(photos, 2 * j, mainPages, language, h);
    if i % 2 == 0 {
      assert p.slots[0] == MakeSlot(photos, i, Top, language);
    } else {
      assert p.slots[1] == MakeSlot(photos, i, Bottom, language);
    }
  }

  /** Index `i` lies on pair `i / 2`, which is `2 * (i / 2)` plus zero or one. */
  lemma HalfIndex(i: nat, n: nat)
    requires i < n
    ensures i / 2 < CeilDiv(n, 2)
    ensures i == 2 * (i / 2) + i % 2 && (i % 2 == 0 || i % 2 == 1)
  {
  }

  /** The last page holds a single photo exactly when the number of photos is odd. */
  lemma LastPageOddCount(photos: seq<Photo>, mainPages: nat, language: Language, h: HeaderType)
    requires |photos| > 0
    ensures var a := AppendixPages(photos, mainPages, language, h);
            |a| > 0 && (|a[|a| - 1].slots| == 1 <==> |photos| % 2 == 1)
  {
    var c := CeilDiv(|photos|, 2);
    LastPair(|photos|);
    AppendixPageAt(photos, mainPages, language, h, c - 1);
  }

  /** The last pair opens at `2 * (c - 1)` and is complete iff the count is even. */
  lemma LastPair(n: nat)
    requires n > 0
    ensures CeilDiv(n, 2) > 0
    ensures 2 * (CeilDiv(n, 2) - 1) + 1 < n <==> n % 2 == 0
  {
  }
}
