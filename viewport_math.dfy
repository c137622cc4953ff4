/**
 * The pan/zoom viewport of the UI element and its bridge to crop rectangles.
 *
 * A viewport is a zoom (1 = the image just covers the frame) and a pan of the
 * visible centre away from the image centre, in image fractions. Aspect ratios
 * are width / height in pixels: `frameAR` of the on-screen frame, `imageAR` of
 * the source image.
 */
module ViewportMath {
  import opened Wrappers
  import opened Numeric
  import opened Types
  import opened Constraints

  datatype ViewportState = ViewportState(zoom: real, panX: real, panY: real)

  /** A rectangle in container pixels. */
  datatype FrameRect = FrameRect(x: real, y: real, w: real, h: real)

  /** A CSS `translate(x, y) scale(scale)` with origin at the top-left corner. */
  datatype ImageTransform = ImageTransform(x: real, y: real, scale: real)

  /** The frame shape attribute of the element. */
  datatype Shape = Rect | Circle

  /** The quotients the visible-size computation takes are defined for these ratios. */
  predicate VisibleDefined(zoom: real, frameAR: real, imageAR: real)
  {
    zoom != 0.0 && (if imageAR > frameAR then imageAR != 0.0 else frameAR != 0.0)
  }

  /**
   * The visible (width, height) in image fractions at a zoom: the side that
   * constrains the cover fit spans 1 / zoom of the image and the other side
   * follows from the frame's shape, so the visible region has the frame's
   * pixel ratio. With positive ratios and zoom >= 1 neither side exceeds the
   * image.
   */
  function VisibleSize(zoom: real, frameAR: real, imageAR: real): (r: (real, real))
    requires VisibleDefined(zoom, frameAR, imageAR)
    ensures imageAR > frameAR ==> r.1 * zoom == 1.0
    ensures !(imageAR > frameAR) ==> r.0 * zoom == 1.0
    ensures r.0 * imageAR == r.1 * frameAR
    ensures zoom >= 1.0 && frameAR > 0.0 && imageAR > 0.0 ==> 0.0 < r.0 <= 1.0 && 0.0 < r.1 <= 1.0
  {
    if imageAR > frameAR then
      ScaledRatio(frameAR, imageAR, zoom);
      FractionAtMostOne(frameAR / imageAR, zoom);
      FractionAtMostOne(1.0, zoom);
      ((frameAR / imageAR) / zoom, 1.0 / zoom)
    else
      ScaledRatio(imageAR, frameAR, zoom);
      FractionAtMostOne(imageAR / frameAR, zoom);
      FractionAtMostOne(1.0, zoom);
      (1.0 / zoom, (imageAR / frameAR) / zoom)
  }

  /** ((a / b) / z) * b == (1 / z) * a, and 1 / z undoes z, for non-zero b and z; a / b <= 1 when 0 < a < b. */
  lemma ScaledRatio(a: real, b: real, z: real)
    requires b != 0.0 && z != 0.0
    ensures ((a / b) / z) * b == (1.0 / z) * a
    ensures (1.0 / z) * z == 1.0 && ((a / b) / z) * z == a / b
    ensures 0.0 < a && a <= b ==> 0.0 < a / b <= 1.0
  {
    var q := a / b;
    assert q * b == a;
    assert (q / z) * b == (q * b) / z;
  }

  /** 0 < a <= 1 and z >= 1 give 0 < a / z <= 1. */
  lemma FractionAtMostOne(a: real, z: real)
    ensures 0.0 < a <= 1.0 && z >= 1.0 ==> 0.0 < a / z <= 1.0
  {
  }

  /**
   * viewportToCropRect: the visible region, centred at (0.5 + panX, 0.5 + panY),
   * with the frame's pixel ratio and 1 / zoom of the image on its constraining
   * side; for positive ratios and zoom >= 1 it is well-ordered and no larger
   * than the image.
   */
  function ViewportToCropRect(vp: ViewportState, frameAR: real, imageAR: real): (r: CropRect)
    requires VisibleDefined(vp.zoom, frameAR, imageAR)
    ensures r.x1 + r.x2 == 2.0 * (0.5 + vp.panX) && r.y1 + r.y2 == 2.0 * (0.5 + vp.panY)
    ensures r.Width() * imageAR == r.Height() * frameAR
    ensures imageAR > frameAR ==> r.Height() * vp.zoom == 1.0
    ensures !(imageAR > frameAR) ==> r.Width() * vp.zoom == 1.0
    ensures vp.zoom >= 1.0 && frameAR > 0.0 && imageAR > 0.0 ==>
      r.WellOrdered() && 0.0 < r.Width() <= 1.0 && 0.0 < r.Height() <= 1.0
  {
    var vis := VisibleSize(vp.zoom, frameAR, imageAR);
    var cx := 0.5 + vp.panX;
    var cy := 0.5 + vp.panY;
    CropRect(cx - vis.0 / 2.0, cy - vis.1 / 2.0, cx + vis.0 / 2.0, cy + vis.1 / 2.0)
  }

  /** The quotients cropRectToViewport takes are defined for this rectangle and these ratios. */
  predicate ViewportOfDefined(crop: CropRect, frameAR: real, imageAR: real)
  {
    crop.Width() != 0.0 && crop.Height() != 0.0 && (if imageAR > frameAR then imageAR != 0.0 else frameAR != 0.0)
  }

  /**
   * cropRectToViewport: the pan puts the visible centre on the rectangle's
   * centre; the zoom is the larger of the zooms implied by the width and by
   * the height (the tighter crop), and never below 1.
   */
  function CropRectToViewport(crop: CropRect, frameAR: real, imageAR: real): (r: ViewportState)
    requires ViewportOfDefined(crop, frameAR, imageAR)
    ensures r.panX == (crop.x1 + crop.x2) / 2.0 - 0.5 && r.panY == (crop.y1 + crop.y2) / 2.0 - 0.5
    ensures r.zoom >= 1.0
    ensures imageAR > frameAR ==>
      r.zoom >= (frameAR / imageAR) / crop.Width() && r.zoom >= 1.0 / crop.Height()
    ensures !(imageAR > frameAR) ==>
      r.zoom >= 1.0 / crop.Width() && r.zoom >= (imageAR / frameAR) / crop.Height()
    ensures r.zoom == 1.0 || (imageAR > frameAR && (r.zoom == (frameAR / imageAR) / crop.Width() || r.zoom == 1.0 / crop.Height()))
                          || (!(imageAR > frameAR) && (r.zoom == 1.0 / crop.Width() || r.zoom == (imageAR / frameAR) / crop.Height()))
  {
    var cropW := crop.x2 - crop.x1;
    var cropH := crop.y2 - crop.y1;
    var zoom := if imageAR > frameAR then Max((frameAR / imageAR) / cropW, 1.0 / cropH)
                else Max(1.0 / cropW, (imageAR / frameAR) / cropH);
    ViewportState(Max(1.0, zoom), (crop.x1 + crop.x2) / 2.0 - 0.5, (crop.y1 + crop.y2) / 2.0 - 0.5)
  }

  /** Going from a viewport to its rectangle and back gives the same viewport, for zoom >= 1 and positive ratios. */
  lemma ViewportRoundTrip(vp: ViewportState, frameAR: real, imageAR: real)
    requires vp.zoom >= 1.0 && frameAR > 0.0 && imageAR > 0.0
    ensures ViewportOfDefined(ViewportToCropRect(vp, frameAR, imageAR), frameAR, imageAR)
    ensures CropRectToViewport(ViewportToCropRect(vp, frameAR, imageAR), frameAR, imageAR) == vp
  {
    var r := ViewportToCropRect(vp, frameAR, imageAR);
    var z := vp.zoom;
    var vis := VisibleSize(z, frameAR, imageAR);
    assert r.Width() == vis.0 && r.Height() == vis.1;
    InverseOfQuotient(1.0, z);
    if imageAR > frameAR {
      InverseOfQuotient(frameAR / imageAR, z);
      assert (frameAR / imageAR) / r.Width() == z && 1.0 / r.Height() == z;
    } else {
      InverseOfQuotient(imageAR / frameAR, z);
      assert 1.0 / r.Width() == z && (imageAR / frameAR) / r.Height() == z;
    }
  }

  /** k / (k / z) == z for non-zero k and z. */
  lemma InverseOfQuotient(k: real, z: real)
    requires k != 0.0 && z != 0.0
    ensures k / (k / z) == z
  {
  }

  /**
   * clampViewport: the zoom is clamped to [1, maxZoom] (at least 1 even when
   * maxZoom is below 1); in crop mode each pan is clamped so the visible region
   * stays in the image; in crop-pad mode the pan is untouched.
   */
  function ClampViewport(vp: ViewportState, frameAR: real, imageAR: real, mode: Mode, maxZoom: real): (r: ViewportState)
    requires mode == Crop ==> VisibleDefined(1.0, frameAR, imageAR)
    ensures r.zoom >= 1.0
    ensures maxZoom >= 1.0 ==> r.zoom <= maxZoom
    ensures 1.0 <= vp.zoom <= maxZoom ==> r.zoom == vp.zoom
    ensures mode == CropPad ==> r.panX == vp.panX && r.panY == vp.panY
    ensures mode == Crop ==>
      var vis := VisibleSize(r.zoom, frameAR, imageAR);
      && Abs(r.panX) <= Max(0.0, 0.5 - vis.0 / 2.0) && Abs(r.panY) <= Max(0.0, 0.5 - vis.1 / 2.0)
      && (Abs(vp.panX) <= 0.5 - vis.0 / 2.0 ==> r.panX == vp.panX)
      && (Abs(vp.panY) <= 0.5 - vis.1 / 2.0 ==> r.panY == vp.panY)
  {
    var zoom := Clamp(vp.zoom, 1.0, maxZoom);
    if mode == Crop then
      var vis := VisibleSize(zoom, frameAR, imageAR);
      var maxPanX := Max(0.0, 0.5 - vis.0 / 2.0);
      var maxPanY := Max(0.0, 0.5 - vis.1 / 2.0);
      ViewportState(zoom, Clamp(vp.panX, -maxPanX, maxPanX), Clamp(vp.panY, -maxPanY, maxPanY))
    else
      ViewportState(zoom, vp.panX, vp.panY)
  }

  /** In crop mode with positive ratios the region of a clamped viewport lies inside the image. */
  lemma ClampedViewportInsideImage(vp: ViewportState, frameAR: real, imageAR: real, maxZoom: real)
    requires frameAR > 0.0 && imageAR > 0.0
    ensures var c := ClampViewport(vp, frameAR, imageAR, Crop, maxZoom);
      var r := ViewportToCropRect(c, frameAR, imageAR);
      r.WellOrdered() && r.InUnitSquare()
  {
  }

  /** Clamping a viewport that was already clamped changes nothing. */
  lemma ClampViewportIdempotent(vp: ViewportState, frameAR: real, imageAR: real, mode: Mode, maxZoom: real)
    requires mode == Crop ==> VisibleDefined(1.0, frameAR, imageAR)
    requires maxZoom >= 1.0
    ensures var c := ClampViewport(vp, frameAR, imageAR, mode, maxZoom);
      ClampViewport(c, frameAR, imageAR, mode, maxZoom) == c
  {
  }

  /** The transform is defined: the image and the frame have non-zero height and the cover scale's divisor is not zero. */
  predicate TransformDefined(frame: FrameRect, imgW: real, imgH: real)
  {
    imgH != 0.0 && frame.h != 0.0 && (imgW / imgH > frame.w / frame.h || imgW != 0.0)
  }

  /**
   * The scale at which the image just covers the frame: it fills the frame on
   * one axis exactly and overflows (or fills) it on the other.
   */
  function CoverScale(frame: FrameRect, imgW: real, imgH: real): (s: real)
    requires TransformDefined(frame, imgW, imgH)
    ensures imgW > 0.0 && imgH > 0.0 && frame.w > 0.0 && frame.h > 0.0 ==>
      s > 0.0 && imgW * s >= frame.w && imgH * s >= frame.h && (imgW * s == frame.w || imgH * s == frame.h)
  {
    if imgW / imgH > frame.w / frame.h then
      CoverWide(frame.w, frame.h, imgW, imgH);
      frame.h / imgH
    else
      CoverTall(frame.w, frame.h, imgW, imgH);
      frame.w / imgW
  }

  /** A wider image scaled to the frame height overflows the frame width. */
  lemma CoverWide(fw: real, fh: real, iw: real, ih: real)
    ensures fw > 0.0 && fh > 0.0 && iw > 0.0 && ih > 0.0 && iw / ih > fw / fh ==> iw * (fh / ih) >= fw
  {
    if fw > 0.0 && fh > 0.0 && iw > 0.0 && ih > 0.0 && iw / ih > fw / fh {
      CoverWideSteps(fw, fh, iw, ih);
    }
  }

  lemma CoverWideSteps(fw: real, fh: real, iw: real, ih: real)
    requires fw > 0.0 && fh > 0.0 && iw > 0.0 && ih > 0.0 && iw / ih > fw / fh
    ensures iw * (fh / ih) >= fw
  {
    assert iw * (fh / ih) == (iw / ih) * fh;
    ScaleMonotone(fw / fh, iw / ih, fh);
  }

  /** A taller (or equal) image scaled to the frame width overflows the frame height. */
  lemma CoverTall(fw: real, fh: real, iw: real, ih: real)
    ensures fw > 0.0 && fh > 0.0 && iw > 0.0 && ih > 0.0 && !(iw / ih > fw / fh) ==> ih * (fw / iw) >= fh
  {
    if fw > 0.0 && fh > 0.0 && iw > 0.0 && ih > 0.0 && !(iw / ih > fw / fh) {
      CoverTallSteps(fw, fh, iw, ih);
    }
  }

  lemma CoverTallSteps(fw: real, fh: real, iw: real, ih: real)
    requires fw > 0.0 && fh > 0.0 && iw > 0.0 && ih > 0.0 && !(iw / ih > fw / fh)
    ensures ih * (fw / iw) >= fh
  {
    assert ih * (fw / iw) == (fw / fh) * fh / (iw / ih);
    ScaleMonotone(iw / ih, fw / fh, fh);
    assert (iw / ih) * fh <= fw / fh * fh;
  }

  /** Drawn with translation `offset` and `scale`, image fraction `p` of a side `natural` pixels long lands at container pixel `target`. */
  predicate Lands(offset: real, p: real, natural: real, scale: real, target: real)
  {
    offset + p * natural * scale == target
  }

  /**
   * computeImageTransform: the scale is the cover scale times the zoom and the
   * translation puts the image point (0.5 + panX, 0.5 + panY) at the frame's
   * centre.
   */
  function ComputeImageTransform(vp: ViewportState, frame: FrameRect, imgW: real, imgH: real): (t: ImageTransform)
    requires TransformDefined(frame, imgW, imgH)
    ensures t.scale == CoverScale(frame, imgW, imgH) * vp.zoom
    ensures Lands(t.x, 0.5 + vp.panX, imgW, t.scale, frame.x + frame.w / 2.0)
    ensures Lands(t.y, 0.5 + vp.panY, imgH, t.scale, frame.y + frame.h / 2.0)
  {
    var scale := CoverScale(frame, imgW, imgH) * vp.zoom;
    var fcx := frame.x + frame.w / 2.0;
    var fcy := frame.y + frame.h / 2.0;
    var cx := 0.5 + vp.panX;
    var cy := 0.5 + vp.panY;
    ImageTransform(fcx - cx * imgW * scale, fcy - cy * imgH * scale, scale)
  }

  /**
   * The two views agree: the region viewportToCropRect reports is exactly the
   * part of the image the transform puts inside the frame, edge for edge.
   */
  lemma VisibleRegionFillsFrame(vp: ViewportState, frame: FrameRect, imgW: real, imgH: real)
    requires imgW > 0.0 && imgH > 0.0 && frame.w > 0.0 && frame.h > 0.0 && vp.zoom > 0.0
    requires frame.w / frame.h > 0.0 && imgW / imgH > 0.0  // implied by the line above, stated for the solver
    ensures var t := ComputeImageTransform(vp, frame, imgW, imgH);
      var r := ViewportToCropRect(vp, frame.w / frame.h, imgW / imgH);
      && Lands(t.x, r.x1, imgW, t.scale, frame.x) && Lands(t.x, r.x2, imgW, t.scale, frame.x + frame.w)
      && Lands(t.y, r.y1, imgH, t.scale, frame.y) && Lands(t.y, r.y2, imgH, t.scale, frame.y + frame.h)
  {
    VisibleSpan(vp.zoom, frame, imgW, imgH);
    HorizontalEdgesLand(vp, frame, imgW, imgH);
    VerticalEdgesLand(vp, frame, imgW, imgH);
  }

  /** The left and right edges of the visible region land on the frame's left and right edges. */
  lemma HorizontalEdgesLand(vp: ViewportState, frame: FrameRect, imgW: real, imgH: real)
    requires imgW > 0.0 && imgH > 0.0 && frame.w > 0.0 && frame.h > 0.0 && vp.zoom > 0.0
    requires frame.w / frame.h > 0.0 && imgW / imgH > 0.0
    requires Covers(VisibleSize(vp.zoom, frame.w / frame.h, imgW / imgH).0, imgW, CoverScale(frame, imgW, imgH) * vp.zoom, frame.w)
    ensures var t := ComputeImageTransform(vp, frame, imgW, imgH);
      var r := ViewportToCropRect(vp, frame.w / frame.h, imgW / imgH);
      Lands(t.x, r.x1, imgW, t.scale, frame.x) && Lands(t.x, r.x2, imgW, t.scale, frame.x + frame.w)
  {
    var t := ComputeImageTransform(vp, frame, imgW, imgH);
    var r := ViewportToCropRect(vp, frame.w / frame.h, imgW / imgH);
    EdgesLand(t.x, 0.5 + vp.panX, r.x1, r.x2, imgW, t.scale, frame.x, frame.w,
              VisibleSize(vp.zoom, frame.w / frame.h, imgW / imgH).0, CoverScale(frame, imgW, imgH) * vp.zoom);
  }

  /** The top and bottom edges of the visible region land on the frame's top and bottom edges. */
  lemma VerticalEdgesLand(vp: ViewportState, frame: FrameRect, imgW: real, imgH: real)
    requires imgW > 0.0 && imgH > 0.0 && frame.w > 0.0 && frame.h > 0.0 && vp.zoom > 0.0
    requires frame.w / frame.h > 0.0 && imgW / imgH > 0.0
    requires Covers(VisibleSize(vp.zoom, frame.w / frame.h, imgW / imgH).1, imgH, CoverScale(frame, imgW, imgH) * vp.zoom, frame.h)
    ensures var t := ComputeImageTransform(vp, frame, imgW, imgH);
      var r := ViewportToCropRect(vp, frame.w / frame.h, imgW / imgH);
      Lands(t.y, r.y1, imgH, t.scale, frame.y) && Lands(t.y, r.y2, imgH, t.scale, frame.y + frame.h)
  {
    var t := ComputeImageTransform(vp, frame, imgW, imgH);
    var r := ViewportToCropRect(vp, frame.w / frame.h, imgW / imgH);
    EdgesLand(t.y, 0.5 + vp.panY, r.y1, r.y2, imgH, t.scale, frame.y, frame.h,
              VisibleSize(vp.zoom, frame.w / frame.h, imgW / imgH).1, CoverScale(frame, imgW, imgH) * vp.zoom);
  }

  /**
   * If the centre c of a span lands on the middle of [f, f + len] and the span
   * covers len pixels, its two ends land on f and f + len.
   */
  lemma EdgesLand(offset: real, c: real, lo: real, hi: real, natural: real, scale: real, f: real, len: real,
                  span: real, cover: real)
    requires Lands(offset, c, natural, scale, f + len / 2.0)
    requires lo + hi == 2.0 * c && hi - lo == span && scale == cover && Covers(span, natural, cover, len)
    ensures Lands(offset, lo, natural, scale, f) && Lands(offset, hi, natural, scale, f + len)
  {
    var k := natural * scale;
    assert (hi - lo) * k == len;
    assert lo * k == c * k - len / 2.0 by {
      assert lo == c - (hi - lo) / 2.0;
    }
    assert hi * k == c * k + len / 2.0 by {
      assert hi == c + (hi - lo) / 2.0;
    }
  }

  /** A span of `fraction` of an image `natural` pixels long, drawn at `scale`, covers `length` container pixels. */
  predicate Covers(fraction: real, natural: real, scale: real, length: real)
  {
    fraction * natural * scale == length
  }

  /** The visible size, drawn at the cover scale times the zoom, is exactly the frame's width and height. */
  lemma VisibleSpan(zoom: real, frame: FrameRect, imgW: real, imgH: real)
    requires imgW > 0.0 && imgH > 0.0 && frame.w > 0.0 && frame.h > 0.0 && zoom > 0.0
    requires frame.w / frame.h > 0.0 && imgW / imgH > 0.0  // implied by the line above, stated for the solver
    ensures var vis := VisibleSize(zoom, frame.w / frame.h, imgW / imgH);
      var scale := CoverScale(frame, imgW, imgH) * zoom;
      Covers(vis.0, imgW, scale, frame.w) && Covers(vis.1, imgH, scale, frame.h)
  {
    if imgW / imgH > frame.w / frame.h {
      VisibleSpanWide(zoom, frame, imgW, imgH);
    } else {
      VisibleSpanTall(zoom, frame, imgW, imgH);
    }
  }

  /** VisibleSpan for an image wider than the frame. */
  lemma VisibleSpanWide(zoom: real, frame: FrameRect, imgW: real, imgH: real)
    requires imgW > 0.0 && imgH > 0.0 && frame.w > 0.0 && frame.h > 0.0 && zoom > 0.0
    requires frame.w / frame.h > 0.0 && imgW / imgH > frame.w / frame.h
    ensures var vis := VisibleSize(zoom, frame.w / frame.h, imgW / imgH);
      var scale := CoverScale(frame, imgW, imgH) * zoom;
      Covers(vis.0, imgW, scale, frame.w) && Covers(vis.1, imgH, scale, frame.h)
  {
    var vis := VisibleSize(zoom, frame.w / frame.h, imgW / imgH);
    var scale := CoverScale(frame, imgW, imgH) * zoom;
    SpanAlongCover(frame.w, frame.h, imgW, imgH, zoom, vis.0, scale);
    SpanAcrossCover(frame.h, imgH, zoom, vis.1, scale);
  }

  /** VisibleSpan for an image no wider than the frame. */
  lemma VisibleSpanTall(zoom: real, frame: FrameRect, imgW: real, imgH: real)
    requires imgW > 0.0 && imgH > 0.0 && frame.w > 0.0 && frame.h > 0.0 && zoom > 0.0
    requires frame.w / frame.h > 0.0 && imgW / imgH > 0.0 && imgW / imgH <= frame.w / frame.h
    ensures var vis := VisibleSize(zoom, frame.w / frame.h, imgW / imgH);
      var scale := CoverScale(frame, imgW, imgH) * zoom;
      Covers(vis.0, imgW, scale, frame.w) && Covers(vis.1, imgH, scale, frame.h)
  {
    var vis := VisibleSize(zoom, frame.w / frame.h, imgW / imgH);
    var scale := CoverScale(frame, imgW, imgH) * zoom;
    RatioFlip(imgW, imgH, frame.w, frame.h);
    SpanAlongCover(frame.h, frame.w, imgH, imgW, zoom, vis.1, scale);
    SpanAcrossCover(frame.w, imgW, zoom, vis.0, scale);
  }

  /** (a / b) / (c / d) == (d / c) / (b / a) for positive a, b, c, d. */
  lemma RatioFlip(a: real, b: real, c: real, d: real)
    requires a > 0.0 && b > 0.0 && c > 0.0 && d > 0.0
    ensures (a / b) / (c / d) == (d / c) / (b / a)
  {
    assert (a / b) / (c / d) == (a * d) / (b * c);
    assert (d / c) / (b / a) == (d * a) / (c * b);
  }

  /** On the axis the cover scale is taken from, 1 / z of the image spans the frame: (1 / z) * n * ((f / n) * z) == f. */
  lemma SpanAcrossCover(f: real, n: real, z: real, span: real, scale: real)
    requires n > 0.0 && z > 0.0 && span == 1.0 / z && scale == (f / n) * z
    ensures Covers(span, n, scale, f)
  {
    var e := f / n;
    assert e * n == f;
    assert span * z == 1.0;
    assert span * n * (e * z) == (span * z) * (e * n);
  }

  /**
   * On the other axis the visible fraction is the ratio of the two aspect
   * ratios over z, and it spans the frame too:
   * ((fa / fb) / (na / nb) / z) * na * ((fb / nb) * z) == fa.
   */
  lemma SpanAlongCover(fa: real, fb: real, na: real, nb: real, z: real, span: real, scale: real)
    requires fa > 0.0 && fb > 0.0 && na > 0.0 && nb > 0.0 && z > 0.0
    requires span == (fa / fb) / (na / nb) / z && scale == (fb / nb) * z
    ensures Covers(span, na, scale, fa)
  {
    var a := fa / fb;
    assert a * fb == fa;
    var b := na / nb;
    assert b * nb == na;
    var c := a / b;
    assert c * b == a;
    var d := span;
    assert d * z == c;
    var e := fb / nb;
    assert e * nb == fb;
    calc {
      d * na * (e * z);
      (d * z) * (na * e);
      c * (b * nb * e);
      (c * b) * (nb * e);
      a * fb;
    }
  }

  /**
   * computeFrameRect: the whole container when there is no ratio or the
   * container is empty; otherwise a centred frame with the requested ratio
   * spanning 80% of the constraining side, inside the container for a
   * positive ratio.
   */
  function ComputeFrameRect(containerW: real, containerH: real, frameAR: Option<real>): (r: FrameRect)
    ensures frameAR.None? || containerW <= 0.0 || containerH <= 0.0 ==> r == FrameRect(0.0, 0.0, containerW, containerH)
    ensures frameAR.Some? && containerW > 0.0 && containerH > 0.0 ==>
      && 2.0 * r.x + r.w == containerW && 2.0 * r.y + r.h == containerH
      && r.w == r.h * frameAR.value
      && (r.h == 0.8 * containerH || r.w == 0.8 * containerW)
      && (frameAR.value > 0.0 ==> 0.0 < r.w <= containerW && 0.0 < r.h <= containerH && r.x >= 0.0 && r.y >= 0.0)
  {
    if frameAR.None? || containerW <= 0.0 || containerH <= 0.0 then FrameRect(0.0, 0.0, containerW, containerH)
    else
      var ar := frameAR.value;
      var containerAR := containerW / containerH;
      var size := if containerAR > ar then (containerH * 0.8 * ar, containerH * 0.8)
                  else (containerW * 0.8, containerW * 0.8 / ar);
      FrameFits(containerW, containerH, ar);
      FrameRect((containerW - size.0) / 2.0, (containerH - size.1) / 2.0, size.0, size.1)
  }

  /** The 80% frame of a positive ratio fits in a non-empty container. */
  lemma FrameFits(cw: real, ch: real, ar: real)
    requires cw > 0.0 && ch > 0.0
    ensures ar > 0.0 && cw / ch > ar ==> ch * 0.8 * ar <= cw
    ensures ar > 0.0 && !(cw / ch > ar) ==> cw * 0.8 / ar <= ch
  {
    if ar <= 0.0 {
    } else if cw / ch > ar {
      ScaleMonotone(ar, cw / ch, ch);
      assert ch * ar <= cw;
    } else {
      ScaleMonotone(cw / ch, ar, ch);
      assert cw <= ar * ch;
      assert cw / ar <= ch;
    }
  }

  /** getMaxZoom's default `minCropPx`: the crop keeps at least 50 source pixels on its shorter side. */
  const DEFAULT_MIN_CROP_PX: real := 50.0

  /**
   * getMaxZoom: never below 1; exactly 1 for an image without positive
   * dimensions; otherwise the zoom at which the shorter side shows
   * `minCropPx` pixels, unless that is below 1.
   */
  function GetMaxZoom(imgW: real, imgH: real, minCropPx: real): (r: real)
    requires imgW > 0.0 && imgH > 0.0 ==> minCropPx != 0.0
    ensures r >= 1.0
    ensures imgW <= 0.0 || imgH <= 0.0 ==> r == 1.0
    ensures imgW > 0.0 && imgH > 0.0 ==> r >= Min(imgW, imgH) / minCropPx && (r == 1.0 || r * minCropPx == Min(imgW, imgH))
  {
    if imgW <= 0.0 || imgH <= 0.0 then 1.0
    else Max(1.0, Min(imgW, imgH) / minCropPx)
  }

  /**
   * With the default minimum crop, a 1000×800 image may zoom to 16 (800 / 50),
   * and an image whose shorter side is under 50 pixels may not zoom at all.
   */
  lemma DefaultMaxZoomExample()
    ensures GetMaxZoom(1000.0, 800.0, DEFAULT_MIN_CROP_PX) == 16.0
    ensures GetMaxZoom(40.0, 2000.0, DEFAULT_MIN_CROP_PX) == 1.0
  {
  }

  /**
   * viewportToSelection: the viewport's region sent through the constraint
   * pipeline with no drag handle. In crop mode the padding is zero, and for
   * positive ratios and zoom >= 1 the crop is inside the image whenever there is no
   * minimum size or edge snapping is on.
   */
  function ViewportToSelection(vp: ViewportState, frameAR: real, imageAR: real, config: CropConfig): (r: CropSelection)
    requires VisibleDefined(vp.zoom, frameAR, imageAR) && ValidConfig(config)
    ensures config.mode == Crop ==> r.pad == ZERO_PAD
    ensures config.mode == CropPad ==> r.pad.NonNegative()
    ensures config.mode == Crop && vp.zoom >= 1.0 && frameAR > 0.0 && imageAR > 0.0
            && MaxSizeNonNegative(config) && MinSizeNonNegative(config)
            && (config.minSize.None? || config.edgeSnapThreshold > 0.0) ==>
      r.crop.WellOrdered() && r.crop.InUnitSquare()
  {
    var crop := ViewportToCropRect(vp, frameAR, imageAR);
    if MaxSizeNonNegative(config) && MinSizeNonNegative(config) then
      ConstrainedInsideImage(crop, config, None);
      Constrained(crop, config, None)
    else
      Constrained(crop, config, None)
  }

  /**
   * effectiveFrameAR: 1 for a circle; otherwise the locked ratio's
   * width / height, or none in free mode.
   */
  function EffectiveFrameAR(config: CropConfig, shape: Shape, imgW: real, imgH: real): (r: Option<real>)
    requires shape == Rect && config.aspectRatio.Some? ==> config.aspectRatio.value.height != 0.0
    ensures shape == Circle ==> r == Some(1.0)
    ensures shape == Rect ==> (r.Some? <==> config.aspectRatio.Some?)
    ensures shape == Rect && r.Some? ==> r.value * config.aspectRatio.value.height == config.aspectRatio.value.width
  {
    if shape == Circle then Some(1.0)
    else if config.aspectRatio.Some? then Some(config.aspectRatio.value.width / config.aspectRatio.value.height)
    else None
  }

  /** resolveFrameAR: a set frame ratio as is; in free mode the container's ratio, or 1 for an empty container. */
  function ResolveFrameAR(frameAR: Option<real>, containerW: real, containerH: real): (r: real)
    ensures frameAR.Some? ==> r == frameAR.value
    ensures frameAR.None? && containerH <= 0.0 ==> r == 1.0
    ensures frameAR.None? && containerH > 0.0 ==> r * containerH == containerW
  {
    if frameAR.Some? then frameAR.value
    else if containerH <= 0.0 then 1.0
    else containerW / containerH
  }

  /** The image fraction that a transform puts under container x-coordinate `p`. */
  function FractionUnder(p: real, offset: real, natural: real, scale: real): (f: real)
    requires natural * scale != 0.0
    ensures Lands(offset, f, natural, scale, p)
  {
    (p - offset) / (natural * scale)
  }

  /**
   * zoomToward: the new zoom is `newZoom` and the pan is chosen so that the
   * image point under (pointX, pointY) before the zoom is under the same
   * container pixel after it.
   */
  function ZoomToward(vp: ViewportState, newZoom: real, pointX: real, pointY: real,
                      frame: FrameRect, imgW: real, imgH: real): (r: ViewportState)
    requires imgW > 0.0 && imgH > 0.0 && frame.w > 0.0 && frame.h > 0.0
    requires vp.zoom != 0.0 && newZoom != 0.0
    ensures r.zoom == newZoom
    ensures var before := ComputeImageTransform(vp, frame, imgW, imgH);
      var after := ComputeImageTransform(r, frame, imgW, imgH);
      && Lands(after.x, FractionUnder(pointX, before.x, imgW, before.scale), imgW, after.scale, pointX)
      && Lands(after.y, FractionUnder(pointY, before.y, imgH, before.scale), imgH, after.scale, pointY)
  {
    var before := ComputeImageTransform(vp, frame, imgW, imgH);
    var cover := CoverScale(frame, imgW, imgH);
    NonZeroProduct(imgW, cover, vp.zoom);
    NonZeroProduct(imgH, cover, vp.zoom);
    NonZeroProduct(imgW, cover, newZoom);
    NonZeroProduct(imgH, cover, newZoom);
    var newScale := cover * newZoom;
    var fcx := frame.x + frame.w / 2.0;
    var fcy := frame.y + frame.h / 2.0;
    var newCx := ZoomAxis(pointX, before.x, imgW, before.scale, newScale, fcx);
    var newCy := ZoomAxis(pointY, before.y, imgH, before.scale, newScale, fcy);
    var r := ViewportState(newZoom, newCx - 0.5, newCy - 0.5);
    var after := ComputeImageTransform(r, frame, imgW, imgH);
    assert after.scale == newScale && 0.5 + r.panX == newCx && 0.5 + r.panY == newCy;
    assert Lands(after.x, newCx, imgW, newScale, fcx) && Lands(after.y, newCy, imgH, newScale, fcy);
    r
  }

  /**
   * One axis of zoomToward: the image fraction `c` to put at the frame centre
   * `m` at the new scale, so that the fraction that was under `p` at the old
   * scale is under `p` again.
   */
  function ZoomAxis(p: real, offset: real, natural: real, oldScale: real, newScale: real, m: real): (c: real)
    requires natural * oldScale != 0.0 && natural * newScale != 0.0
    ensures forall o :: Lands(o, c, natural, newScale, m) ==>
      Lands(o, FractionUnder(p, offset, natural, oldScale), natural, newScale, p)
  {
    var f := FractionUnder(p, offset, natural, oldScale);
    var c := f + (m - p) / (natural * newScale);
    forall o | Lands(o, c, natural, newScale, m)
      ensures Lands(o, f, natural, newScale, p)
    {
      PointStays(o, c, f, m, p, natural, newScale);
    }
    c
  }

  /** a * b * c is not zero when a and c are not zero and b is positive. */
  lemma NonZeroProduct(a: real, b: real, c: real)
    requires a != 0.0 && b > 0.0 && c != 0.0
    ensures a * (b * c) != 0.0
  {
  }

  /**
   * If the image point `c` lands at `m`, and `c` lies `(m - p) / (natural * scale)`
   * past `f`, then `f` lands at `p`.
   */
  lemma PointStays(offset: real, c: real, f: real, m: real, p: real, natural: real, scale: real)
    requires natural * scale != 0.0 && c == f + (m - p) / (natural * scale)
    requires Lands(offset, c, natural, scale, m)
    ensures Lands(offset, f, natural, scale, p)
  {
    var k := natural * scale;
    assert c * natural * scale == c * k;
    assert f * natural * scale == f * k;
    assert c * k == f * k + (m - p);
  }
}
