/**
 * The constraint pipeline: aspect-ratio correction, bounds (crop mode) or
 * overflow-to-padding (crop-pad mode), minimum/maximum size, edge snap and
 * single-precision rounding, plus the move / resize / normalise primitives the
 * reducer builds raw rectangles with.
 *
 * The stages written in the source as a run of assignments to local variables
 * are methods here; each is proved equal to a closed-form specification
 * function (one axis at a time, or driven by a per-handle anchor table), and
 * the properties of the pipeline are proved about those functions, which the
 * reducer and the viewport bridge use.
 */
module Constraints {
  import opened Wrappers
  import opened Numeric
  import opened Types

  /** `Math.fround`: single-precision rounding, taken as exact in this model. */
  function F32(v: real): real { v }

  /** The crop-fraction width:height ratio that gives the pixel ratio `ar` on a `srcW` x `srcH` source. */
  function RatioValue(ar: AspectRatio, srcW: real, srcH: real): (r: real)
    requires ar.height != 0.0 && srcW != 0.0
    ensures ar.width > 0.0 && ar.height > 0.0 && srcW > 0.0 && srcH > 0.0 ==> r > 0.0
  {
    (ar.width / ar.height) * (srcH / srcW)
  }

  /**
   * A crop of fractional size w x h has fraction ratio RatioValue exactly when
   * its size in source pixels, (w * srcW) x (h * srcH), has the ratio ar.width : ar.height.
   */
  lemma RatioValueIsPixelRatio(ar: AspectRatio, srcW: real, srcH: real, w: real, h: real)
    requires ar.width > 0.0 && ar.height > 0.0 && srcW > 0.0 && srcH > 0.0
    ensures w == h * RatioValue(ar, srcW, srcH) <==> w * srcW * ar.height == h * srcH * ar.width
  {
    var t := RatioValue(ar, srcW, srcH);
    assert t * ar.height == ar.width * (srcH / srcW);
    assert t * ar.height * srcW == ar.width * srcH;
    assert h * t * srcW * ar.height == h * srcH * ar.width;
    if w * srcW * ar.height == h * srcH * ar.width {
      assert (w - h * t) * (srcW * ar.height) == 0.0;
    }
  }

  // ---------------------------------------------------------------------------
  // Stage 1: aspect ratio
  // ---------------------------------------------------------------------------

  const RATIO_TOLERANCE: real := 0.000001

  /** `Math.abs(w / h - target) < 1e-6`; false when `h` is zero, as the quotient is then infinite or NaN. */
  predicate WithinTolerance(w: real, h: real, target: real)
  {
    h != 0.0 && Abs(w / h - target) < RATIO_TOLERANCE
  }

  /** A drag of the top or bottom edge. */
  predicate VerticalEdge(handle: Option<DragHandle>) { handle == Some(N) || handle == Some(S) }

  /** A drag of the left or right edge. */
  predicate HorizontalEdge(handle: Option<DragHandle>) { handle == Some(E) || handle == Some(W) }

  /** Which end of an axis the aspect step keeps in place. */
  datatype Anchor = KeepLow | KeepHigh | KeepCentre

  /**
   * The horizontal anchor: the edge opposite a dragged west or east edge stays,
   * a new selection grows from its first corner, anything else stays centred.
   */
  function AnchorX(handle: Option<DragHandle>): Anchor
  {
    if handle.Some? && handle.value.MovesWest() then KeepHigh
    else if handle.Some? && (handle.value.MovesEast() || handle.value == New) then KeepLow
    else KeepCentre
  }

  /** The vertical anchor, by the same rule as AnchorX with north and south. */
  function AnchorY(handle: Option<DragHandle>): Anchor
  {
    if handle.Some? && handle.value.MovesNorth() then KeepHigh
    else if handle.Some? && (handle.value.MovesSouth() || handle.value == New) then KeepLow
    else KeepCentre
  }

  /** The interval of length `len` placed on the axis [lo, hi] by the anchor. */
  function Place(lo: real, hi: real, len: real, a: Anchor): (r: (real, real))
    ensures r.1 - r.0 == len
    ensures a == KeepLow ==> r.0 == lo
    ensures a == KeepHigh ==> r.1 == hi
    ensures a == KeepCentre ==> r.0 + r.1 == lo + hi
  {
    match a
    case KeepLow => (lo, lo + len)
    case KeepHigh => (hi - len, hi)
    case KeepCentre => ((lo + hi) / 2.0 - len / 2.0, (lo + hi) / 2.0 + len / 2.0)
  }

  /**
   * The (width, height) the aspect step gives a w x h rectangle: an n/s drag
   * holds the height, an e/w drag holds the width, any other gesture shrinks
   * whichever side is too long. The result always has the target ratio.
   */
  function TargetSize(handle: Option<DragHandle>, w: real, h: real, target: real): (r: (real, real))
    requires target != 0.0
    ensures r.0 == r.1 * target
    ensures VerticalEdge(handle) ==> r.1 == h
    ensures HorizontalEdge(handle) ==> r.0 == w
  {
    if VerticalEdge(handle) then (h * target, h)
    else if HorizontalEdge(handle) then (w, w / target)
    else if RatioExceeds(w, h, target) then (h * target, h)
    else (w, w / target)
  }

  /** For corner, move, new or no handle the corrected size fits inside the old one and keeps one side. */
  lemma {:induction false} TargetSizeFitsWithin(handle: Option<DragHandle>, w: real, h: real, target: real)
    requires target > 0.0 && w >= 0.0 && h >= 0.0
    requires !VerticalEdge(handle) && !HorizontalEdge(handle)
    ensures var r := TargetSize(handle, w, h, target);
      0.0 <= r.0 <= w && 0.0 <= r.1 <= h && (r.0 == w || r.1 == h)
  {
    if h == 0.0 {
    } else if RatioExceeds(w, h, target) {
      QuotientAbove(w, h, target);
    } else {
      QuotientAtMost(w, h, target);
    }
  }

  /** w / h > t with h > 0 means h * t < w. */
  lemma QuotientAbove(w: real, h: real, t: real)
    requires h > 0.0 && w / h > t
    ensures h * t < w
  {
    ScaleStrict(t, w / h, h);
  }

  /** w / h <= t with h, t > 0 means w / t <= h. */
  lemma QuotientAtMost(w: real, h: real, t: real)
    requires h > 0.0 && t > 0.0 && w / h <= t
    ensures w / t <= h
  {
    ScaleMonotone(w / h, t, h);
    assert w <= t * h;
  }

  /** Multiplying by a non-negative factor keeps the order. */
  lemma ScaleMonotone(a: real, b: real, c: real)
    requires a <= b && c >= 0.0
    ensures a * c <= b * c
  {
  }

  /** Multiplying by a positive factor keeps the strict order. */
  lemma ScaleStrict(a: real, b: real, c: real)
    requires a < b && c > 0.0
    ensures a * c < b * c
  {
  }

  /** Sides that are not negative stay so under the aspect step's sizing. */
  lemma TargetSizeNonNegative(handle: Option<DragHandle>, w: real, h: real, target: real)
    requires target > 0.0 && w >= 0.0 && h >= 0.0
    ensures var r := TargetSize(handle, w, h, target); r.0 >= 0.0 && r.1 >= 0.0
  {
    if !VerticalEdge(handle) && !HorizontalEdge(handle) {
      TargetSizeFitsWithin(handle, w, h, target);
    }
  }

  /**
   * Specification of the aspect step: nothing without a lock or when the ratio
   * is already within tolerance; otherwise the target size placed by the
   * handle's anchors.
   */
  function AspectCorrected(crop: CropRect, ar: Option<AspectRatio>, srcW: real, srcH: real,
                           handle: Option<DragHandle>): (r: CropRect)
    requires RatioLockUsable(ar, srcW, srcH)
    ensures ar.None? ==> r == crop
    ensures ar.Some? && WithinTolerance(crop.Width(), crop.Height(), RatioValue(ar.value, srcW, srcH)) ==> r == crop
    ensures ar.Some? && !WithinTolerance(crop.Width(), crop.Height(), RatioValue(ar.value, srcW, srcH)) ==>
      HasRatio(r, RatioValue(ar.value, srcW, srcH))
    ensures AnchorX(handle) == KeepLow ==> r.x1 == crop.x1
    ensures AnchorX(handle) == KeepHigh ==> r.x2 == crop.x2
    ensures AnchorX(handle) == KeepCentre ==> r.x1 + r.x2 == crop.x1 + crop.x2
    ensures AnchorY(handle) == KeepLow ==> r.y1 == crop.y1
    ensures AnchorY(handle) == KeepHigh ==> r.y2 == crop.y2
    ensures AnchorY(handle) == KeepCentre ==> r.y1 + r.y2 == crop.y1 + crop.y2
  {
    if ar.None? then crop
    else
      var target := RatioValue(ar.value, srcW, srcH);
      if WithinTolerance(crop.Width(), crop.Height(), target) then crop
      else Resized(crop, handle, target)
  }

  /** The rectangle's width is `target` times its height. */
  predicate HasRatio(r: CropRect, target: real)
  {
    r.Width() == r.Height() * target
  }

  /** The rectangle of ratio `target` the aspect step puts over `crop`: the target size, placed by the anchors. */
  function Resized(crop: CropRect, handle: Option<DragHandle>, target: real): (r: CropRect)
    requires target != 0.0
    ensures HasRatio(r, target)
    ensures AnchorX(handle) == KeepLow ==> r.x1 == crop.x1
    ensures AnchorX(handle) == KeepHigh ==> r.x2 == crop.x2
    ensures AnchorX(handle) == KeepCentre ==> r.x1 + r.x2 == crop.x1 + crop.x2
    ensures AnchorY(handle) == KeepLow ==> r.y1 == crop.y1
    ensures AnchorY(handle) == KeepHigh ==> r.y2 == crop.y2
    ensures AnchorY(handle) == KeepCentre ==> r.y1 + r.y2 == crop.y1 + crop.y2
  {
    var size := TargetSize(handle, crop.Width(), crop.Height(), target);
    Anchored(crop, handle, size.0, size.1)
  }

  /** A rectangle of size newW x newH placed over `crop` by the handle's anchors. */
  function Anchored(crop: CropRect, handle: Option<DragHandle>, newW: real, newH: real): (r: CropRect)
    ensures r.Width() == newW && r.Height() == newH
    ensures AnchorX(handle) == KeepLow ==> r.x1 == crop.x1
    ensures AnchorX(handle) == KeepHigh ==> r.x2 == crop.x2
    ensures AnchorX(handle) == KeepCentre ==> r.x1 + r.x2 == crop.x1 + crop.x2
    ensures AnchorY(handle) == KeepLow ==> r.y1 == crop.y1
    ensures AnchorY(handle) == KeepHigh ==> r.y2 == crop.y2
    ensures AnchorY(handle) == KeepCentre ==> r.y1 + r.y2 == crop.y1 + crop.y2
  {
    var xs := Place(crop.x1, crop.x2, newW, AnchorX(handle));
    var ys := Place(crop.y1, crop.y2, newH, AnchorY(handle));
    CropRect(xs.0, ys.0, xs.1, ys.1)
  }

  /**
   * The aspect step as the handles see it: for corner, move, new or no handle
   * the corrected rectangle fits inside the old one; 'se' and 'new' keep the
   * top-left corner, 'nw' the bottom-right one, 'n' the bottom edge and the
   * horizontal centre, 'move' and no handle the centre; and a well-ordered
   * rectangle stays well-ordered.
   */
  lemma AspectAnchoring(crop: CropRect, ar: AspectRatio, srcW: real, srcH: real, handle: Option<DragHandle>)
    requires RatioLockUsable(Some(ar), srcW, srcH)
    ensures var r := AspectCorrected(crop, Some(ar), srcW, srcH, handle);
      && (crop.WellOrdered() && !VerticalEdge(handle) && !HorizontalEdge(handle) ==>
            r.Width() <= crop.Width() && r.Height() <= crop.Height())
      && (crop.WellOrdered() ==> r.WellOrdered())
      && (handle == Some(SE) || handle == Some(New) ==> r.x1 == crop.x1 && r.y1 == crop.y1)
      && (handle == Some(NW) ==> r.x2 == crop.x2 && r.y2 == crop.y2)
      && (handle == Some(N) ==> r.y2 == crop.y2 && r.x1 + r.x2 == crop.x1 + crop.x2)
      && (handle == Some(Move) || handle.None? ==> r.x1 + r.x2 == crop.x1 + crop.x2 && r.y1 + r.y2 == crop.y1 + crop.y2)
  {
    var target := RatioValue(ar, srcW, srcH);
    if crop.WellOrdered() && !WithinTolerance(crop.Width(), crop.Height(), target) {
      TargetSizeNonNegative(handle, crop.Width(), crop.Height(), target);
      if !VerticalEdge(handle) && !HorizontalEdge(handle) {
        TargetSizeFitsWithin(handle, crop.Width(), crop.Height(), target);
      }
    }
  }

  /** applyAspectRatio, step by step as the source writes it: choose the new size, then anchor it. */
  method ApplyAspectRatio(crop: CropRect, ar: Option<AspectRatio>, srcW: real, srcH: real,
                          handle: Option<DragHandle>) returns (r: CropRect)
    requires RatioLockUsable(ar, srcW, srcH)
    ensures r == AspectCorrected(crop, ar, srcW, srcH, handle)
  {
    if ar.None? {
      return crop;
    }
    var targetRatio := RatioValue(ar.value, srcW, srcH);
    var w := crop.x2 - crop.x1;
    var h := crop.y2 - crop.y1;
    if WithinTolerance(w, h, targetRatio) {
      return crop;
    }

    var newW, newH := ChooseSize(handle, w, h, targetRatio);
    assert AspectCorrected(crop, ar, srcW, srcH, handle) == Resized(crop, handle, targetRatio);
    r := AnchorResized(crop, handle, newW, newH);
  }

  /** The sizing half of applyAspectRatio, one branch per gesture as the source writes it. */
  method ChooseSize(handle: Option<DragHandle>, w: real, h: real, targetRatio: real) returns (newW: real, newH: real)
    requires targetRatio != 0.0
    ensures (newW, newH) == TargetSize(handle, w, h, targetRatio)
  {
    if handle == Some(N) || handle == Some(S) {
      newH := h;
      newW := h * targetRatio;
    } else if handle == Some(E) || handle == Some(W) {
      newW := w;
      newH := w / targetRatio;
    } else if RatioExceeds(w, h, targetRatio) {
      newH := h;
      newW := h * targetRatio;
    } else {
      newW := w;
      newH := w / targetRatio;
    }
  }

  /** The anchoring half of applyAspectRatio, one branch per handle as the source writes it. */
  method AnchorResized(crop: CropRect, handle: Option<DragHandle>, newW: real, newH: real) returns (r: CropRect)
    ensures r == Anchored(crop, handle, newW, newH)
  {
    var cx := (crop.x1 + crop.x2) / 2.0;
    var cy := (crop.y1 + crop.y2) / 2.0;
    var x1: real, y1: real, x2: real, y2: real;
    if handle == Some(NW) {
      x2, y2 := crop.x2, crop.y2;
      x1, y1 := x2 - newW, y2 - newH;
    } else if handle == Some(NE) {
      x1, y2 := crop.x1, crop.y2;
      x2, y1 := x1 + newW, y2 - newH;
    } else if handle == Some(SW) {
      x2, y1 := crop.x2, crop.y1;
      x1, y2 := x2 - newW, y1 + newH;
    } else if handle == Some(SE) || handle == Some(New) {
      x1, y1 := crop.x1, crop.y1;
      x2, y2 := x1 + newW, y1 + newH;
    } else if handle == Some(N) {
      x1, x2 := cx - newW / 2.0, cx + newW / 2.0;
      y1, y2 := crop.y2 - newH, crop.y2;
    } else if handle == Some(S) {
      x1, x2 := cx - newW / 2.0, cx + newW / 2.0;
      y1, y2 := crop.y1, crop.y1 + newH;
    } else if handle == Some(E) {
      x1, x2 := crop.x1, crop.x1 + newW;
      y1, y2 := cy - newH / 2.0, cy + newH / 2.0;
    } else if handle == Some(W) {
      x1, x2 := crop.x2 - newW, crop.x2;
      y1, y2 := cy - newH / 2.0, cy + newH / 2.0;
    } else {
      x1, x2 := cx - newW / 2.0, cx + newW / 2.0;
      y1, y2 := cy - newH / 2.0, cy + newH / 2.0;
    }
    r := CropRect(x1, y1, x2, y2);
  }

  // ---------------------------------------------------------------------------
  // Stage 2a: bounds (crop mode)
  // ---------------------------------------------------------------------------

  /**
   * clampBounds on one axis: cap the length at 1, shift the interval right if it
   * starts below 0, then left if it ends above 1, then clamp both ends to [0, 1].
   */
  function ClampAxis(lo: real, hi: real): (r: (real, real))
    ensures 0.0 <= r.0 <= 1.0 && 0.0 <= r.1 <= 1.0
    ensures lo <= hi && hi - lo <= 1.0 ==> r.0 <= r.1 && r.1 - r.0 == hi - lo
    ensures lo <= hi && hi - lo >= 1.0 ==> r == (0.0, 1.0)
    ensures 0.0 <= lo <= hi <= 1.0 ==> r == (lo, hi)
  {
    var len := Min(hi - lo, 1.0);
    var shifted := if lo < 0.0 then (0.0, len) else (lo, hi);
    var pulled := if shifted.1 > 1.0 then (1.0 - len, 1.0) else shifted;
    (Clamp(pulled.0, 0.0, 1.0), Clamp(pulled.1, 0.0, 1.0))
  }

  /**
   * Specification of clampBounds: each axis clamped independently. Every
   * coordinate ends in [0, 1]; a well-ordered rectangle no larger than the
   * image is translated inside it without changing its size.
   */
  function ClampedToUnit(crop: CropRect): (r: CropRect)
    ensures r.InUnitSquare()
    ensures crop.WellOrdered() ==> r.WellOrdered()
    ensures crop.WellOrdered() && crop.Width() <= 1.0 ==> r.Width() == crop.Width()
    ensures crop.WellOrdered() && crop.Height() <= 1.0 ==> r.Height() == crop.Height()
    ensures crop.WellOrdered() && crop.InUnitSquare() ==> r == crop
  {
    var xs := ClampAxis(crop.x1, crop.x2);
    var ys := ClampAxis(crop.y1, crop.y2);
    CropRect(xs.0, ys.0, xs.1, ys.1)
  }

  /** clampBounds, step by step as the source writes it. */
  method ClampBounds(crop: CropRect) returns (r: CropRect)
    ensures r == ClampedToUnit(crop)
  {
    var x1, y1, x2, y2 := crop.x1, crop.y1, crop.x2, crop.y2;
    var w := x2 - x1;
    var h := y2 - y1;
    var cw := Min(w, 1.0);
    var ch := Min(h, 1.0);
    if x1 < 0.0 { x1 := 0.0; x2 := cw; }
    if y1 < 0.0 { y1 := 0.0; y2 := ch; }
    if x2 > 1.0 { x2 := 1.0; x1 := 1.0 - cw; }
    if y2 > 1.0 { y2 := 1.0; y1 := 1.0 - ch; }
    r := CropRect(Clamp(x1, 0.0, 1.0), Clamp(y1, 0.0, 1.0), Clamp(x2, 0.0, 1.0), Clamp(y2, 0.0, 1.0));
  }

  // ---------------------------------------------------------------------------
  // Stage 2b: padding (crop-pad mode)
  // ---------------------------------------------------------------------------

  /** How far the rectangle reaches past each edge of the image (0 where it does not). */
  function Overflow(crop: CropRect): (p: PadRect)
    ensures p.NonNegative()
  {
    PadRect(Max(0.0, -crop.y1), Max(0.0, crop.x2 - 1.0), Max(0.0, crop.y2 - 1.0), Max(0.0, -crop.x1))
  }

  /** Padding made symmetric: each side takes the larger of itself and its opposite. */
  function Evened(p: PadRect): (r: PadRect)
    ensures r.top == r.bottom && r.left == r.right
    ensures r.top >= p.top && r.bottom >= p.bottom && r.left >= p.left && r.right >= p.right
    ensures (r.top == p.top || r.top == p.bottom) && (r.left == p.left || r.left == p.right)
  {
    var vertical := Max(p.top, p.bottom);
    var horizontal := Max(p.left, p.right);
    PadRect(vertical, horizontal, vertical, horizontal)
  }

  /** Every coordinate clamped to [0, 1]. */
  function ClampedCoordinates(crop: CropRect): (r: CropRect)
    ensures r.InUnitSquare()
    ensures crop.InUnitSquare() ==> r == crop
  {
    CropRect(Clamp(crop.x1, 0.0, 1.0), Clamp(crop.y1, 0.0, 1.0), Clamp(crop.x2, 0.0, 1.0), Clamp(crop.y2, 0.0, 1.0))
  }

  /** Specification of computePadding: overflow becomes padding and the crop is clamped to the image. */
  function PaddedSelection(crop: CropRect, evenPadding: bool): (r: CropSelection)
    ensures r.crop.InUnitSquare() && r.pad.NonNegative()
    ensures r.crop == ClampedCoordinates(crop)
    ensures !evenPadding ==> r.pad == Overflow(crop)
    ensures evenPadding ==> r.pad == Evened(Overflow(crop))
  {
    var overflow := Overflow(crop);
    CropSelection(ClampedCoordinates(crop), if evenPadding then Evened(overflow) else overflow)
  }

  /**
   * Padding is exactly what was cut off: for a well-ordered rectangle that
   * overlaps the image, the clamped crop widened by its (uneven) padding is the
   * raw rectangle, and with even padding it contains the raw rectangle.
   */
  lemma PaddingRestoresRect(crop: CropRect, evenPadding: bool)
    requires crop.WellOrdered()
    requires crop.x1 <= 1.0 && crop.x2 >= 0.0 && crop.y1 <= 1.0 && crop.y2 >= 0.0
    ensures var r := PaddedSelection(crop, evenPadding);
      && (!evenPadding ==>
            r.crop.x1 - r.pad.left == crop.x1 && r.crop.x2 + r.pad.right == crop.x2
            && r.crop.y1 - r.pad.top == crop.y1 && r.crop.y2 + r.pad.bottom == crop.y2)
      && (r.crop.x1 - r.pad.left <= crop.x1 && r.crop.x2 + r.pad.right >= crop.x2
          && r.crop.y1 - r.pad.top <= crop.y1 && r.crop.y2 + r.pad.bottom >= crop.y2)
  {
  }

  /** computePadding, step by step as the source writes it. */
  method ComputePadding(crop: CropRect, evenPadding: bool) returns (r: CropSelection)
    ensures r == PaddedSelection(crop, evenPadding)
  {
    var pad := PadRect(Max(0.0, -crop.y1), Max(0.0, crop.x2 - 1.0), Max(0.0, crop.y2 - 1.0), Max(0.0, -crop.x1));
    var clampedCrop := CropRect(Clamp(crop.x1, 0.0, 1.0), Clamp(crop.y1, 0.0, 1.0),
                                Clamp(crop.x2, 0.0, 1.0), Clamp(crop.y2, 0.0, 1.0));
    if evenPadding {
      var maxH := Max(pad.top, pad.bottom);
      var maxV := Max(pad.left, pad.right);
      pad := PadRect(maxH, maxV, maxH, maxV);
    }
    r := CropSelection(clampedCrop, pad);
  }

  // ---------------------------------------------------------------------------
  // Stage 3: minimum / maximum size
  // ---------------------------------------------------------------------------

  /**
   * One axis of a pixel size as a fraction of the source, or nothing when the
   * size is unset or the source dimensions are not both positive.
   */
  function AxisFraction(size: Option<Size>, horizontal: bool, srcW: real, srcH: real): (r: Option<real>)
    ensures r.Some? <==> size.Some? && srcW > 0.0 && srcH > 0.0
    ensures r.Some? && horizontal ==> r.value * srcW == size.value.width
    ensures r.Some? && !horizontal ==> r.value * srcH == size.value.height
  {
    if size.Some? && srcW > 0.0 && srcH > 0.0 then
      Some(if horizontal then size.value.width / srcW else size.value.height / srcH)
    else None
  }

  /**
   * applyMinMax on one axis: grow to the minimum about the centre, then shrink
   * to the maximum about the centre. The centre never moves; the maximum always
   * holds; the minimum holds unless a smaller maximum overrides it. A grown
   * axis is exactly the minimum long, and one longer than the maximum, before
   * or after growing, is exactly the maximum long.
   */
  function LimitAxis(lo: real, hi: real, minLen: Option<real>, maxLen: Option<real>): (r: (real, real))
    ensures r.0 + r.1 == lo + hi
    ensures maxLen.Some? ==> r.1 - r.0 <= maxLen.value
    ensures minLen.Some? && (maxLen.None? || minLen.value <= maxLen.value) ==> r.1 - r.0 >= minLen.value
    ensures (minLen.None? || hi - lo >= minLen.value) && (maxLen.None? || hi - lo <= maxLen.value) ==> r == (lo, hi)
    ensures minLen.Some? && hi - lo < minLen.value && (maxLen.None? || minLen.value <= maxLen.value) ==>
      r.1 - r.0 == minLen.value
    ensures maxLen.Some? && (hi - lo > maxLen.value || (minLen.Some? && minLen.value > maxLen.value)) ==>
      r.1 - r.0 == maxLen.value
  {
    var grown := if minLen.Some? && hi - lo < minLen.value then Place(lo, hi, minLen.value, KeepCentre) else (lo, hi);
    if maxLen.Some? && grown.1 - grown.0 > maxLen.value then Place(grown.0, grown.1, maxLen.value, KeepCentre)
    else grown
  }

  /** Shrinking about the centre keeps an interval inside [0, 1]; growing never unorders it. */
  lemma LimitAxisInside(lo: real, hi: real, maxLen: Option<real>)
    requires 0.0 <= lo <= 1.0 && 0.0 <= hi <= 1.0
    requires maxLen.Some? ==> maxLen.value >= 0.0
    ensures var r := LimitAxis(lo, hi, None, maxLen);
      0.0 <= r.0 <= 1.0 && 0.0 <= r.1 <= 1.0 && (lo <= hi ==> r.0 <= r.1)
  {
  }

  /** Specification of applyMinMax: both axes limited independently; sizes are pixels over source dimensions. */
  function SizeLimited(crop: CropRect, config: CropConfig): (r: CropRect)
    ensures !(config.sourceWidth > 0.0 && config.sourceHeight > 0.0) ==> r == crop
    ensures r.x1 + r.x2 == crop.x1 + crop.x2 && r.y1 + r.y2 == crop.y1 + crop.y2
  {
    var srcW, srcH := config.sourceWidth, config.sourceHeight;
    var xs := LimitAxis(crop.x1, crop.x2, AxisFraction(config.minSize, true, srcW, srcH),
                        AxisFraction(config.maxSize, true, srcW, srcH));
    var ys := LimitAxis(crop.y1, crop.y2, AxisFraction(config.minSize, false, srcW, srcH),
                        AxisFraction(config.maxSize, false, srcW, srcH));
    CropRect(xs.0, ys.0, xs.1, ys.1)
  }

  /**
   * What applyMinMax guarantees when the source size is known: the width is at
   * least minSize.width / sourceWidth (unless a smaller maximum is also set) and
   * at most maxSize.width / sourceWidth, and likewise for the height, about an
   * unchanged centre. A side that was too short is exactly the minimum, and a
   * side that was too long (or grown past a smaller maximum) exactly the maximum.
   */
  lemma SizeLimits(crop: CropRect, config: CropConfig)
    requires config.sourceWidth > 0.0 && config.sourceHeight > 0.0
    ensures var r := SizeLimited(crop, config);
      var srcW, srcH := config.sourceWidth, config.sourceHeight;
      && (config.minSize.Some? && (config.maxSize.None? || config.minSize.value.width <= config.maxSize.value.width) ==>
            r.Width() >= config.minSize.value.width / srcW)
      && (config.minSize.Some? && (config.maxSize.None? || config.minSize.value.height <= config.maxSize.value.height) ==>
            r.Height() >= config.minSize.value.height / srcH)
      && (config.maxSize.Some? ==>
            r.Width() <= config.maxSize.value.width / srcW && r.Height() <= config.maxSize.value.height / srcH)
      && (config.minSize.Some? && crop.Width() < config.minSize.value.width / srcW &&
          (config.maxSize.None? || config.minSize.value.width <= config.maxSize.value.width) ==>
            r.Width() == config.minSize.value.width / srcW)
      && (config.minSize.Some? && crop.Height() < config.minSize.value.height / srcH &&
          (config.maxSize.None? || config.minSize.value.height <= config.maxSize.value.height) ==>
            r.Height() == config.minSize.value.height / srcH)
      && (config.maxSize.Some? && (crop.Width() > config.maxSize.value.width / srcW ||
          (config.minSize.Some? && config.minSize.value.width > config.maxSize.value.width)) ==>
            r.Width() == config.maxSize.value.width / srcW)
      && (config.maxSize.Some? && (crop.Height() > config.maxSize.value.height / srcH ||
          (config.minSize.Some? && config.minSize.value.height > config.maxSize.value.height)) ==>
            r.Height() == config.maxSize.value.height / srcH)
  {
    var srcW, srcH := config.sourceWidth, config.sourceHeight;
    if config.minSize.Some? && config.maxSize.Some? {
      var mn, mx := config.minSize.value, config.maxSize.value;
      if mn.width <= mx.width {
        assert mn.width / srcW <= mx.width / srcW;
      } else {
        assert mn.width / srcW > mx.width / srcW;
      }
      if mn.height <= mx.height {
        assert mn.height / srcH <= mx.height / srcH;
      } else {
        assert mn.height / srcH > mx.height / srcH;
      }
    }
  }

  /** applyMinMax, step by step as the source writes it. */
  method ApplyMinMax(crop: CropRect, config: CropConfig) returns (r: CropRect)
    ensures r == SizeLimited(crop, config)
  {
    var x1, y1, x2, y2 := crop.x1, crop.y1, crop.x2, crop.y2;
    var w := x2 - x1;
    var h := y2 - y1;

    if config.minSize.Some? && config.sourceWidth > 0.0 && config.sourceHeight > 0.0 {
      var minW := config.minSize.value.width / config.sourceWidth;
      var minH := config.minSize.value.height / config.sourceHeight;
      if w < minW { var cx := (x1 + x2) / 2.0; x1 := cx - minW / 2.0; x2 := cx + minW / 2.0; w := minW; }
      if h < minH { var cy := (y1 + y2) / 2.0; y1 := cy - minH / 2.0; y2 := cy + minH / 2.0; h := minH; }
    }

    if config.maxSize.Some? && config.sourceWidth > 0.0 && config.sourceHeight > 0.0 {
      var maxW := config.maxSize.value.width / config.sourceWidth;
      var maxH := config.maxSize.value.height / config.sourceHeight;
      if w > maxW { var cx := (x1 + x2) / 2.0; x1 := cx - maxW / 2.0; x2 := cx + maxW / 2.0; }
      if h > maxH { var cy := (y1 + y2) / 2.0; y1 := cy - maxH / 2.0; y2 := cy + maxH / 2.0; }
    }

    r := CropRect(x1, y1, x2, y2);
  }

  // ---------------------------------------------------------------------------
  // Stage 4: edge snap; stage 5: rounding
  // ---------------------------------------------------------------------------

  /** applyEdgeSnap: a start edge closer to 0 than the threshold goes to 0, an end edge closer to 1 goes to 1. */
  function EdgeSnapped(crop: CropRect, threshold: real): (r: CropRect)
    ensures (r.x1 == 0.0 && crop.x1 < threshold) || (r.x1 == crop.x1 && crop.x1 >= threshold)
    ensures (r.y1 == 0.0 && crop.y1 < threshold) || (r.y1 == crop.y1 && crop.y1 >= threshold)
    ensures (r.x2 == 1.0 && crop.x2 > 1.0 - threshold) || (r.x2 == crop.x2 && crop.x2 <= 1.0 - threshold)
    ensures (r.y2 == 1.0 && crop.y2 > 1.0 - threshold) || (r.y2 == crop.y2 && crop.y2 <= 1.0 - threshold)
  {
    CropRect(if crop.x1 < threshold then 0.0 else crop.x1,
             if crop.y1 < threshold then 0.0 else crop.y1,
             if crop.x2 > 1.0 - threshold then 1.0 else crop.x2,
             if crop.y2 > 1.0 - threshold then 1.0 else crop.y2)
  }

  /**
   * Snapping a second time changes nothing, and snapping keeps a well-ordered
   * rectangle inside the image well-ordered and inside the image.
   */
  lemma EdgeSnapStable(crop: CropRect, threshold: real)
    requires threshold > 0.0
    ensures EdgeSnapped(EdgeSnapped(crop, threshold), threshold) == EdgeSnapped(crop, threshold)
    ensures crop.WellOrdered() && crop.InUnitSquare() ==>
      EdgeSnapped(crop, threshold).WellOrdered() && EdgeSnapped(crop, threshold).InUnitSquare()
  {
  }

  /** roundSelection: every field through f32. */
  function RoundSelection(sel: CropSelection): CropSelection
  {
    CropSelection(
      CropRect(F32(sel.crop.x1), F32(sel.crop.y1), F32(sel.crop.x2), F32(sel.crop.y2)),
      PadRect(F32(sel.pad.top), F32(sel.pad.right), F32(sel.pad.bottom), F32(sel.pad.left)))
  }

  // ---------------------------------------------------------------------------
  // The pipeline
  // ---------------------------------------------------------------------------

  /** Stage 2 by mode: clamping with zero padding, or overflow turned into padding. */
  function Bounded(crop: CropRect, config: CropConfig): (r: CropSelection)
    ensures r.crop.InUnitSquare() && r.pad.NonNegative()
    ensures config.mode == Crop ==> r == CropSelection(ClampedToUnit(crop), ZERO_PAD)
    ensures config.mode == CropPad ==> r == PaddedSelection(crop, config.evenPadding)
  {
    if config.mode == CropPad then PaddedSelection(crop, config.evenPadding)
    else CropSelection(ClampedToUnit(crop), ZERO_PAD)
  }

  /** Specification of constrain: the five stages in their fixed order. */
  function Constrained(raw: CropRect, config: CropConfig, handle: Option<DragHandle>): (r: CropSelection)
    requires ValidConfig(config)
    ensures config.mode == Crop ==> r.pad == ZERO_PAD
    ensures config.mode == CropPad ==> r.pad.NonNegative()
    ensures config.mode == CropPad ==>
      r.pad == PaddedSelection(AspectCorrected(raw, config.aspectRatio, config.sourceWidth, config.sourceHeight, handle),
                               config.evenPadding).pad
  {
    var corrected := AspectCorrected(raw, config.aspectRatio, config.sourceWidth, config.sourceHeight, handle);
    var bounded := Bounded(corrected, config);
    var sized := SizeLimited(bounded.crop, config);
    var snapped := if config.mode == Crop && config.edgeSnapThreshold > 0.0
                   then EdgeSnapped(sized, config.edgeSnapThreshold) else sized;
    RoundSelection(CropSelection(snapped, bounded.pad))
  }

  /** Maximum sizes, when set, are not negative. */
  predicate MaxSizeNonNegative(config: CropConfig)
  {
    config.maxSize.Some? ==> config.maxSize.value.width >= 0.0 && config.maxSize.value.height >= 0.0
  }

  /** Minimum sizes, when set, are not negative. */
  predicate MinSizeNonNegative(config: CropConfig)
  {
    config.minSize.Some? ==> config.minSize.value.width >= 0.0 && config.minSize.value.height >= 0.0
  }

  /**
   * The pipeline's output bounds. Without a minimum size the crop always
   * comes out inside the image, whatever the raw rectangle. In crop mode a
   * well-ordered raw rectangle comes out well-ordered inside the image when
   * there is no minimum size, or when edge snapping is on.
   */
  lemma ConstrainedInsideImage(raw: CropRect, config: CropConfig, handle: Option<DragHandle>)
    requires ValidConfig(config) && MaxSizeNonNegative(config) && MinSizeNonNegative(config)
    ensures var r := Constrained(raw, config, handle);
      && (config.mode == Crop && raw.WellOrdered() && (config.minSize.None? || config.edgeSnapThreshold > 0.0) ==>
            r.crop.WellOrdered() && r.crop.InUnitSquare())
      && (config.minSize.None? ==> r.crop.InUnitSquare())
  {
    var corrected := AspectCorrected(raw, config.aspectRatio, config.sourceWidth, config.sourceHeight, handle);
    if config.aspectRatio.Some? {
      AspectAnchoring(raw, config.aspectRatio.value, config.sourceWidth, config.sourceHeight, handle);
    }
    var b := Bounded(corrected, config).crop;
    SizeLimitedInside(b, config);
    var sized := SizeLimited(b, config);
    if config.mode == Crop && raw.WellOrdered() && config.edgeSnapThreshold > 0.0 {
      EdgeSnapInside(sized, config.edgeSnapThreshold);
    }
  }

  /**
   * Stage 3 on a crop inside the image: without a minimum it stays inside; a
   * well-ordered crop stays well-ordered and still touches the image.
   */
  lemma SizeLimitedInside(b: CropRect, config: CropConfig)
    requires b.InUnitSquare() && MaxSizeNonNegative(config) && MinSizeNonNegative(config)
    ensures var r := SizeLimited(b, config);
      && (config.minSize.None? ==> r.InUnitSquare())
      && (b.WellOrdered() ==> r.WellOrdered() && r.x1 <= 1.0 && r.x2 >= 0.0 && r.y1 <= 1.0 && r.y2 >= 0.0)
  {
    var srcW, srcH := config.sourceWidth, config.sourceHeight;
    var mnX := AxisFraction(config.minSize, true, srcW, srcH);
    var mnY := AxisFraction(config.minSize, false, srcW, srcH);
    var mxX := AxisFraction(config.maxSize, true, srcW, srcH);
    var mxY := AxisFraction(config.maxSize, false, srcW, srcH);
    AxisFractionNonNegative(config.minSize, srcW, srcH);
    AxisFractionNonNegative(config.maxSize, srcW, srcH);
    var xs := LimitAxis(b.x1, b.x2, mnX, mxX);
    var ys := LimitAxis(b.y1, b.y2, mnY, mxY);
    assert SizeLimited(b, config) == CropRect(xs.0, ys.0, xs.1, ys.1);
    if config.minSize.None? {
      LimitAxisInside(b.x1, b.x2, mxX);
      LimitAxisInside(b.y1, b.y2, mxY);
    }
    if b.WellOrdered() {
      LimitAxisCentreInside(b.x1, b.x2, mnX, mxX);
      LimitAxisCentreInside(b.y1, b.y2, mnY, mxY);
      LimitAxisOrdered(b.x1, b.x2, mnX, mxX);
      LimitAxisOrdered(b.y1, b.y2, mnY, mxY);
    }
  }

  /** A size that is not negative gives fractions that are not negative. */
  lemma AxisFractionNonNegative(size: Option<Size>, srcW: real, srcH: real)
    requires size.Some? ==> size.value.width >= 0.0 && size.value.height >= 0.0
    ensures var x := AxisFraction(size, true, srcW, srcH); x.Some? ==> x.value >= 0.0
    ensures var y := AxisFraction(size, false, srcW, srcH); y.Some? ==> y.value >= 0.0
  {
    if size.Some? && srcW > 0.0 && srcH > 0.0 {
      NonNegativeQuotient(size.value.width, srcW);
      NonNegativeQuotient(size.value.height, srcH);
    }
  }

  /** Snapping a well-ordered crop that touches the image leaves it well-ordered and inside the image. */
  lemma EdgeSnapInside(c: CropRect, threshold: real)
    requires threshold > 0.0 && c.WellOrdered()
    requires c.x1 <= 1.0 && c.x2 >= 0.0 && c.y1 <= 1.0 && c.y2 >= 0.0
    ensures EdgeSnapped(c, threshold).WellOrdered() && EdgeSnapped(c, threshold).InUnitSquare()
  {
  }

  lemma NonNegativeQuotient(a: real, b: real)
    requires a >= 0.0 && b > 0.0
    ensures a / b >= 0.0
  {
  }

  /** Growing and shrinking by non-negative lengths keep an interval ordered. */
  lemma LimitAxisOrdered(lo: real, hi: real, minLen: Option<real>, maxLen: Option<real>)
    requires lo <= hi
    requires minLen.Some? ==> minLen.value >= 0.0
    requires maxLen.Some? ==> maxLen.value >= 0.0
    ensures var r := LimitAxis(lo, hi, minLen, maxLen); r.0 <= r.1
  {
  }

  /** An ordered interval centred inside [0, 1] starts at most at 1 and ends at least at 0. */
  lemma LimitAxisCentreInside(lo: real, hi: real, minLen: Option<real>, maxLen: Option<real>)
    requires 0.0 <= lo <= hi <= 1.0
    requires minLen.Some? ==> minLen.value >= 0.0
    requires maxLen.Some? ==> maxLen.value >= 0.0
    ensures var r := LimitAxis(lo, hi, minLen, maxLen); r.0 <= 1.0 && r.1 >= 0.0
  {
    LimitAxisOrdered(lo, hi, minLen, maxLen);
  }

  /** constrain, stage by stage as the source writes it. */
  method Constrain(raw: CropRect, config: CropConfig, handle: Option<DragHandle>) returns (r: CropSelection)
    requires ValidConfig(config)
    ensures r == Constrained(raw, config, handle)
  {
    var crop := ApplyAspectRatio(raw, config.aspectRatio, config.sourceWidth, config.sourceHeight, handle);
    var pad: PadRect;
    if config.mode == CropPad {
      var result := ComputePadding(crop, config.evenPadding);
      crop := result.crop;
      pad := result.pad;
    } else {
      crop := ClampBounds(crop);
      pad := ZERO_PAD;
    }
    crop := ApplyMinMax(crop, config);
    if config.mode == Crop && config.edgeSnapThreshold > 0.0 {
      crop := EdgeSnapped(crop, config.edgeSnapThreshold);
    }
    r := RoundSelection(CropSelection(crop, pad));
  }

  // ---------------------------------------------------------------------------
  // Rectangle primitives
  // ---------------------------------------------------------------------------

  /** moveCrop: translate all four coordinates; the size is unchanged. */
  function MoveCrop(crop: CropRect, dx: real, dy: real): (r: CropRect)
    ensures r.Width() == crop.Width() && r.Height() == crop.Height()
    ensures r.x1 - crop.x1 == dx && r.y1 - crop.y1 == dy
  {
    CropRect(crop.x1 + dx, crop.y1 + dy, crop.x2 + dx, crop.y2 + dy)
  }

  /**
   * resizeCrop: the delta is added to exactly the coordinates whose edge letter
   * the handle names; 'move' and 'new' change nothing.
   */
  function ResizeCrop(crop: CropRect, handle: DragHandle, dx: real, dy: real): (r: CropRect)
    ensures r.x1 == crop.x1 + (if handle.MovesWest() then dx else 0.0)
    ensures r.x2 == crop.x2 + (if handle.MovesEast() then dx else 0.0)
    ensures r.y1 == crop.y1 + (if handle.MovesNorth() then dy else 0.0)
    ensures r.y2 == crop.y2 + (if handle.MovesSouth() then dy else 0.0)
    ensures handle == Move || handle == New ==> r == crop
  {
    match handle
    case N => crop.(y1 := crop.y1 + dy)
    case S => crop.(y2 := crop.y2 + dy)
    case E => crop.(x2 := crop.x2 + dx)
    case W => crop.(x1 := crop.x1 + dx)
    case NW => crop.(x1 := crop.x1 + dx, y1 := crop.y1 + dy)
    case NE => crop.(y1 := crop.y1 + dy, x2 := crop.x2 + dx)
    case SW => crop.(x1 := crop.x1 + dx, y2 := crop.y2 + dy)
    case SE => crop.(x2 := crop.x2 + dx, y2 := crop.y2 + dy)
    case _ => crop
  }

  /** Resizing by a delta and then by its negation restores the rectangle. */
  lemma ResizeCropUndo(crop: CropRect, handle: DragHandle, dx: real, dy: real)
    ensures ResizeCrop(ResizeCrop(crop, handle, dx, dy), handle, -dx, -dy) == crop
  {
  }

  /**
   * normalizeCrop: the same two x values and the same two y values, put in
   * order; an already ordered rectangle is returned unchanged.
   */
  function NormalizeCrop(crop: CropRect): (r: CropRect)
    ensures r.WellOrdered()
    ensures {r.x1, r.x2} == {crop.x1, crop.x2} && {r.y1, r.y2} == {crop.y1, crop.y2}
    ensures r.Width() == Abs(crop.Width()) && r.Height() == Abs(crop.Height())
    ensures crop.WellOrdered() ==> r == crop
  {
    CropRect(Min(crop.x1, crop.x2), Min(crop.y1, crop.y2), Max(crop.x1, crop.x2), Max(crop.y1, crop.y2))
  }

  /** Normalising twice is normalising once. */
  lemma NormalizeIdempotent(crop: CropRect)
    ensures NormalizeCrop(NormalizeCrop(crop)) == NormalizeCrop(crop)
  {
  }

  // ---------------------------------------------------------------------------
  // Worked examples from the test suite's scenarios
  // ---------------------------------------------------------------------------

  /** An inverted rectangle is swapped into order. */
  lemma NormalizeSwapsInverted()
    ensures NormalizeCrop(CropRect(0.8, 0.9, 0.2, 0.1)) == CropRect(0.2, 0.1, 0.8, 0.9)
  {
  }

  /** A 1000 x 1000 source in crop mode with the default 2% snap. */
  function SquareConfig(): (c: CropConfig)
    ensures ValidConfig(c) && c.mode == Crop && c.edgeSnapThreshold == 0.02
  {
    CropConfig(Crop, None, None, None, None, 0.02, false, 1000.0, 1000.0)
  }

  /** Edges within 2% of the border snap to it. */
  lemma EdgeSnapExample()
    ensures Constrained(CropRect(0.01, 0.01, 0.99, 0.99), SquareConfig(), None).crop == CropRect(0.0, 0.0, 1.0, 1.0)
  {
  }

  /** A 400 px minimum on a 1000 px source grows a 100 px square about its centre (0.45, 0.45). */
  lemma MinSizeExample()
    ensures Constrained(CropRect(0.4, 0.4, 0.5, 0.5), SquareConfig().(minSize := Some(Size(400.0, 400.0))), None).crop
            == CropRect(0.25, 0.25, 0.65, 0.65)
  {
  }

  /** In crop-pad mode, overflow on the left becomes left padding and the crop starts at 0. */
  lemma CropPadExample()
    ensures var r := Constrained(CropRect(-0.1, 0.0, 1.0, 1.0), SquareConfig().(mode := CropPad), None);
      r.crop == CropRect(0.0, 0.0, 1.0, 1.0) && r.pad == PadRect(0.0, 0.0, 0.0, 0.1)
  {
  }

  /**
   * Where the minimum size is applied after clamping, it can push the crop out
   * of the image in crop mode when edge snapping is off: a 400 px minimum on a
   * 100 px square at the corner of a 1000 px source.
   */
  lemma MinSizeCanLeaveImage()
    ensures var r := Constrained(CropRect(0.0, 0.0, 0.1, 0.1),
                                 SquareConfig().(minSize := Some(Size(400.0, 400.0)), edgeSnapThreshold := 0.0), None);
      r.crop == CropRect(-0.15, -0.15, 0.25, 0.25) && !r.crop.InUnitSquare()
  {
  }
}
