/**
 * The two module-level helpers of the crop element: the frame-resize step for a
 * handle drag in container pixels, and the snap to a common aspect ratio while
 * the frame is resized freely.
 */
module CropImage {
  import opened Wrappers
  import opened Numeric
  import opened Types
  import opened Constraints
  import opened ViewportMath

  /** The smallest frame side, in container pixels, the element allows while resizing. */
  const MIN_FRAME_PX: real := 40.0

  /** A snap target: a width:height ratio and its label. */
  datatype Snap = Snap(ratio: real, labelText: string)

  /** The common aspect ratios, in the order they are tried. */
  const SNAP_RATIOS: seq<Snap> := [
    Snap(1.0, "1 : 1"),
    Snap(5.0 / 4.0, "5 : 4"),
    Snap(4.0 / 3.0, "4 : 3"),
    Snap(3.0 / 2.0, "3 : 2"),
    Snap(16.0 / 9.0, "16 : 9"),
    Snap(4.0 / 5.0, "4 : 5"),
    Snap(3.0 / 4.0, "3 : 4"),
    Snap(2.0 / 3.0, "2 : 3"),
    Snap(9.0 / 16.0, "9 : 16")
  ]

  /** The candidates findSnapRatio searches: the common ratios, then the image's own ratio as 'Original'. */
  function SnapCandidates(imageAR: real): (c: seq<Snap>)
    ensures |c| == 10 && c[..9] == SNAP_RATIOS && c[9] == Snap(imageAR, "Original")
  {
    SNAP_RATIOS + [Snap(imageAR, "Original")]
  }

  /** `Math.abs(ar - v) / v`, the distance of `ar` from `v` relative to `v`. */
  function RelativeDistance(ar: real, v: real): real
    requires v != 0.0
  {
    Abs(ar - v) / v
  }

  /**
   * `Math.abs(ar - v) / v < bound`. A zero candidate gives an infinite or NaN
   * distance, which is never below a bound.
   */
  predicate Within(ar: real, v: real, bound: real)
  {
    v != 0.0 && RelativeDistance(ar, v) < bound
  }

  /**
   * Candidate k is the snap target: it is within the threshold, every earlier
   * candidate within the threshold is strictly farther (the earlier one wins a
   * tie), and no later candidate is closer.
   */
  predicate IsSnapChoice(ar: real, c: seq<Snap>, threshold: real, k: int)
  {
    && 0 <= k < |c|
    && Within(ar, c[k].ratio, threshold)
    && (forall j :: 0 <= j < k && Within(ar, c[j].ratio, threshold) ==>
          RelativeDistance(ar, c[j].ratio) > RelativeDistance(ar, c[k].ratio))
    && (forall j :: k < j < |c| && Within(ar, c[j].ratio, threshold) ==>
          RelativeDistance(ar, c[j].ratio) >= RelativeDistance(ar, c[k].ratio))
  }

  /** At most one candidate is the snap target, so the characterisation pins the result down. */
  lemma SnapChoiceUnique(ar: real, c: seq<Snap>, threshold: real, k1: int, k2: int)
    requires IsSnapChoice(ar, c, threshold, k1) && IsSnapChoice(ar, c, threshold, k2)
    ensures k1 == k2
  {
  }

  /**
   * findSnapRatio: nothing for a threshold that is not positive; otherwise the
   * candidate nearest to `ar` in relative distance, if any is within the
   * threshold, the earliest one winning a tie.
   */
  method FindSnapRatio(ar: real, imageAR: real, threshold: real) returns (r: Option<Snap>)
    ensures threshold <= 0.0 ==> r.None?
    ensures threshold > 0.0 && r.None? ==>
      forall j :: 0 <= j < |SnapCandidates(imageAR)| ==> !Within(ar, SnapCandidates(imageAR)[j].ratio, threshold)
    ensures r.Some? ==> Within(ar, r.value.ratio, threshold)
    ensures r.Some? ==> exists k :: IsSnapChoice(ar, SnapCandidates(imageAR), threshold, k) && r.value == SnapCandidates(imageAR)[k]
  {
    if threshold <= 0.0 {
      return None;
    }
    r := NearestSnap(ar, SnapCandidates(imageAR), threshold);
  }

  /** The loop of findSnapRatio: the candidate nearest to `ar` within the threshold, the earliest one winning a tie. */
  method NearestSnap(ar: real, candidates: seq<Snap>, threshold: real) returns (r: Option<Snap>)
    ensures r.None? ==> forall j :: 0 <= j < |candidates| ==> !Within(ar, candidates[j].ratio, threshold)
    ensures r.Some? ==> Within(ar, r.value.ratio, threshold)
    ensures r.Some? ==> exists k :: IsSnapChoice(ar, candidates, threshold, k) && r.value == candidates[k]
  {
    var best: Option<Snap> := None;
    var bestDist := threshold;
    ghost var k := 0;
    var i := 0;
    while i < |candidates|
      invariant 0 <= i <= |candidates|
      invariant best.None? ==> bestDist == threshold
      invariant best.None? ==> forall j :: 0 <= j < i ==> !Within(ar, candidates[j].ratio, threshold)
      invariant best.Some? ==> 0 <= k < i && best.value == candidates[k]
      invariant best.Some? ==> Within(ar, candidates[k].ratio, threshold)
      invariant best.Some? ==> bestDist == RelativeDistance(ar, candidates[k].ratio)
      invariant best.Some? ==> forall j :: 0 <= j < k && Within(ar, candidates[j].ratio, threshold) ==>
        RelativeDistance(ar, candidates[j].ratio) > bestDist
      invariant best.Some? ==> forall j :: k < j < i && Within(ar, candidates[j].ratio, threshold) ==>
        RelativeDistance(ar, candidates[j].ratio) >= bestDist
    {
      var c := candidates[i];
      if c.ratio != 0.0 {
        var dist := RelativeDistance(ar, c.ratio);
        if dist < bestDist {
          best := Some(Snap(c.ratio, c.labelText));
          bestDist := dist;
          k := i;
        }
      }
      i := i + 1;
    }
    assert best.Some? ==> IsSnapChoice(ar, candidates, threshold, k);
    return best;
  }

  // ---------------------------------------------------------------------------
  // Frame resize
  // ---------------------------------------------------------------------------

  /** The eight resize handles of the frame: a drag handle other than 'move' and 'new'. */
  type HandleName = h: DragHandle | h != Move && h != New witness N

  /** The frame as its four edges, in container pixels. */
  datatype Edges = Edges(x1: real, y1: real, x2: real, y2: real) {
    function Width(): real { x2 - x1 }
    function Height(): real { y2 - y1 }
  }

  /** The edges of a frame rectangle. */
  function EdgesOf(f: FrameRect): (e: Edges)
    ensures e.x1 == f.x && e.y1 == f.y && e.Width() == f.w && e.Height() == f.h
  {
    Edges(f.x, f.y, f.x + f.w, f.y + f.h)
  }

  /** The first step: each edge whose letter the handle's name contains moves to the pointer; the others stay. */
  function DraggedEdges(handle: HandleName, mouseX: real, mouseY: real, orig: FrameRect): (e: Edges)
    ensures handle.MovesNorth() ==> e.y1 == mouseY
    ensures handle.MovesSouth() ==> e.y2 == mouseY
    ensures handle.MovesWest() ==> e.x1 == mouseX
    ensures handle.MovesEast() ==> e.x2 == mouseX
    ensures !handle.MovesNorth() ==> e.y1 == orig.y
    ensures !handle.MovesSouth() ==> e.y2 == orig.y + orig.h
    ensures !handle.MovesWest() ==> e.x1 == orig.x
    ensures !handle.MovesEast() ==> e.x2 == orig.x + orig.w
  {
    var o := EdgesOf(orig);
    Edges(if handle.MovesWest() then mouseX else o.x1,
          if handle.MovesNorth() then mouseY else o.y1,
          if handle.MovesEast() then mouseX else o.x2,
          if handle.MovesSouth() then mouseY else o.y2)
  }

  /**
   * The second step: a side shorter than `minSize` is lengthened to exactly
   * `minSize` by moving the dragged edge, so the opposite edge stays put (x2 for
   * a west handle, y2 for a north one, otherwise x1 and y1). A side that is
   * long enough is left alone.
   */
  function MinSizeEnforced(handle: HandleName, e: Edges, minSize: real): (r: Edges)
    ensures r.Width() >= minSize && r.Height() >= minSize
    ensures e.Width() >= minSize ==> r.x1 == e.x1 && r.x2 == e.x2
    ensures e.Height() >= minSize ==> r.y1 == e.y1 && r.y2 == e.y2
    ensures e.Width() < minSize ==> r.Width() == minSize
    ensures e.Height() < minSize ==> r.Height() == minSize
    ensures handle.MovesWest() ==> r.x2 == e.x2
    ensures !handle.MovesWest() ==> r.x1 == e.x1
    ensures handle.MovesNorth() ==> r.y2 == e.y2
    ensures !handle.MovesNorth() ==> r.y1 == e.y1
  {
    var xs := if e.Width() >= minSize then (e.x1, e.x2)
              else if handle.MovesWest() then (e.x2 - minSize, e.x2)
              else (e.x1, e.x1 + minSize);
    var ys := if e.Height() >= minSize then (e.y1, e.y2)
              else if handle.MovesNorth() then (e.y2 - minSize, e.y2)
              else (e.y1, e.y1 + minSize);
    Edges(xs.0, ys.0, xs.1, ys.1)
  }

  /** A corner handle: one whose name has two letters. */
  predicate IsCorner(handle: HandleName)
  {
    handle == NE || handle == NW || handle == SE || handle == SW
  }

  /** The frame's width is `ar` times its height. */
  predicate HasRatio(e: Edges, ar: real)
  {
    e.Width() == e.Height() * ar
  }

  /**
   * The third step, with a locked ratio: an 'n'/'s' drag sets the width to
   * height times the ratio about the horizontal centre; an 'e'/'w' drag sets the
   * height to width over the ratio about the vertical centre; a corner drag
   * shortens the side that is too long, keeping the corner opposite the handle.
   * In every case the result has the locked ratio. Without a lock nothing changes.
   */
  function RatioLocked(handle: HandleName, e: Edges, lockedAR: Option<real>): (r: Edges)
    requires lockedAR.Some? ==> lockedAR.value != 0.0
    ensures lockedAR.None? ==> r == e
    ensures lockedAR.Some? ==> HasRatio(r, lockedAR.value)
    ensures lockedAR.Some? && (handle == N || handle == S) ==>
      r.y1 == e.y1 && r.y2 == e.y2 && r.x1 + r.x2 == e.x1 + e.x2
    ensures lockedAR.Some? && (handle == E || handle == W) ==>
      r.x1 == e.x1 && r.x2 == e.x2 && r.y1 + r.y2 == e.y1 + e.y2
    ensures lockedAR.Some? && IsCorner(handle) ==>
      (if handle.MovesWest() then r.x2 == e.x2 else r.x1 == e.x1)
      && (if handle.MovesNorth() then r.y2 == e.y2 else r.y1 == e.y1)
      && (r.Width(), r.Height()) == TargetSize(Some(handle), e.Width(), e.Height(), lockedAR.value)
  {
    if lockedAR.None? then e
    else if handle == N || handle == S then WidthLocked(e, lockedAR.value)
    else if handle == E || handle == W then HeightLocked(e, lockedAR.value)
    else CornerLocked(handle, e, lockedAR.value)
  }

  /** An 'n'/'s' drag under a lock: the width becomes height times the ratio, about the same centre. */
  function WidthLocked(e: Edges, ar: real): (r: Edges)
    ensures HasRatio(r, ar)
    ensures r.y1 == e.y1 && r.y2 == e.y2 && r.x1 + r.x2 == e.x1 + e.x2
  {
    var xs := Place(e.x1, e.x2, e.Height() * ar, KeepCentre);
    Edges(xs.0, e.y1, xs.1, e.y2)
  }

  /** An 'e'/'w' drag under a lock: the height becomes width over the ratio, about the same centre. */
  function HeightLocked(e: Edges, ar: real): (r: Edges)
    requires ar != 0.0
    ensures HasRatio(r, ar)
    ensures r.x1 == e.x1 && r.x2 == e.x2 && r.y1 + r.y2 == e.y1 + e.y2
  {
    var ys := Place(e.y1, e.y2, e.Width() / ar, KeepCentre);
    Edges(e.x1, ys.0, e.x2, ys.1)
  }

  /** A corner drag under a lock: the aspect step's target size, placed against the corner opposite the handle. */
  function CornerLocked(handle: HandleName, e: Edges, ar: real): (r: Edges)
    requires ar != 0.0
    ensures HasRatio(r, ar)
    ensures (if handle.MovesWest() then r.x2 == e.x2 else r.x1 == e.x1)
      && (if handle.MovesNorth() then r.y2 == e.y2 else r.y1 == e.y1)
    ensures (r.Width(), r.Height()) == TargetSize(Some(handle), e.Width(), e.Height(), ar)
  {
    var size := TargetSize(Some(handle), e.Width(), e.Height(), ar);
    var xs := Place(e.x1, e.x2, size.0, if handle.MovesWest() then KeepHigh else KeepLow);
    var ys := Place(e.y1, e.y2, size.1, if handle.MovesNorth() then KeepHigh else KeepLow);
    Edges(xs.0, ys.0, xs.1, ys.1)
  }

  /**
   * A corner drag under a positive locked ratio only ever shortens a side: the
   * locked frame fits inside the frame the pointer spans and keeps one of its sides.
   */
  lemma CornerLockShortens(handle: HandleName, e: Edges, ar: real)
    requires IsCorner(handle) && ar > 0.0 && e.Width() >= 0.0 && e.Height() >= 0.0
    ensures var r := RatioLocked(handle, e, Some(ar));
      0.0 <= r.Width() <= e.Width() && 0.0 <= r.Height() <= e.Height()
      && (r.Width() == e.Width() || r.Height() == e.Height())
  {
    TargetSizeFitsWithin(Some(handle), e.Width(), e.Height(), ar);
  }

  /**
   * The last step: the left and top edges are pushed to at least 0, the right and
   * bottom edges to at most the container size, and each side is reported as at
   * least `minSize`. A frame already inside the container with both sides at
   * least `minSize` is returned as it is.
   */
  function ContainerClamped(e: Edges, minSize: real, containerW: real, containerH: real): (r: FrameRect)
    ensures r.x >= 0.0 && r.y >= 0.0
    ensures r.w >= minSize && r.h >= minSize
    ensures e.x1 >= 0.0 ==> r.x == e.x1
    ensures e.y1 >= 0.0 ==> r.y == e.y1
    ensures 0.0 <= e.x1 && e.x2 <= containerW && e.Width() >= minSize ==> r.x == e.x1 && r.w == e.Width()
    ensures 0.0 <= e.y1 && e.y2 <= containerH && e.Height() >= minSize ==> r.y == e.y1 && r.h == e.Height()
  {
    var x1 := Max(0.0, e.x1);
    var y1 := Max(0.0, e.y1);
    var x2 := Min(containerW, e.x2);
    var y2 := Min(containerH, e.y2);
    FrameRect(x1, y1, Max(minSize, x2 - x1), Max(minSize, y2 - y1))
  }

  /** computeResizedFrame as the composition of its four steps. */
  function ResizedFrame(handle: HandleName, mouseX: real, mouseY: real, orig: FrameRect,
                        lockedAR: Option<real>, minSize: real, containerW: real, containerH: real): (r: FrameRect)
    requires lockedAR.Some? ==> lockedAR.value != 0.0
    ensures r.w >= minSize && r.h >= minSize
    ensures r.x >= 0.0 && r.y >= 0.0
  {
    var moved := DraggedEdges(handle, mouseX, mouseY, orig);
    var sized := MinSizeEnforced(handle, moved, minSize);
    var locked := RatioLocked(handle, sized, lockedAR);
    ContainerClamped(locked, minSize, containerW, containerH)
  }

  /**
   * computeResizedFrame, step by step as the source writes it: move the dragged
   * edges, enforce the minimum size, fix up a locked ratio, clamp to the container.
   */
  method ComputeResizedFrame(handle: HandleName, mouseX: real, mouseY: real, orig: FrameRect,
                             lockedAR: Option<real>, minSize: real, containerW: real, containerH: real)
    returns (r: FrameRect)
    requires lockedAR.Some? ==> lockedAR.value != 0.0
    ensures r == ResizedFrame(handle, mouseX, mouseY, orig, lockedAR, minSize, containerW, containerH)
    ensures r.w >= minSize && r.h >= minSize
    ensures r.x >= 0.0 && r.y >= 0.0
  {
    var moved := MoveEdges(handle, mouseX, mouseY, orig);
    var sized := EnforceMinSize(handle, moved, minSize);
    var locked := sized;
    if lockedAR.Some? {
      locked := LockRatio(handle, sized, lockedAR.value);
    }
    var x1 := Max(0.0, locked.x1);
    var y1 := Max(0.0, locked.y1);
    var x2 := Min(containerW, locked.x2);
    var y2 := Min(containerH, locked.y2);
    r := FrameRect(x1, y1, Max(minSize, x2 - x1), Max(minSize, y2 - y1));
  }

  /** The edge-moving step of computeResizedFrame: one test per letter of the handle's name. */
  method MoveEdges(handle: HandleName, mouseX: real, mouseY: real, orig: FrameRect) returns (e: Edges)
    ensures e == DraggedEdges(handle, mouseX, mouseY, orig)
  {
    var x1 := orig.x;
    var y1 := orig.y;
    var x2 := orig.x + orig.w;
    var y2 := orig.y + orig.h;
    if handle.MovesNorth() { y1 := mouseY; }
    if handle.MovesSouth() { y2 := mouseY; }
    if handle.MovesWest() { x1 := mouseX; }
    if handle.MovesEast() { x2 := mouseX; }
    e := Edges(x1, y1, x2, y2);
  }

  /** The minimum-size step of computeResizedFrame, one axis after the other. */
  method EnforceMinSize(handle: HandleName, e: Edges, minSize: real) returns (r: Edges)
    ensures r == MinSizeEnforced(handle, e, minSize)
  {
    var x1, y1, x2, y2 := e.x1, e.y1, e.x2, e.y2;
    if x2 - x1 < minSize {
      if handle.MovesWest() { x1 := x2 - minSize; } else { x2 := x1 + minSize; }
    }
    if y2 - y1 < minSize {
      if handle.MovesNorth() { y1 := y2 - minSize; } else { y2 := y1 + minSize; }
    }
    r := Edges(x1, y1, x2, y2);
  }

  /** The locked-ratio step of computeResizedFrame, branch by branch as the source writes it. */
  method LockRatio(handle: HandleName, e: Edges, ar: real) returns (r: Edges)
    requires ar != 0.0
    ensures r == RatioLocked(handle, e, Some(ar))
  {
    var x1, y1, x2, y2 := e.x1, e.y1, e.x2, e.y2;
    if handle == N || handle == S {
      var newW := (y2 - y1) * ar;
      var cx := (x1 + x2) / 2.0;
      r := Edges(cx - newW / 2.0, y1, cx + newW / 2.0, y2);
      assert newW == e.Height() * ar;
      assert Place(x1, x2, newW, KeepCentre) == (cx - newW / 2.0, cx + newW / 2.0);
      assert r == WidthLocked(e, ar);
    } else if handle == E || handle == W {
      var newH := (x2 - x1) / ar;
      var cy := (y1 + y2) / 2.0;
      r := Edges(x1, cy - newH / 2.0, x2, cy + newH / 2.0);
      assert newH == e.Width() / ar;
      assert Place(y1, y2, newH, KeepCentre) == (cy - newH / 2.0, cy + newH / 2.0);
      assert r == HeightLocked(e, ar);
    } else {
      r := LockCorner(handle, e, ar);
    }
  }

  /** The corner branch of the locked-ratio step: shorten the side that makes the frame too wide or too tall. */
  method LockCorner(handle: HandleName, e: Edges, ar: real) returns (r: Edges)
    requires IsCorner(handle) && ar != 0.0
    ensures r == CornerLocked(handle, e, ar)
  {
    var x1, y1, x2, y2 := e.x1, e.y1, e.x2, e.y2;
    var w := x2 - x1;
    var h := y2 - y1;
    assert !VerticalEdge(Some(handle)) && !HorizontalEdge(Some(handle));
    if RatioExceeds(w, h, ar) {
      var newW := h * ar;
      assert TargetSize(Some(handle), w, h, ar) == (newW, h);
      if handle.MovesWest() { x1 := x2 - newW; } else { x2 := x1 + newW; }
    } else {
      var newH := w / ar;
      assert TargetSize(Some(handle), w, h, ar) == (w, newH);
      if handle.MovesNorth() { y1 := y2 - newH; } else { y2 := y1 + newH; }
    }
    r := Edges(x1, y1, x2, y2);
  }

  /**
   * Without a ratio lock, a drag whose handle has no 'w' keeps the frame's left
   * edge and one with no 'n' keeps its top edge, as long as the frame starts at
   * non-negative coordinates.
   */
  lemma UnlockedDragKeepsFixedEdges(handle: HandleName, mouseX: real, mouseY: real, orig: FrameRect,
                                    minSize: real, containerW: real, containerH: real)
    requires orig.x >= 0.0 && orig.y >= 0.0
    ensures var r := ResizedFrame(handle, mouseX, mouseY, orig, None, minSize, containerW, containerH);
      (!handle.MovesWest() ==> r.x == orig.x) && (!handle.MovesNorth() ==> r.y == orig.y)
  {
  }

  /**
   * A south-east drag of the frame (100, 100, 200 x 100) to (400, 250) in a
   * 1000 x 1000 container gives (100, 100, 300 x 150) when no ratio is locked.
   */
  lemma SouthEastResizeExample()
    ensures ResizedFrame(SE, 400.0, 250.0, FrameRect(100.0, 100.0, 200.0, 100.0), None, MIN_FRAME_PX, 1000.0, 1000.0)
      == FrameRect(100.0, 100.0, 300.0, 150.0)
  {
    assert DraggedEdges(SE, 400.0, 250.0, FrameRect(100.0, 100.0, 200.0, 100.0)) == Edges(100.0, 100.0, 400.0, 250.0);
  }

  /** The same drag under a 1:1 lock: the too-long width is shortened, giving (100, 100, 150 x 150). */
  lemma SouthEastLockedResizeExample()
    ensures ResizedFrame(SE, 400.0, 250.0, FrameRect(100.0, 100.0, 200.0, 100.0), Some(1.0), MIN_FRAME_PX, 1000.0, 1000.0)
      == FrameRect(100.0, 100.0, 150.0, 150.0)
  {
    var moved := Edges(100.0, 100.0, 400.0, 250.0);
    SouthEastStages();
    SouthEastLockStage();
    assert ContainerClamped(Edges(100.0, 100.0, 250.0, 250.0), MIN_FRAME_PX, 1000.0, 1000.0)
      == FrameRect(100.0, 100.0, 150.0, 150.0);
  }

  /** The south-east drag to (400, 250) moves the right and bottom edges, already long enough. */
  lemma SouthEastStages()
    ensures DraggedEdges(SE, 400.0, 250.0, FrameRect(100.0, 100.0, 200.0, 100.0)) == Edges(100.0, 100.0, 400.0, 250.0)
    ensures MinSizeEnforced(SE, Edges(100.0, 100.0, 400.0, 250.0), MIN_FRAME_PX) == Edges(100.0, 100.0, 400.0, 250.0)
  {
  }

  /** A 300 x 150 corner drag under a 1:1 lock keeps the height and shortens the width. */
  lemma SouthEastLockStage()
    ensures RatioLocked(SE, Edges(100.0, 100.0, 400.0, 250.0), Some(1.0)) == Edges(100.0, 100.0, 250.0, 250.0)
  {
    var e := Edges(100.0, 100.0, 400.0, 250.0);
    assert e.Width() == 300.0 && e.Height() == 150.0;
    assert RatioExceeds(300.0, 150.0, 1.0);
    assert TargetSize(Some(SE), 300.0, 150.0, 1.0) == (150.0, 150.0);
    var r := CornerLocked(SE, e, 1.0);
    assert r.x1 == 100.0 && r.y1 == 100.0 && r.Width() == 150.0 && r.Height() == 150.0;
  }

  /** A west drag past the right edge is stopped at the minimum size, keeping the right edge. */
  lemma WestDragMinSizeExample()
    ensures ResizedFrame(W, 500.0, 0.0, FrameRect(100.0, 100.0, 200.0, 100.0), None, MIN_FRAME_PX, 1000.0, 1000.0)
      == FrameRect(260.0, 100.0, 40.0, 100.0)
  {
    WestDragStages();
    assert RatioLocked(W, Edges(260.0, 100.0, 300.0, 200.0), None) == Edges(260.0, 100.0, 300.0, 200.0);
    assert ContainerClamped(Edges(260.0, 100.0, 300.0, 200.0), MIN_FRAME_PX, 1000.0, 1000.0)
      == FrameRect(260.0, 100.0, 40.0, 100.0);
  }

  /** The west drag to x = 500 crosses the right edge at 300; the minimum size puts the left edge at 260. */
  lemma WestDragStages()
    ensures DraggedEdges(W, 500.0, 0.0, FrameRect(100.0, 100.0, 200.0, 100.0)) == Edges(500.0, 100.0, 300.0, 200.0)
    ensures MinSizeEnforced(W, Edges(500.0, 100.0, 300.0, 200.0), MIN_FRAME_PX) == Edges(260.0, 100.0, 300.0, 200.0)
  {
    var w: HandleName := W;
    assert w.MovesWest() && !w.MovesEast() && !w.MovesNorth() && !w.MovesSouth();
    WestDragMinSize();
  }

  /** A 40-pixel minimum on a frame whose left edge is past its right edge at 300 puts the left edge at 260. */
  lemma WestDragMinSize()
    ensures MinSizeEnforced(W, Edges(500.0, 100.0, 300.0, 200.0), MIN_FRAME_PX) == Edges(260.0, 100.0, 300.0, 200.0)
  {
    var e := Edges(500.0, 100.0, 300.0, 200.0);
    assert e.Width() == -200.0 && e.Height() == 100.0;
    var r := MinSizeEnforced(W, e, MIN_FRAME_PX);
    assert r.x2 == 300.0 && r.Width() == 40.0 && r.y1 == 100.0 && r.y2 == 200.0;
  }
}
