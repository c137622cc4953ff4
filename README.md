# cropimage geometry and RIAPI serialisation, in Dafny

This project models the part of the `cropimage` crop widget that is pure logic. Every coordinate is a `real`, and the layout follows the program's own modules:

- **Constraints** (`constraints.dfy`): the constraint pipeline `constrain`, in its fixed order of stages:
  - aspect-ratio correction, anchored by the drag handle;
  - either clamping to the unit square (crop mode) or turning overflow into padding (crop-pad mode);
  - minimum and maximum size, in source pixels;
  - edge snapping (crop mode only);
  - f32 rounding.

  It also holds the rectangle primitives `moveCrop`, `resizeCrop` and `normalizeCrop`. Each stage that the program writes step by step is a `method`, proved equal to a closed-form function. The properties are proved about those functions.
- **State** (`state.dfy`): the immutable interaction reducer `cropReducer` over its six actions.
- **ViewportMath** (`viewport_math.dfy`):
  - the (zoom, pan) viewport to crop-rectangle conversions, in both directions;
  - the viewport clamp;
  - the cover image transform;
  - the centred frame rectangle;
  - the maximum zoom;
  - zoom-toward-a-point.
- **CropImage** (`crop_image.dfy`): the two module-level helpers of the custom element:
  - `findSnapRatio`, a minimum search over the nine common ratios plus the image's own ratio;
  - `computeResizedFrame`, which moves the dragged edges, then enforces the minimum size, then fixes a locked ratio, then clamps to the container.
- **Querystring**, **Text** (`querystring.dfy`, `text.dfy`): `buildQuerystring` and `parseQuerystring`. A `Record<string, string>` is an ordered sequence of key/value pairs with unique keys. `String.split` and `Array.join` are `Split` and `Join`.
- **Riapi**, **GenericAdapter**, **ImageflowAdapter**, **ImageResizerAdapter** (`riapi_common.dfy` and the three `*_adapter.dfy`): the three RIAPI adapters.
  - They write a crop selection as `crop=x1,y1,x2,y2&cropxunits=1&cropyunits=1`.
  - Imageflow adds padding as `s.pad`; ImageResizer adds it as `margin`. Either is four whole source-pixel counts, top,right,bottom,left.
  - They read the parameters back, giving `null` (here `None`) on a missing or malformed crop.
  - What the two padding adapters share lives once in `Riapi`, parameterised by the padding key.
- **Types**, **Numeric**, **Wrappers**: the records of `types.ts`, their defaults, and `min`/`max`/`clamp`. `Option` stands for the `| null` fields.

Number printing (`${x}`) and reading (`Number(s)`) form a parameter, `NumberText`. Percent-encoding and decoding (`encodeURIComponent` and `decodeURIComponent`, section 2.1 of RFC 3986) form a parameter too, `UriCodec`.

A round trip assumes, of the number text, only facts about the numbers it prints:
- `ReadsBack(n, x)`: the printed form of each such number reads back as that number and holds no `,`;
  - `CropReadsBack` asks this of the crop's four coordinates;
  - `PadReadsBack` asks it of the four whole-pixel padding counts;
- `"1"` reads as 1.

JavaScript's own `${x}` and `Number(s)` meet this for every finite double. `GenericAdapter.HalvesText` is a small number text that meets it for the crop (0.5, 0, 1, 1).

The round trips assume `FaithfulCodec` of the codec:
- decoding an encoding gives it back;
- an encoding holds no `&` or `=`, and is empty only for the empty string.

## Model

| member | source | states |
|---|---|---|
| Numeric.Clamp | packages/core/src/constraints.ts:10-12 | the result lies in [lo, hi] when lo ≤ hi, and is the value itself when the value is already in range |
| Types.DefaultConfig | packages/core/src/types.ts:62-74 | crop mode, no aspect ratio or ratio list, no min/max size, snap threshold 0.02, no even padding, source size 0×0; the config is valid |
| Types.DefaultSelection | packages/core/src/types.ts:76-78 | the crop is (0.1,0.1,0.9,0.9), well ordered and inside the unit square; the pad is ZERO_PAD, all four sides 0 |
| Types.DefaultState | packages/core/src/types.ts:80-87 | the default selection with all three drag fields null, so the drag fields are consistent |
| Constraints.RatioValue | packages/core/src/constraints.ts:15-20 | the target ratio is positive when both ratio sides and both source sides are positive |
| Constraints.RatioValueIsPixelRatio | packages/core/src/constraints.ts:15-20 | a rect of fractional size w×h has the target ratio exactly when w·srcW : h·srcH equals ar.width : ar.height, i.e. the ratio holds in source pixels |
| Constraints.Place | packages/core/src/constraints.ts:67-98 | the placed interval has the requested length and keeps its low end, its high end or its centre, as the anchor says |
| Constraints.TargetSize | packages/core/src/constraints.ts:42-65 | the new size has the target ratio; an 'n'/'s' drag keeps the height and an 'e'/'w' drag keeps the width |
| Constraints.TargetSizeFitsWithin | packages/core/src/constraints.ts:54-65 | for corner, move, new or no handle, the new size fits inside the old one and keeps one of its sides |
| Constraints.TargetSizeNonNegative | packages/core/src/constraints.ts:42-65 | a non-negative size stays non-negative under a positive target ratio |
| Constraints.AspectCorrected | packages/core/src/constraints.ts:23-101 | no ratio: unchanged; a ratio within 1e-6: unchanged; otherwise the result has the target ratio; in every case the result keeps the edges or centre that the handle's anchor names |
| Constraints.Resized | packages/core/src/constraints.ts:42-100 | the corrected rectangle has the target ratio and keeps the anchored edges or centres on both axes |
| Constraints.Anchored | packages/core/src/constraints.ts:67-100 | the rectangle has the new width and height and keeps, per axis, the low edge, the high edge or the centre chosen by the handle |
| Constraints.AspectAnchoring | packages/core/src/constraints.ts:55-98 | corner/move/new/none shrink within the old size; a well-ordered rect stays well ordered; 'se'/'new' keep (x1,y1); 'nw' keeps (x2,y2); 'n' keeps y2 and the horizontal centre; move/none keep the centre |
| Constraints.ApplyAspectRatio | packages/core/src/constraints.ts:23-101 | the step-by-step aspect stage computes exactly AspectCorrected |
| Constraints.ChooseSize | packages/core/src/constraints.ts:42-65 | the handle-dependent size choice computes exactly TargetSize |
| Constraints.AnchorResized | packages/core/src/constraints.ts:67-100 | the anchoring chain over the handle computes exactly Anchored |
| Constraints.ClampAxis | packages/core/src/constraints.ts:104-120 | both ends end in [0,1]; an ordered interval no longer than 1 keeps its length; one at least 1 long becomes [0,1]; an interval already inside is unchanged |
| Constraints.ClampedToUnit | packages/core/src/constraints.ts:104-120 | the result is inside the unit square, keeps the order, keeps a width or height of at most 1, and leaves a rect that is already inside unchanged |
| Constraints.ClampBounds | packages/core/src/constraints.ts:104-120 | the step-by-step shifting and clamping computes exactly ClampedToUnit |
| Constraints.Overflow | packages/core/src/constraints.ts:124-129 | every pad side, the overflow past its edge, is non-negative |
| Constraints.Evened | packages/core/src/constraints.ts:138-142 | top equals bottom and left equals right, each the larger of the pair |
| Constraints.ClampedCoordinates | packages/core/src/constraints.ts:131-136 | every coordinate is clamped into [0,1]; a rect already inside is unchanged |
| Constraints.PaddedSelection | packages/core/src/constraints.ts:123-145 | the crop is clamped into the unit square and the pad is the overflow, made even when evenPadding is set; all pads are non-negative |
| Constraints.PaddingRestoresRect | packages/core/src/constraints.ts:123-145 | without even padding, crop plus pad gives back the original rect exactly; with it, crop plus pad covers the original rect |
| Constraints.ComputePadding | packages/core/src/constraints.ts:123-145 | the step-by-step padding stage computes exactly PaddedSelection |
| Constraints.AxisFraction | packages/core/src/constraints.ts:156-158 | a size limit is in force only when it is set and both source sides are positive; it is the pixel size divided by the source side |
| Constraints.AxisFractionNonNegative | packages/core/src/constraints.ts:156-165 | a non-negative pixel limit gives a non-negative fractional limit |
| Constraints.LimitAxis | packages/core/src/constraints.ts:159-167 | the interval keeps its centre; it is no longer than the maximum, no shorter than the minimum when min ≤ max, and unchanged when already within both; one shorter than the minimum comes out exactly the minimum long (min ≤ max), and one longer than the maximum, or grown past a smaller maximum, exactly the maximum long |
| Constraints.LimitAxisInside | packages/core/src/constraints.ts:163-167 | shrinking an interval inside [0,1] about its centre keeps it inside and ordered |
| Constraints.LimitAxisOrdered | packages/core/src/constraints.ts:156-168 | an ordered interval stays ordered under non-negative limits |
| Constraints.LimitAxisCentreInside | packages/core/src/constraints.ts:156-168 | an interval inside [0,1] keeps its low end at most 1 and its high end at least 0 |
| Constraints.SizeLimited | packages/core/src/constraints.ts:148-171 | nothing changes unless both source sides are positive; the centre is always kept |
| Constraints.SizeLimits | packages/core/src/constraints.ts:156-168 | with positive source sides, the width and height are at least the minimum (when min ≤ max) and at most the maximum, in source-fraction units; a side shorter than minSize/source side becomes exactly that (min ≤ max), and a side longer than maxSize/source side, or grown past it, becomes exactly maxSize/source side |
| Constraints.ApplyMinMax | packages/core/src/constraints.ts:148-171 | the step-by-step min/max stage computes exactly SizeLimited |
| Constraints.SizeLimitedInside | packages/core/src/constraints.ts:148-171 | with no minimum, a rect inside the unit square stays inside; a well-ordered one stays ordered and keeps touching the square |
| Constraints.EdgeSnapped | packages/core/src/constraints.ts:174-182 | each edge snaps to 0 or 1 exactly when it is within the threshold of it, and is otherwise unchanged |
| Constraints.EdgeSnapStable | packages/core/src/constraints.ts:174-182 | snapping twice is snapping once, and a well-ordered rect in the unit square stays so |
| Constraints.EdgeSnapInside | packages/core/src/constraints.ts:174-182 | a well-ordered rect that touches the unit square snaps to a well-ordered rect inside it |
| Constraints.Bounded | packages/core/src/constraints.ts:214-223 | crop mode clamps the crop and gives ZERO_PAD; crop-pad mode gives PaddedSelection; either way the crop is inside and the pad non-negative |
| Constraints.Constrained | packages/core/src/constraints.ts:206-235 | crop mode: the pad is exactly zero; crop-pad mode: the pad is the non-negative overflow of the ratio-corrected rect |
| Constraints.ConstrainedInsideImage | packages/core/src/constraints.ts:206-235 | with no minimum size the crop is inside the unit square in either mode, for any raw rectangle; in crop mode a well-ordered input also gives a well-ordered crop inside the unit square when snapping is on, minimum or not |
| Constraints.Constrain | packages/core/src/constraints.ts:206-235 | the stage-by-stage pipeline computes exactly Constrained |
| Constraints.MoveCrop | packages/core/src/constraints.ts:241-248 | the rect is translated by (dx, dy), so its width and height are kept |
| Constraints.ResizeCrop | packages/core/src/constraints.ts:254-273 | only the edges the handle names move, by dx or dy; 'move' and 'new' leave the rect unchanged |
| Constraints.ResizeCropUndo | packages/core/src/constraints.ts:254-273 | resizing by (-dx, -dy) with the same handle undoes a resize |
| Constraints.NormalizeCrop | packages/core/src/constraints.ts:278-285 | the result is well ordered, has the same coordinate pairs and the absolute width and height, and a well-ordered rect is unchanged |
| Constraints.NormalizeIdempotent | packages/core/src/constraints.ts:278-285 | normalizing twice is normalizing once |
| Constraints.NormalizeSwapsInverted | packages/core/__tests__/constraints.test.ts:26-32 | (.8,.9,.2,.1) normalizes to (.2,.1,.8,.9) |
| Constraints.SquareConfig | packages/core/__tests__/constraints.test.ts:69-75 | the test configuration is valid, in crop mode, with snap threshold 0.02 |
| Constraints.EdgeSnapExample | packages/core/__tests__/constraints.test.ts:82-89 | (.01,.01,.99,.99) with threshold .02 constrains to (0,0,1,1) |
| Constraints.MinSizeExample | packages/core/__tests__/constraints.test.ts:110-120 | a 400×400 minimum on a 1000×1000 source widens (.4,.4,.5,.5) to (.25,.25,.65,.65), centred on (.45,.45) |
| Constraints.CropPadExample | packages/core/__tests__/constraints.test.ts:144-148 | in crop-pad mode (-.1,0,1,1) becomes crop (0,0,1,1) with left pad .1 |
| Constraints.MinSizeCanLeaveImage | packages/core/src/constraints.ts:220-226 | with snapping off, a minimum size applied after clamping can push a crop-mode crop outside the unit square |
| State.DragRect | packages/core/src/state.ts:39-58 | 'move' translates the start crop by the pointer delta; 'new' normalizes start point and pointer; other handles normalize the resized start crop; the rect is well ordered unless the handle is 'move' and the start crop is not (moveCrop does not normalize) |
| State.Reduce | packages/core/src/state.ts:17-95 | each action changes exactly the fields the source sets. A move with no drag in progress is a no-op; a move under a drag constrains the dragged rect. A new selection starts a zero-area drag; reset gives the default state. Drag-field consistency is kept |
| State.ReduceAllKeepsDragFields | packages/core/src/state.ts:22-93 | every sequence of actions keeps the three drag fields all null or all set |
| State.DragMoveForgetsPreviousMove | packages/core/src/state.ts:34-66 | a drag move depends only on the drag start, so a later move overrides an earlier one and repeating a move changes nothing |
| State.DragMoveStaysInImage | packages/core/src/state.ts:34-66 | in crop mode, with non-negative minimum and maximum sizes and either no minimum size or edge snapping on, a drag move yields a well-ordered crop inside the unit square with zero padding, provided a 'move' drag started from a well-ordered crop |
| State.SouthEastDragScenario | packages/core/src/state.ts:26-74 | starting an 'se' drag at (.9,.9) on (.2,.2,.8,.8) and moving to (1,1) gives (.2,.2,.9,.9); ending the drag keeps it and clears the drag fields |
| State.SouthEastDragRect | packages/core/src/state.ts:55-58 | the 'se' drag of that scenario produces the rect (.2,.2,.9,.9) before constraints |
| State.SouthEastPipeline | packages/core/src/constraints.ts:206-235 | under the default config (.2,.2,.9,.9) passes the pipeline unchanged with zero padding |
| State.NewSelectionScenario | packages/core/__tests__/state.test.ts:63-73 | a new selection started at (.3,.4) and dragged to (.1,.2) becomes the normalized rect (.1,.2,.3,.4) |
| ViewportMath.VisibleSize | packages/ui/src/viewport-math.ts:47-59 | the constraining side is 1/zoom, the sides keep the frame's ratio in image space, and at zoom ≥ 1 both lie in (0,1] |
| ViewportMath.ViewportToCropRect | packages/ui/src/viewport-math.ts:42-70 | the rect is centred at (0.5+panX, 0.5+panY), has the frame ratio, its constraining side is 1/zoom, and at zoom ≥ 1 it is well ordered with sides in (0,1] |
| ViewportMath.CropRectToViewport | packages/ui/src/viewport-math.ts:77-103 | pan is the rect centre minus 0.5; zoom is at least 1 and at least each side's implied zoom, and equals 1 or one of them |
| ViewportMath.ViewportRoundTrip | packages/ui/src/viewport-math.ts:42-103 | for positive ratios and zoom ≥ 1, converting a viewport to a rect and back gives the same viewport |
| ViewportMath.ClampViewport | packages/ui/src/viewport-math.ts:111-142 | the zoom is at least 1 and at most maxZoom when maxZoom ≥ 1, and unchanged when in range. In crop-pad mode the pan is untouched. In crop mode the pan is within the allowed range, and unchanged when already inside it |
| ViewportMath.ClampedViewportInsideImage | packages/ui/src/viewport-math.ts:121-139 | in crop mode the rect of a clamped viewport is well ordered and inside the unit square |
| ViewportMath.ClampViewportIdempotent | packages/ui/src/viewport-math.ts:111-142 | clamping a clamped viewport changes nothing |
| ViewportMath.CoverScale | packages/ui/src/viewport-math.ts:158-164 | the cover scale is positive, the scaled image covers the frame on both axes, and it fits one axis exactly |
| ViewportMath.CoverWide | packages/ui/src/viewport-math.ts:162-163 | a wider image scaled to the frame height overflows the frame width |
| ViewportMath.CoverTall | packages/ui/src/viewport-math.ts:162-164 | a taller image scaled to the frame width overflows the frame height |
| ViewportMath.ComputeImageTransform | packages/ui/src/viewport-math.ts:152-181 | scale = cover scale × zoom, and image fraction (0.5+panX, 0.5+panY) lands exactly at the frame centre |
| ViewportMath.VisibleRegionFillsFrame | packages/ui/src/viewport-math.ts:42-70 | the edges of the viewport's crop rect land exactly on the frame's edges under the image transform |
| ViewportMath.HorizontalEdgesLand | packages/ui/src/viewport-math.ts:152-181 | the rect's left and right edges land on the frame's left and right edges |
| ViewportMath.VerticalEdgesLand | packages/ui/src/viewport-math.ts:152-181 | the rect's top and bottom edges land on the frame's top and bottom edges |
| ViewportMath.VisibleSpan | packages/ui/src/viewport-math.ts:51-59 | the visible fraction of each side, scaled, spans the frame exactly |
| ViewportMath.ComputeFrameRect | packages/ui/src/viewport-math.ts:189-218 | with no ratio or an empty container, the whole container. Otherwise a centred rect with w/h = frameAR, 80% of the constraining side, inside the container when the ratio is positive |
| ViewportMath.FrameFits | packages/ui/src/viewport-math.ts:202-210 | the 80% frame's other side fits in the container |
| ViewportMath.GetMaxZoom | packages/ui/src/viewport-math.ts:224-227 | at least 1; exactly 1 for non-positive image sides; otherwise max(1, min(w,h)/minCropPx) |
| ViewportMath.DefaultMaxZoomExample | packages/ui/src/viewport-math.ts:224-227 | with the default minCropPx of 50, a 1000×800 image zooms to at most 16, and a 40-pixel-wide image not at all |
| ViewportMath.ViewportToSelection | packages/ui/src/viewport-math.ts:233-241 | crop mode gives zero padding and, from zoom ≥ 1, a well-ordered crop inside the unit square; crop-pad mode gives non-negative padding |
| ViewportMath.EffectiveFrameAR | packages/ui/src/viewport-math.ts:247-262 | a circle gives 1; a rect gives the configured ratio width/height, or none in free mode |
| ViewportMath.ResolveFrameAR | packages/ui/src/viewport-math.ts:268-276 | a given ratio is kept; otherwise the container ratio, or 1 for a zero-height container |
| ViewportMath.FractionUnder | packages/ui/src/viewport-math.ts:293-294 | the image fraction under a pixel is the one that lands at that pixel |
| ViewportMath.ZoomToward | packages/ui/src/viewport-math.ts:282-327 | the zoom becomes newZoom, and the image point under the pointer before the zoom is under the same pixel after it, on both axes |
| ViewportMath.ZoomAxis | packages/ui/src/viewport-math.ts:307-320 | the new centre fraction puts the fraction under the pointer back under the pointer at the new scale |
| CropImage.SnapCandidates | packages/ui/src/crop-image.ts:904-907 | the nine common ratios in table order, then the image ratio labelled 'Original' |
| CropImage.SnapChoiceUnique | packages/ui/src/crop-image.ts:909-918 | at most one candidate is the snap choice: the nearest within the threshold, the earliest on a tie |
| CropImage.FindSnapRatio | packages/ui/src/crop-image.ts:897-921 | none for a threshold ≤ 0. Otherwise none exactly when no candidate is within the threshold, and a result is the nearest candidate within it, the earliest on a tie |
| CropImage.NearestSnap | packages/ui/src/crop-image.ts:909-920 | the search loop returns none only when no candidate is within the threshold, and otherwise the unique snap choice |
| CropImage.EdgesOf | packages/ui/src/crop-image.ts:937-940 | the frame as its four edges |
| CropImage.DraggedEdges | packages/ui/src/crop-image.ts:942-946 | exactly the edges whose letter is in the handle move to the pointer; the others stay |
| CropImage.MinSizeEnforced | packages/ui/src/crop-image.ts:948-956 | both sides are at least minSize; a short side grows to exactly minSize, keeping x2 for 'w' handles, y2 for 'n' handles and x1/y1 otherwise; a long enough side is unchanged |
| CropImage.RatioLocked | packages/ui/src/crop-image.ts:958-988 | no lock: unchanged. A lock gives the locked ratio: 'n'/'s' keep the height and horizontal centre, 'e'/'w' keep the width and vertical centre, and corners keep the corner opposite the handle |
| CropImage.WidthLocked | packages/ui/src/crop-image.ts:963-968 | the width becomes height × ratio about the horizontal centre |
| CropImage.HeightLocked | packages/ui/src/crop-image.ts:969-974 | the height becomes width / ratio about the vertical centre |
| CropImage.CornerLocked | packages/ui/src/crop-image.ts:975-986 | the corner opposite the handle is kept and the size is the ratio-corrected one |
| CropImage.CornerLockShortens | packages/ui/src/crop-image.ts:975-986 | a corner lock only shortens the too-long side and keeps the other |
| CropImage.ContainerClamped | packages/ui/src/crop-image.ts:990-1001 | x, y ≥ 0 and w, h ≥ minSize; a frame already inside the container and large enough is unchanged |
| CropImage.ResizedFrame | packages/ui/src/crop-image.ts:927-1002 | the resized frame always has w, h ≥ minSize and x, y ≥ 0 |
| CropImage.ComputeResizedFrame | packages/ui/src/crop-image.ts:927-1002 | the staged computation equals ResizedFrame, so w, h ≥ minSize and x, y ≥ 0 |
| CropImage.MoveEdges | packages/ui/src/crop-image.ts:937-946 | the edge-moving stage computes exactly DraggedEdges |
| CropImage.EnforceMinSize | packages/ui/src/crop-image.ts:948-956 | the minimum-size stage computes exactly MinSizeEnforced |
| CropImage.LockRatio | packages/ui/src/crop-image.ts:958-988 | the ratio-lock stage computes exactly RatioLocked |
| CropImage.LockCorner | packages/ui/src/crop-image.ts:975-986 | the corner branch computes exactly CornerLocked |
| CropImage.UnlockedDragKeepsFixedEdges | packages/ui/src/crop-image.ts:937-946 | without a lock, on a frame at non-negative x, y, a drag that does not move the west (north) edge keeps x (y) |
| CropImage.SouthEastResizeExample | packages/ui/src/crop-image.ts:927-1002 | an 'se' drag of (100,100,200×100) to (400,250) gives (100,100,300×150) |
| CropImage.SouthEastLockedResizeExample | packages/ui/src/crop-image.ts:975-986 | the same drag with a 1:1 lock gives (100,100,150×150) |
| CropImage.SouthEastStages | packages/ui/src/crop-image.ts:942-956 | the first two stages of that drag give edges (100,100,400,250) |
| CropImage.SouthEastLockStage | packages/ui/src/crop-image.ts:975-986 | the 1:1 lock shortens those edges to (100,100,250,250) |
| CropImage.WestDragMinSizeExample | packages/ui/src/crop-image.ts:948-952 | a 'w' drag past the east edge gives the minimum width of 40 against x2 = 300 |
| CropImage.WestDragStages | packages/ui/src/crop-image.ts:942-952 | the stages of that drag give edges (500,100,300,200), then (260,100,300,200) |
| CropImage.WestDragMinSize | packages/ui/src/crop-image.ts:949-951 | a too-narrow frame under a 'w' drag grows west from x2 |
| Text.Split | packages/core/src/adapters/generic.ts:29 | at least one field, and no field holds the separator; text without it is one field |
| Text.Join | packages/core/src/adapters/types.ts:19 | one part joins to itself and no parts to the empty text |
| Text.SplitJoin | packages/core/src/adapters/types.ts:19-27 | splitting joined parts that hold no separator gives the parts back |
| Text.SplitPrefix | packages/core/src/adapters/types.ts:27 | text before the first separator is the first field |
| Text.JoinSplit | packages/core/src/adapters/types.ts:27-28 | joining the fields of a split gives the text back |
| Text.JoinHasSeparator | packages/core/src/adapters/types.ts:19 | two or more parts join with the separator between them |
| Text.JoinFree | packages/core/src/adapters/types.ts:19 | a character in no part, other than the separator, is not in the join |
| Text.Filter | packages/core/src/adapters/types.ts:17 | the kept elements are exactly those satisfying the test |
| Text.FilterAll | packages/core/src/adapters/types.ts:17 | filtering keeps everything when every element passes |
| Querystring.Get | packages/core/src/adapters/generic.ts:26 | a lookup is none exactly when no entry has the key, and otherwise an entry's value |
| Querystring.GetEntry | packages/core/src/adapters/types.ts:3-6 | in a record with unique keys, a stored entry is what a lookup finds |
| Querystring.Put | packages/core/src/adapters/imageflow.ts:30 | after the assignment the key reads back as the value; a new key is appended at the end |
| Querystring.PutUnique | packages/core/src/adapters/imageflow.ts:30 | assignment keeps the keys unique |
| Querystring.PutOther | packages/core/src/adapters/imageflow.ts:30 | assignment leaves every other key's value unchanged |
| Querystring.EncodedEntries | packages/core/src/adapters/types.ts:19 | one `k=v` part per entry, in entry order |
| Querystring.BuildQuerystring | packages/core/src/adapters/types.ts:16-20 | '' exactly when every value is ''; otherwise '?' then the encoded non-empty entries joined by '&' |
| Querystring.PartKeyValue | packages/core/src/adapters/types.ts:28 | key and value hold no '='; a part without '=' has value '' |
| Querystring.SecondEqualsDropsRest | packages/core/src/adapters/types.ts:28 | text after a second '=' is dropped |
| Querystring.PairKeyValue | packages/core/src/adapters/types.ts:28 | `k=v` splits into k and v |
| Querystring.ParsePart | packages/core/src/adapters/types.ts:28-29 | a part with an empty key is skipped. Otherwise it fails exactly when decoding fails, and sets the decoded key to the decoded value, later duplicates overwriting, except that a decoded key `__proto__` leaves the record unchanged (the plain object's prototype setter ignores a string). Keys stay unique |
| Querystring.ParseParts | packages/core/src/adapters/types.ts:27-30 | a parsed record has unique keys |
| Querystring.ParseFailureSticks | packages/core/src/adapters/types.ts:27-30 | once a part fails to decode, the whole parse fails |
| Querystring.ParsedQuery | packages/core/src/adapters/types.ts:23-32 | '' and '?' parse to the empty record, and a parsed record has unique keys |
| Querystring.ParseQuerystring | packages/core/src/adapters/types.ts:23-32 | the loop over the '&' parts computes exactly ParsedQuery |
| Querystring.FilterKeptSplit | packages/core/src/adapters/types.ts:17-29 | dropping empty values, then empty keys, keeps exactly the entries with both |
| Querystring.FilterUnique | packages/core/src/adapters/types.ts:17 | filtering keeps keys unique |
| Querystring.EncodedPartsRoundTrip | packages/core/src/adapters/types.ts:19-30 | parsing the encoded parts of entries with non-empty values gives back those with non-empty keys |
| Querystring.EncodedPartsStep | packages/core/src/adapters/types.ts:27-30 | parsing one more part extends the parse of the earlier parts |
| Querystring.FreshKey | packages/core/src/adapters/types.ts:17 | in a unique-key record the last key is absent from the earlier entries |
| Querystring.LastPartRoundTrip | packages/core/src/adapters/types.ts:19-29 | an encoded entry parses back to its own assignment, or is skipped for an empty key or the key `__proto__` |
| Querystring.QuerystringRoundTrip | packages/core/__tests__/adapters.test.ts:14-21 | parsing a built query string gives back every entry with a non-empty value and a non-empty key other than `__proto__`, in order |
| Querystring.ProtoKeyDropped | packages/core/src/adapters/types.ts:24-29 | a query string whose one key decodes to `__proto__` parses to the empty record |
| Querystring.EmptyQuerystring | packages/core/__tests__/adapters.test.ts:23-26 | an empty record builds to '' and '' parses to the empty record |
| Riapi.RoundHalfUp | packages/core/src/adapters/imageflow.ts:26-29 | Math.round: the integer within a half of x, a half rounding up |
| Riapi.Shown | packages/core/src/adapters/imageflow.ts:30 | one printed field per number |
| Riapi.FieldNumbers | packages/core/src/adapters/generic.ts:29-30 | none exactly when some field is NaN; otherwise the numbers field by field |
| Riapi.FieldNumbersOf | packages/core/src/adapters/generic.ts:29 | fields that read as given numbers read as that list |
| Riapi.NumbersRoundTrip | packages/core/src/adapters/generic.ts:18-30 | reading comma-joined printed numbers gives the numbers back, when each of them reads back |
| Riapi.FourFields | packages/core/src/adapters/generic.ts:29-30 | a value exactly when the text splits into four numeric fields |
| Riapi.NonEmpty | packages/core/src/adapters/generic.ts:26-27 | a value exactly when the key is present with non-empty text |
| Riapi.CropFields | packages/core/src/adapters/generic.ts:26-30 | four numbers exactly when `crop` is present, non-empty and four numeric fields |
| Riapi.Units | packages/core/src/adapters/generic.ts:32-33 | a missing or empty unit reads as '1', otherwise its own text |
| Riapi.CropFromFields | packages/core/src/adapters/generic.ts:35-43 | x fields divided by the x unit and y fields by the y unit |
| Riapi.ReadCrop | packages/core/src/adapters/generic.ts:25-43 | a crop exactly when the crop fields are valid |
| Riapi.CropParams | packages/core/src/adapters/generic.ts:16-21 | three unique keys: crop = the four coordinates, cropxunits = cropyunits = '1', all non-empty |
| Riapi.CropParamsRoundTrip | packages/core/__tests__/adapters.test.ts:44-50 | reading a record that holds the written crop parameters gives the crop exactly, when the crop's coordinates read back |
| Riapi.PadPixels | packages/core/src/adapters/imageflow.ts:26-29 | four pixel fields, top, right, bottom, left (their values are stated by RoundedPadPixels and PadRoundTrip) |
| Riapi.PadFromFields | packages/core/src/adapters/imageflow.ts:53-58 | top and bottom divided by the source height, right and left by the source width |
| Riapi.ReadPad | packages/core/src/adapters/imageflow.ts:48-60 | zero unless the padding key is non-empty, both source sides are positive and there are four numeric fields; then the fields over the source sides |
| Riapi.PaddedRecord | packages/core/src/adapters/imageflow.ts:14-30 | unique keys; the crop parameters; the padding key holds the rounded pixel text exactly when some side is padded |
| Riapi.ToPaddedParams | packages/core/src/adapters/imageflow.ts:14-34 | the step-by-step toParams gives the record with its query string; the padding key is present exactly when some side is positive |
| Riapi.PaddedSelection | packages/core/src/adapters/imageflow.ts:36-71 | none exactly when the crop fields are invalid; otherwise the crop over its units and the padding as ReadPad reads it |
| Riapi.FromPaddedParams | packages/core/src/adapters/imageflow.ts:36-71 | the step-by-step fromParams computes exactly PaddedSelection |
| Riapi.RoundedPad | packages/core/src/adapters/imageflow.ts:26-29 | each side is within half a source pixel of the original |
| Riapi.RoundedFraction | packages/core/src/adapters/imageflow.ts:26-29 | a fraction rounded to whole pixels is within half a pixel |
| Riapi.PixelsWithinHalf | packages/core/src/adapters/imageflow.ts:26-29 | rounding a fraction's pixels and dividing back moves it by at most half a pixel |
| Riapi.RoundedPadPixels | packages/core/src/adapters/imageflow.ts:26-58 | the pixels written, read back over the source size, are the rounded padding |
| Riapi.PadRoundTrip | packages/core/src/adapters/imageflow.ts:26-60 | reading a written padding value gives the padding rounded to whole pixels, when its pixel counts read back |
| Riapi.PaddedRoundTrip | packages/core/__tests__/adapters.test.ts:81-91 | reading the written record gives the crop exactly and the padding rounded to whole pixels, or zero when no side was padded, when the printed crop and pixel counts read back |
| Riapi.ParamsThroughUrl | packages/core/src/adapters/types.ts:16-32 | a record of non-empty keys and values, none of them `__proto__`, survives the query string unchanged |
| Riapi.CropTextNotEmpty | packages/core/src/adapters/generic.ts:18 | the crop text is never empty |
| Riapi.PaddedRecordFilled | packages/core/src/adapters/imageflow.ts:16-30 | every key and value of the written record is non-empty, and no key is `__proto__` |
| Riapi.PaddedUrlRoundTrip | packages/core/src/adapters/imageflow.ts:14-71 | through the URL and back: the record survives the query string and reads back as the crop with rounded padding, when the printed numbers read back |
| GenericAdapter.ToParams | packages/core/src/adapters/generic.ts:15-23 | exactly crop, cropxunits = '1' and cropyunits = '1', with their query string; the source size plays no part |
| GenericAdapter.FromParams | packages/core/src/adapters/generic.ts:25-46 | none exactly when the crop fields are invalid; otherwise the crop over its units with zero padding |
| GenericAdapter.RoundTrip | packages/core/__tests__/adapters.test.ts:44-50 | reading back the written record gives the crop exactly, with zero padding, when the crop's coordinates read back |
| GenericAdapter.UrlRoundTrip | packages/core/__tests__/adapters.test.ts:36-50 | the written query string parses back to the record, and the record reads as the crop |
| GenericAdapter.HalvesReadBack | packages/core/src/adapters/generic.ts:18-30 | a number text printing and reading 0, 0.5 and 1 meets the round trip's hypothesis for the crop (0.5, 0, 1, 1) |
| GenericAdapter.RightHalfRoundTrip | packages/core/__tests__/adapters.test.ts:44-50 | with that number text the crop (0.5, 0, 1, 1) reads back exactly, with zero padding |
| GenericAdapter.MissingCropExample | packages/core/__tests__/adapters.test.ts:64-66 | without `crop` there is no selection |
| GenericAdapter.PixelCropSplit | packages/core/__tests__/adapters.test.ts:52-62 | "100,200,800,900" splits into its four fields |
| GenericAdapter.PixelCropFields | packages/core/__tests__/adapters.test.ts:52-62 | those fields read as 100, 200, 800, 900 |
| GenericAdapter.PixelParams | packages/core/__tests__/adapters.test.ts:52-62 | the pixel record has those crop fields and units of 1000 |
| GenericAdapter.PixelUnitsExample | packages/core/__tests__/adapters.test.ts:52-62 | pixel units of 1000 turn "100,200,800,900" into (.1,.2,.8,.9) |
| ImageflowAdapter.ToParams | packages/core/src/adapters/imageflow.ts:14-34 | the shared padded record under `s.pad`; `s.pad` is present exactly when some side is padded |
| ImageflowAdapter.FromParams | packages/core/src/adapters/imageflow.ts:36-71 | the shared reading with `s.pad`; none exactly when the crop fields are invalid |
| ImageflowAdapter.RoundTrip | packages/core/__tests__/adapters.test.ts:81-91 | through the URL and back, the crop exactly and the padding in whole pixels, when the printed numbers read back |
| ImageflowAdapter.PadPixelsExample | packages/core/__tests__/adapters.test.ts:72-79 | 0.1 on every side of 1000×800 writes `s.pad` = "80,100,80,100" |
| ImageflowAdapter.PadTextExample | packages/core/src/adapters/imageflow.ts:30 | 80, 100, 80, 100 print as "80,100,80,100" |
| ImageflowAdapter.WholePixelPaddingExample | packages/core/__tests__/adapters.test.ts:81-91 | padding that is whole pixels reads back exactly, when 0, 1, 100 and 200 read back |
| ImageResizerAdapter.ToParams | packages/core/src/adapters/imageresizer.ts:14-33 | the shared padded record under `margin`; `margin` is present exactly when some side is padded |
| ImageResizerAdapter.FromParams | packages/core/src/adapters/imageresizer.ts:35-70 | the shared reading with `margin`; none exactly when the crop fields are invalid |
| ImageResizerAdapter.RoundTrip | packages/core/src/adapters/imageresizer.ts:14-70 | through the URL and back, the crop exactly and the margin in whole pixels, when the printed numbers read back |
| ImageResizerAdapter.MarginExample | packages/core/__tests__/adapters.test.ts:97-104 | 0.05 on every side of 1000×1000 writes `margin` = "50,50,50,50" |
| ImageResizerAdapter.MarginTextExample | packages/core/src/adapters/imageresizer.ts:29 | four 50s print as "50,50,50,50" |
| ImageResizerAdapter.NoMarginExample | packages/core/__tests__/adapters.test.ts:106-113 | no padding writes no `margin`, and the record reads back to the selection, when 0.1 and 0.9 read back |

## Left out

- F32: `Math.fround` is the identity. Coordinates are exact reals, so every equality the tests check within a tolerance is stated exactly.
- Number printing and reading (`${x}`, `Number(s)`) form a parameter, `NumberText`. Percent-encoding forms one too, `UriCodec`. The round trips assume only that the numbers they print read back (`ReadsBack`), that `"1"` reads as 1, and `FaithfulCodec`. How `Number('')` or `Number(' 1 ')` read is left to the parameter.
- `decodeURIComponent` throws on malformed text. Here a decode failure makes the whole parse `None`.
- Riapi.UnitsUsable: a unit that reads as NaN or 0 would make the source divide to NaN or ±Infinity. The reading functions require usable units instead.
- `Object.entries` puts integer-like keys first. The record keeps insertion order; no key the adapters write is integer-like.
- The sign of zero (-0) is not modelled.
- Division by zero in the viewport, frame and transform arithmetic (zero zoom, zero image or frame side, zero ratio side) is excluded by preconditions. The two places where the source compares a quotient, `w / h` in the aspect step and in the corner lock, are modelled exactly for h = 0 as the comparison with ±Infinity.
- Types.ValidConfig: `Constrained`, `Constrain`, `Reduce`, `ReduceAll` and `ViewportToSelection` require it. With an aspect ratio locked, it excludes a zero or negative ratio side and a zero or negative source side. The source divides by zero only for a zero `ar.height` or source width, or, on an 'e'/'w' or too-tall drag, for a zero `ar.width` or source height. Negative values are excluded too, although the source computes with them, so the pipeline is not modelled for them.
- A minimum size larger than the maximum: `SizeLimited` follows the source (the maximum wins), and `SizeLimits` then promises the maximum exactly rather than the minimum.
- `parseAspectRatio` and the rest of `crop-image.ts`: the `CropImageElement` custom element, DOM, events, rendering and attribute parsing. Only the two module-level helpers are modelled.
- The React and Svelte wrappers, the overlay, pointer, keyboard and preview modules: UI code around the core.
- State.Reduce: the reducer's `default` branch, for an action outside the six kinds, cannot arise with a closed datatype.
- The `HandleName` string union is the subset type of `DragHandle` without 'move' and 'new'. `handle.includes('n')` and the like are the `MovesNorth`-style predicates.
- The adapter classes are modules; they hold no state.
- The snap threshold `findSnapRatio` receives comes from the element, which is not part of this model. The threshold is a parameter of FindSnapRatio.
