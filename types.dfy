/**
 * The value types of the crop engine: rectangles in image fractions, padding,
 * the selection, the configuration, drag handles and the interaction state.
 */
module Types {
  import opened Wrappers

  /** A crop rectangle; coordinates are fractions of the source width and height. */
  datatype CropRect = CropRect(x1: real, y1: real, x2: real, y2: real) {
    function Width(): real { x2 - x1 }
    function Height(): real { y2 - y1 }
    predicate WellOrdered() { x1 <= x2 && y1 <= y2 }
    predicate InUnitSquare() { 0.0 <= x1 <= 1.0 && 0.0 <= y1 <= 1.0 && 0.0 <= x2 <= 1.0 && 0.0 <= y2 <= 1.0 }
  }

  /** Padding outside the crop, as fractions of the source dimensions. */
  datatype PadRect = PadRect(top: real, right: real, bottom: real, left: real) {
    predicate NonNegative() { top >= 0.0 && right >= 0.0 && bottom >= 0.0 && left >= 0.0 }
  }

  datatype CropSelection = CropSelection(crop: CropRect, pad: PadRect)

  /** An aspect-ratio lock, width:height in output pixels, with its optional label. */
  datatype AspectRatio = AspectRatio(width: real, height: real, labelText: Option<string>)

  /** A size in source pixels (minimum or maximum crop size). */
  datatype Size = Size(width: real, height: real)

  datatype Mode = Crop | CropPad

  datatype CropConfig = CropConfig(
    mode: Mode,
    aspectRatio: Option<AspectRatio>,
    aspectRatios: Option<seq<AspectRatio>>,
    minSize: Option<Size>,
    maxSize: Option<Size>,
    edgeSnapThreshold: real,
    evenPadding: bool,
    sourceWidth: real,
    sourceHeight: real)

  /**
   * The edge, corner or whole-selection gesture being dragged: the closed set
   * 'n' | 's' | 'e' | 'w' | 'ne' | 'nw' | 'se' | 'sw' | 'move' | 'new'.
   * The `Moves...` predicates say which letters the handle's name contains.
   */
  datatype DragHandle = N | S | E | W | NE | NW | SE | SW | Move | New {
    predicate MovesNorth() { this == N || this == NE || this == NW }
    predicate MovesSouth() { this == S || this == SE || this == SW }
    predicate MovesEast() { this == E || this == NE || this == SE }
    predicate MovesWest() { this == W || this == NW || this == SW }
  }

  datatype Point = Point(x: real, y: real)

  /** The interaction state; the three drag fields are set together or cleared together. */
  datatype CropState = CropState(
    selection: CropSelection,
    activeHandle: Option<DragHandle>,
    dragStartSelection: Option<CropSelection>,
    dragStartPoint: Option<Point>)

  /** The joint-null invariant of the drag-tracking fields. */
  predicate DragFieldsConsistent(s: CropState)
  {
    (s.activeHandle.None? && s.dragStartSelection.None? && s.dragStartPoint.None?)
    || (s.activeHandle.Some? && s.dragStartSelection.Some? && s.dragStartPoint.Some?)
  }

  const ZERO_PAD: PadRect := PadRect(0.0, 0.0, 0.0, 0.0)

  const DEFAULT_CROP: CropRect := CropRect(0.1, 0.1, 0.9, 0.9)

  /**
   * A divisor-safe configuration: when an aspect ratio is locked, its sides and
   * the source dimensions are positive (otherwise the ratio would divide by zero).
   */
  predicate ValidConfig(c: CropConfig)
  {
    RatioLockUsable(c.aspectRatio, c.sourceWidth, c.sourceHeight)
  }

  /** An aspect-ratio lock that can be turned into a crop-fraction ratio without dividing by zero. */
  predicate RatioLockUsable(ar: Option<AspectRatio>, srcW: real, srcH: real)
  {
    ar.Some? ==> ar.value.width > 0.0 && ar.value.height > 0.0 && srcW > 0.0 && srcH > 0.0
  }

  /** The default configuration: plain crop mode, nothing locked, 2% edge snap, unknown source size. */
  function DefaultConfig(): (c: CropConfig)
    ensures c.mode == Crop && c.aspectRatio.None? && c.aspectRatios.None?
    ensures c.minSize.None? && c.maxSize.None?
    ensures c.edgeSnapThreshold == 0.02 && !c.evenPadding
    ensures c.sourceWidth == 0.0 && c.sourceHeight == 0.0
    ensures ValidConfig(c)
  {
    CropConfig(Crop, None, None, None, None, 0.02, false, 0.0, 0.0)
  }

  /** The default selection: the centred 80% rectangle with no padding. */
  function DefaultSelection(): (s: CropSelection)
    ensures s.crop == CropRect(0.1, 0.1, 0.9, 0.9)
    ensures s.crop.WellOrdered() && s.crop.InUnitSquare()
    ensures s.pad == ZERO_PAD && s.pad.top == s.pad.right == s.pad.bottom == s.pad.left == 0.0
  {
    CropSelection(DEFAULT_CROP, ZERO_PAD)
  }

  /** The initial interaction state: the default selection and no drag in progress. */
  function DefaultState(): (s: CropState)
    ensures s.selection == DefaultSelection()
    ensures s.activeHandle.None? && s.dragStartSelection.None? && s.dragStartPoint.None?
    ensures DragFieldsConsistent(s)
  {
    CropState(DefaultSelection(), None, None, None)
  }
}
