/**
 * The interaction reducer: an immutable state machine over six actions. Every
 * drag position is computed afresh from the drag's start selection and start
 * point, then sent through the constraint pipeline.
 */
module State {
  import opened Wrappers
  import opened Types
  import opened Constraints

  datatype CropAction =
    | SetSelection(selection: CropSelection)
    | DragStart(handle: DragHandle, point: Point, selection: CropSelection)
    | DragMove(point: Point)
    | DragEnd
    | NewSelectionStart(point: Point)
    | Reset

  /** A drag is in progress: the handle, the start selection and the start point are all set. */
  predicate Dragging(s: CropState)
  {
    s.activeHandle.Some? && s.dragStartSelection.Some? && s.dragStartPoint.Some?
  }

  /**
   * The unconstrained rectangle for a drag to `point`: the start crop moved by
   * the pointer delta for 'move'; the rectangle spanned by the start point and
   * the pointer for 'new'; otherwise the start crop resized at the handle and
   * normalised. Only 'move' can give a rectangle that is not well-ordered, and
   * only when the start crop was not.
   */
  function DragRect(handle: DragHandle, start: CropRect, origin: Point, point: Point): (r: CropRect)
    ensures handle == Move ==> r == MoveCrop(start, point.x - origin.x, point.y - origin.y)
    ensures handle == New ==> r == NormalizeCrop(CropRect(origin.x, origin.y, point.x, point.y))
    ensures handle != Move && handle != New ==>
      r == NormalizeCrop(ResizeCrop(start, handle, point.x - origin.x, point.y - origin.y))
    ensures handle != Move || start.WellOrdered() ==> r.WellOrdered()
  {
    var dx := point.x - origin.x;
    var dy := point.y - origin.y;
    if handle == Move then MoveCrop(start, dx, dy)
    else if handle == New then NormalizeCrop(CropRect(origin.x, origin.y, point.x, point.y))
    else NormalizeCrop(ResizeCrop(start, handle, dx, dy))
  }

  /** cropReducer: the next state for an action under a configuration. */
  function Reduce(state: CropState, action: CropAction, config: CropConfig): (r: CropState)
    requires ValidConfig(config)
    ensures action.SetSelection? ==> r == state.(selection := action.selection)
    ensures action.DragStart? ==>
      r == state.(activeHandle := Some(action.handle), dragStartSelection := Some(action.selection),
                  dragStartPoint := Some(action.point))
    ensures action.DragMove? && !Dragging(state) ==> r == state
    ensures action.DragMove? && Dragging(state) ==>
      r == state.(selection := Constrained(
        DragRect(state.activeHandle.value, state.dragStartSelection.value.crop, state.dragStartPoint.value, action.point),
        config, state.activeHandle))
    ensures action.DragEnd? ==> r == state.(activeHandle := None, dragStartSelection := None, dragStartPoint := None)
    ensures action.NewSelectionStart? ==>
      var p := action.point;
      var sel := CropSelection(CropRect(p.x, p.y, p.x, p.y), ZERO_PAD);
      r == CropState(sel, Some(New), Some(sel), Some(p))
    ensures action.Reset? ==> r == DefaultState()
    ensures DragFieldsConsistent(state) ==> DragFieldsConsistent(r)
  {
    match action
    case SetSelection(selection) => state.(selection := selection)
    case DragStart(handle, point, selection) =>
      state.(activeHandle := Some(handle), dragStartSelection := Some(selection), dragStartPoint := Some(point))
    case DragMove(point) =>
      if !Dragging(state) then state
      else
        var newCrop := DragRect(state.activeHandle.value, state.dragStartSelection.value.crop,
                                state.dragStartPoint.value, point);
        state.(selection := Constrained(newCrop, config, state.activeHandle))
    case DragEnd => state.(activeHandle := None, dragStartSelection := None, dragStartPoint := None)
    case NewSelectionStart(point) =>
      var sel := CropSelection(CropRect(point.x, point.y, point.x, point.y), ZERO_PAD);
      CropState(sel, Some(New), Some(sel), Some(point))
    case Reset => DefaultState()
  }

  /** The state after a sequence of actions, applied left to right. */
  function ReduceAll(state: CropState, actions: seq<CropAction>, config: CropConfig): CropState
    requires ValidConfig(config)
    decreases |actions|
  {
    if |actions| == 0 then state else ReduceAll(Reduce(state, actions[0], config), actions[1..], config)
  }

  /** No sequence of actions breaks the all-or-nothing rule of the drag fields. */
  lemma {:induction false} ReduceAllKeepsDragFields(state: CropState, actions: seq<CropAction>, config: CropConfig)
    requires ValidConfig(config) && DragFieldsConsistent(state)
    ensures DragFieldsConsistent(ReduceAll(state, actions, config))
    decreases |actions|
  {
    if |actions| > 0 {
      ReduceAllKeepsDragFields(Reduce(state, actions[0], config), actions[1..], config);
    }
  }

  /**
   * Moves do not accumulate: each one is computed from the drag start, so a
   * move followed by another lands where the second move alone would, and
   * repeating a move changes nothing.
   */
  lemma DragMoveForgetsPreviousMove(state: CropState, p: Point, q: Point, config: CropConfig)
    requires ValidConfig(config)
    ensures Reduce(Reduce(state, DragMove(p), config), DragMove(q), config) == Reduce(state, DragMove(q), config)
    ensures Reduce(Reduce(state, DragMove(p), config), DragMove(p), config) == Reduce(state, DragMove(p), config)
  {
  }

  /**
   * In crop mode a drag always leaves a well-ordered selection inside the image
   * with zero padding, provided there is no minimum size or edge snapping is on
   * (and, for 'move', the start crop was well-ordered).
   */
  lemma DragMoveStaysInImage(state: CropState, p: Point, config: CropConfig)
    requires ValidConfig(config) && MaxSizeNonNegative(config) && MinSizeNonNegative(config)
    requires config.mode == Crop && (config.minSize.None? || config.edgeSnapThreshold > 0.0)
    requires Dragging(state)
    requires state.activeHandle == Some(Move) ==> state.dragStartSelection.value.crop.WellOrdered()
    ensures var r := Reduce(state, DragMove(p), config).selection;
      r.crop.WellOrdered() && r.crop.InUnitSquare() && r.pad == ZERO_PAD
  {
    var raw := DragRect(state.activeHandle.value, state.dragStartSelection.value.crop, state.dragStartPoint.value, p);
    ConstrainedInsideImage(raw, config, state.activeHandle);
  }

  /**
   * A south-east drag from (0.9, 0.9) to (1, 1) on the selection
   * (0.2, 0.2, 0.8, 0.8) with the default configuration grows it to
   * (0.2, 0.2, 0.9, 0.9); ending the drag keeps that selection and clears the
   * drag fields.
   */
  lemma SouthEastDragScenario()
    ensures var sel := CropSelection(CropRect(0.2, 0.2, 0.8, 0.8), ZERO_PAD);
      var s1 := Reduce(DefaultState(), DragStart(SE, Point(0.9, 0.9), sel), DefaultConfig());
      var s2 := Reduce(s1, DragMove(Point(1.0, 1.0)), DefaultConfig());
      var s3 := Reduce(s2, DragEnd, DefaultConfig());
      && s2.selection == CropSelection(CropRect(0.2, 0.2, 0.9, 0.9), ZERO_PAD)
      && s3.selection == s2.selection
      && s3.activeHandle.None? && s3.dragStartSelection.None? && s3.dragStartPoint.None?
  {
    SouthEastDragRect();
    SouthEastPipeline();
  }

  /** The south-east handle moved by (0.1, 0.1) pushes the right and bottom edges of (0.2, 0.2, 0.8, 0.8) to 0.9. */
  lemma SouthEastDragRect()
    ensures DragRect(SE, CropRect(0.2, 0.2, 0.8, 0.8), Point(0.9, 0.9), Point(1.0, 1.0)) == CropRect(0.2, 0.2, 0.9, 0.9)
  {
    assert ResizeCrop(CropRect(0.2, 0.2, 0.8, 0.8), SE, 0.1, 0.1) == CropRect(0.2, 0.2, 0.9, 0.9);
  }

  /** Under the default configuration the pipeline leaves (0.2, 0.2, 0.9, 0.9) as it is. */
  lemma SouthEastPipeline()
    ensures Constrained(CropRect(0.2, 0.2, 0.9, 0.9), DefaultConfig(), Some(SE))
      == CropSelection(CropRect(0.2, 0.2, 0.9, 0.9), ZERO_PAD)
  {
    var raw := CropRect(0.2, 0.2, 0.9, 0.9);
    var config := DefaultConfig();
    assert AspectCorrected(raw, config.aspectRatio, config.sourceWidth, config.sourceHeight, Some(SE)) == raw;
    assert Bounded(raw, config).crop == raw && Bounded(raw, config).pad == ZERO_PAD;
    assert SizeLimited(raw, config) == raw;
    assert EdgeSnapped(raw, config.edgeSnapThreshold) == raw;
  }

  /** A new selection dragged from (0.3, 0.4) to (0.1, 0.2) is the normalised rectangle (0.1, 0.2, 0.3, 0.4). */
  lemma NewSelectionScenario()
    ensures var s1 := Reduce(DefaultState(), NewSelectionStart(Point(0.3, 0.4)), DefaultConfig());
      var s2 := Reduce(s1, DragMove(Point(0.1, 0.2)), DefaultConfig());
      s2.selection == CropSelection(CropRect(0.1, 0.2, 0.3, 0.4), ZERO_PAD)
  {
  }
}
