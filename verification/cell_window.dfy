/** The window of cells a cell view draws, and when it lets the user edit.

    The view's offset is a point of the plane in cell units; the cell under
    it is its floor. The counts of columns and rows to each side are the
    view's size divided by the cell size, rounded up, and are taken here as
    inputs. */
module CellWindowModel {
  import opened Wrappers
  import opened Cells

  /** A point of the plane in cell units. */
  datatype Offset = Offset(x: real, y: real)

  /** `floor(offset)`: the cell the point lies in. */
  function FloorOffset(o: Offset): (c: IntOffset)
    ensures c.x as real <= o.x < c.x as real + 1.0
    ensures c.y as real <= o.y < c.y as real + 1.0
  {
    IntOffset(o.x.Floor, o.y.Floor)
  }

  /** How many whole cells are drawn on each side of the cell under the offset. */
  datatype Counts = Counts(columnsToLeft: nat, columnsToRight: nat, rowsToTop: nat, rowsToBottom: nat)

  /** The window: its top-left corner is the floor cell moved left and up by
      the counts, and it spans the counts plus the floor cell itself. */
  function WindowOf(offset: Offset, counts: Counts): (w: IntRect)
    ensures w.left == FloorOffset(offset).x - counts.columnsToLeft
    ensures w.top == FloorOffset(offset).y - counts.rowsToTop
    ensures w.Width() == counts.columnsToLeft + 1 + counts.columnsToRight
    ensures w.Height() == counts.rowsToTop + 1 + counts.rowsToBottom
  {
    var topLeftOffset := IntOffset(-(counts.columnsToLeft as int), -(counts.rowsToTop as int));
    RectFromOffsetAndSize(
      Plus(FloorOffset(offset), topLeftOffset),
      counts.columnsToLeft + 1 + counts.columnsToRight,
      counts.rowsToTop + 1 + counts.rowsToBottom)
  }

  /** The window always holds the cell under the offset, the cells the counts
      ask for on each side of it, and is at least one cell wide and high. */
  lemma WindowHoldsCentre(offset: Offset, counts: Counts, dx: int, dy: int)
    requires -(counts.columnsToLeft as int) <= dx <= counts.columnsToRight
    requires -(counts.rowsToTop as int) <= dy <= counts.rowsToBottom
    ensures WindowOf(offset, counts).Contains(Plus(FloorOffset(offset), IntOffset(dx, dy)))
    ensures WindowOf(offset, counts).Width() >= 1 && WindowOf(offset, counts).Height() >= 1
  {
  }

  /** The view rejects a centre offset outside the unit square. */
  function CheckedWindow(centerOffset: Offset, offset: Offset, counts: Counts): (r: Option<IntRect>)
    ensures r.Some? <==> 0.0 <= centerOffset.x <= 1.0 && 0.0 <= centerOffset.y <= 1.0
    ensures r.Some? ==> r.value == WindowOf(offset, counts)
  {
    if 0.0 <= centerOffset.x <= 1.0 && 0.0 <= centerOffset.y <= 1.0 then Some(WindowOf(offset, counts)) else None
  }

  // ----- editability ------------------------------------------------------------

  /** Whether cells may be edited, given whether a gesture is under way and
      the current scale. */
  type EditablePredicate = (bool, real) -> bool

  /** `CellWindowUiState`: a read-only window, or a mutable one with its own
      editability rule. */
  datatype CellWindowUiState =
    | ImmutableState
    | MutableState(isEditable: EditablePredicate)

  /** `defaultIsEditable`: editable when no gesture is under way and the
      cells are drawn at least at their natural size. */
  const DefaultIsEditable: EditablePredicate := (isGesturing: bool, scale: real) => !isGesturing && scale >= 1.0

  /** Only a mutable window is ever editable, and then exactly as its rule says. */
  function IsEditable(ui: CellWindowUiState, isGesturing: bool, scale: real): (r: bool)
    ensures r ==> ui.MutableState?
    ensures ui.MutableState? ==> (r <==> ui.isEditable(isGesturing, scale))
  {
    match ui
    case ImmutableState => false
    case MutableState(rule) => rule(isGesturing, scale)
  }

  /** What the view asks: a window that is not navigable reports no gesture. */
  function ShowsInteractableCells(ui: CellWindowUiState, isNavigable: bool, isGesturing: bool, scale: real): (r: bool)
    ensures r ==> ui.MutableState?
    ensures ui.MutableState? && !isNavigable ==> (r <==> ui.isEditable(false, scale))
    ensures ui.MutableState? && isNavigable ==> (r <==> ui.isEditable(isGesturing, scale))
  {
    IsEditable(ui, isNavigable && isGesturing, scale)
  }

  /** With the default rule, a mutable window shows editable cells exactly
      when no gesture of a navigable window is under way and the scale is at
      least one; a read-only window never does. */
  lemma DefaultRule(isNavigable: bool, isGesturing: bool, scale: real)
    ensures ShowsInteractableCells(MutableState(DefaultIsEditable), isNavigable, isGesturing, scale)
            <==> !(isNavigable && isGesturing) && scale >= 1.0
    ensures !ShowsInteractableCells(ImmutableState, isNavigable, isGesturing, scale)
  {
  }

  // ----- the gesture flag -------------------------------------------------------

  /** The view's gesture flag and whether it is navigable. */
  datatype GestureState = GestureState(isNavigable: bool, isGesturing: bool)

  /** Gesture start and end arrive only through the gesture detector, which a
      navigable window alone installs; becoming non-navigable clears the flag. */
  datatype GestureEvent = GestureStart | GestureEnd | SetNavigable(navigable: bool)

  function GestureStep(s: GestureState, e: GestureEvent): (r: GestureState)
    ensures (!s.isNavigable ==> !s.isGesturing) ==> (!r.isNavigable ==> !r.isGesturing)
    ensures e.SetNavigable? ==> r.isNavigable == e.navigable
    ensures !e.SetNavigable? ==> r.isNavigable == s.isNavigable
    ensures e.SetNavigable? && e.navigable ==> r.isGesturing == s.isGesturing
  {
    match e
    case GestureStart => if s.isNavigable then s.(isGesturing := true) else s
    case GestureEnd => if s.isNavigable then s.(isGesturing := false) else s
    case SetNavigable(b) => if b then s.(isNavigable := true) else GestureState(false, false)
  }

  function GestureRun(s: GestureState, events: seq<GestureEvent>): GestureState
    decreases |events|
  {
    if |events| == 0 then s else GestureRun(GestureStep(s, events[0]), events[1..])
  }

  /** Whatever happens, a non-navigable window is never mid-gesture. */
  lemma {:induction false} NonNavigableNeverGesturing(s: GestureState, events: seq<GestureEvent>)
    requires !s.isNavigable ==> !s.isGesturing
    ensures var r := GestureRun(s, events); !r.isNavigable ==> !r.isGesturing
    decreases |events|
  {
    if |events| > 0 {
      NonNavigableNeverGesturing(GestureStep(s, events[0]), events[1..]);
    }
  }
}
