/**
 * `DragModel` (src/models/dragModel.ts): one draggable element's
 * press -> armed -> dragging -> idle machine. A drag is confirmed when BOTH
 * axis deltas from the press reach the threshold, and a press is ignored
 * while a drag is in progress.
 *
 * The listener calls a method makes are returned as `fired` (at most one
 * call per method); inside `DnDModel` these listeners are its decorators,
 * which the owner runs right after the call.
 */
module DragModels {
  import opened Wrappers
  import opened Dom
  import opened Geometry
  import opened Listeners
  import opened Zones

  /**
   * The fields of a `DragModel`. `floating` is the position of the
   * translucent clone in copy mode (`None` when there is no clone), `placed`
   * the absolute position last written to the element itself in move mode.
   */
  datatype DragSnapshot = DragSnapshot(
    isMouseDown: bool,
    isDragging: bool,
    press: Option<MouseEvent>,
    offset: Point,
    floating: Option<Point>,
    placed: Option<Point>)

  const Idle := DragSnapshot(false, false, None, Point(0, 0), None, None)

  /** The invariants a `DragModel` keeps between calls. */
  predicate Consistent(s: DragSnapshot, mode: Mode) {
    && (s.isMouseDown <==> s.press.Some?)
    && (s.isDragging ==> s.press.Some?)
    && (s.floating.Some? ==> s.isDragging && mode == Copy)
  }

  /** Where the dragged element (or its clone) goes: the pointer minus the grab offset. */
  function CursorPosition(s: DragSnapshot, e: MouseEvent): Point {
    Point(e.clientX - s.offset.x, e.clientY - s.offset.y)
  }

  /** `onMouseDownEvent`; `origin` is the element's `(offsetLeft, offsetTop)`. */
  function Press(s: DragSnapshot, e: MouseEvent, origin: Point): DragSnapshot {
    if s.isDragging then s
    else s.(isMouseDown := true, press := Some(e), offset := Point(e.pageX - origin.x, e.pageY - origin.y))
  }

  /** `calculateDraggingElement`; its boolean result is the new `isDragging`. */
  function Calculate(s: DragSnapshot, e: MouseEvent, l: DragListeners): Out<DragSnapshot> {
    if s.press.None? || s.isDragging then Out(s, [])
    else
      var started := PerAxisThreshold(s.press.value, e);
      Out(s.(isDragging := started), When(started && l.onDragStart, [DragStart(e, s.press.value)]))
  }

  /** The rendering step of a drag frame; an unsupported mode only logs an error. */
  function Render(s: DragSnapshot, e: MouseEvent, mode: Mode): DragSnapshot {
    match mode
    case Copy => s.(floating := Some(CursorPosition(s, e)))
    case Move => s.(placed := Some(CursorPosition(s, e)))
    case Unsupported(_) => s
  }

  /** `onDragging`: render, then call the `onDragging` listener. */
  function Frame(s: DragSnapshot, e: MouseEvent, mode: Mode, l: DragListeners): Out<DragSnapshot>
    requires s.isDragging ==> s.press.Some?
  {
    if !s.isDragging then Out(s, [])
    else Out(Render(s, e, mode), When(l.onDragging, [Dragging(e, s.press.value)]))
  }

  /** `stopDragging`: `onDragEnd` only after a confirmed drag, then a full reset. */
  function Stop(s: DragSnapshot, e: MouseEvent, l: DragListeners): Out<DragSnapshot>
    requires s.isDragging ==> s.press.Some?
  {
    Out(s.(isDragging := false, isMouseDown := false, press := None, floating := None),
        if s.isDragging && l.onDragEnd then [DragEnd(e, s.press.value)] else [])
  }

  /** Every operation keeps the invariants. */
  lemma ConsistencyPreserved(s: DragSnapshot, mode: Mode, e: MouseEvent, origin: Point, l: DragListeners)
    requires Consistent(s, mode)
    ensures Consistent(Press(s, e, origin), mode)
    ensures Consistent(Calculate(s, e, l).state, mode)
    ensures Consistent(Frame(s, e, mode, l).state, mode)
    ensures Consistent(Stop(s, e, l).state, mode)
  {
  }

  /** A press while dragging changes nothing; otherwise it arms with the grab offset. */
  lemma PressArms(s: DragSnapshot, e: MouseEvent, origin: Point)
    ensures s.isDragging ==> Press(s, e, origin) == s
    ensures !s.isDragging ==>
      var r := Press(s, e, origin);
      r.isMouseDown && !r.isDragging && r.press == Some(e)
      && r.offset == Point(e.pageX - origin.x, e.pageY - origin.y)
      && r.(isMouseDown := s.isMouseDown, press := s.press, offset := s.offset) == s
  {
  }

  /**
   * The drag is confirmed exactly when both axis deltas from the press reach
   * the threshold; `onDragStart` fires exactly on that false -> true step,
   * with the current and the press event. Without a press nothing happens,
   * and once dragging nothing more happens.
   */
  lemma ThresholdPerAxis(s: DragSnapshot, e: MouseEvent, l: DragListeners)
    ensures s.press.None? ==> Calculate(s, e, l) == Out(s, [])
    ensures s.isDragging ==> Calculate(s, e, l) == Out(s, [])
    ensures s.press.Some? && !s.isDragging ==>
      var r := Calculate(s, e, l);
      && r.state == s.(isDragging := r.state.isDragging)
      && (r.state.isDragging <==>
            Abs(e.clientX - s.press.value.clientX) >= 5 && Abs(e.clientY - s.press.value.clientY) >= 5)
      && r.fired == (if r.state.isDragging && l.onDragStart then [DragStart(e, s.press.value)] else [])
  {
  }

  /** Under the per-axis rule a purely horizontal (or vertical) movement never starts a drag. */
  lemma StraightMoveNeverStarts(s: DragSnapshot, e: MouseEvent, l: DragListeners)
    requires s.press.Some? && !s.isDragging
    requires e.clientX == s.press.value.clientX || e.clientY == s.press.value.clientY
    ensures !Calculate(s, e, l).state.isDragging && Calculate(s, e, l).fired == []
  {
  }

  /**
   * A frame is a no-op while not dragging. While dragging, move mode puts the
   * element and copy mode puts exactly one clone at the pointer minus the grab
   * offset, and then `onDragging` fires.
   */
  lemma FrameRenders(s: DragSnapshot, e: MouseEvent, mode: Mode, l: DragListeners)
    requires Consistent(s, mode)
    ensures !s.isDragging ==> Frame(s, e, mode, l) == Out(s, [])
    ensures s.isDragging ==>
      var r := Frame(s, e, mode, l);
      && (mode == Copy ==> r.state.floating == Some(Point(e.clientX - s.offset.x, e.clientY - s.offset.y))
                           && r.state.(floating := s.floating) == s)
      && (mode == Move ==> r.state.placed == Some(Point(e.clientX - s.offset.x, e.clientY - s.offset.y))
                           && r.state.(placed := s.placed) == s)
      && (mode.Unsupported? ==> r.state == s)
      && r.fired == (if l.onDragging then [Dragging(e, s.press.value)] else [])
  {
  }

  /** A release fires `onDragEnd` only after a confirmed drag and always returns to idle without a clone. */
  lemma StopResets(s: DragSnapshot, e: MouseEvent, l: DragListeners)
    requires s.isDragging ==> s.press.Some?
    ensures var r := Stop(s, e, l);
      && !r.state.isDragging && !r.state.isMouseDown && r.state.press.None? && r.state.floating.None?
      && r.fired == (if s.isDragging && l.onDragEnd then [DragEnd(e, s.press.value)] else [])
  {
  }

  class DragModel {
    const element: ElemId
    const mode: Mode
    const listeners: DragListeners

    var isMouseDown: bool
    var isDragging: bool
    var press: Option<MouseEvent>
    var offset: Point
    var floating: Option<Point>
    var placed: Option<Point>

    function State(): DragSnapshot
      reads this
    {
      DragSnapshot(isMouseDown, isDragging, press, offset, floating, placed)
    }

    ghost predicate Valid()
      reads this
    {
      Consistent(State(), mode)
    }

    constructor(dragElement: ElemId, options: DragOptions)
      ensures element == dragElement && mode == options.mode
      ensures listeners == DragListenersOrNone(options.dragListeners)
      ensures Valid() && State() == Idle
    {
      element := dragElement;
      mode := options.mode;
      listeners := DragListenersOrNone(options.dragListeners);
      isMouseDown := false;
      isDragging := false;
      press := None;
      offset := Point(0, 0);
      floating := None;
      placed := None;
    }

    /** The element's `mousedown` listener; `doc` supplies its offset. */
    method OnMouseDownEvent(e: MouseEvent, doc: Document)
      requires Valid()
      modifies this
      ensures Valid() && State() == Press(old(State()), e, doc.offset(element))
    {
      if isDragging {
        return;
      }
      isMouseDown := true;
      press := Some(e);
      var origin := doc.offset(element);
      offset := Point(e.pageX - origin.x, e.pageY - origin.y);
    }

    method CalculateDraggingElement(e: MouseEvent) returns (dragging: bool, fired: seq<Event>)
      requires Valid()
      modifies this
      ensures Valid() && Out(State(), fired) == Calculate(old(State()), e, listeners)
      ensures dragging == isDragging
    {
      fired := [];
      if press.None? {
        return false, fired;
      }
      if isDragging {
        return isDragging, fired;
      }
      var deltaX := Abs(e.clientX - press.value.clientX);
      var deltaY := Abs(e.clientY - press.value.clientY);
      isDragging := deltaX >= 5 && deltaY >= 5;
      if isDragging && listeners.onDragStart {
        fired := [DragStart(e, press.value)];
      }
      dragging := isDragging;
    }

    method OnDragging(e: MouseEvent) returns (fired: seq<Event>)
      requires Valid()
      modifies this
      ensures Valid() && Out(State(), fired) == Frame(old(State()), e, mode, listeners)
    {
      fired := [];
      if !isDragging {
        return;
      }
      match mode {
        case Copy => CopyElementToCursorPosition(e);
        case Move => MoveElementToCursorPosition(e);
        case Unsupported(_) => // console.error only
      }
      if listeners.onDragging {
        fired := [Dragging(e, press.value)];
      }
    }

    method StopDragging(e: MouseEvent) returns (fired: seq<Event>)
      requires Valid()
      modifies this
      ensures Valid() && Out(State(), fired) == Stop(old(State()), e, listeners)
    {
      fired := [];
      if isDragging && listeners.onDragEnd {
        fired := [DragEnd(e, press.value)];
      }
      isDragging := false;
      isMouseDown := false;
      press := None;
      RemoveFloatingElement();
    }

    method RemoveFloatingElement()
      modifies this
      ensures State() == old(State()).(floating := None)
    {
      if floating.Some? {
        floating := None;
      }
    }

    /** Replaces any previous clone by one new clone at the cursor position. */
    method CopyElementToCursorPosition(e: MouseEvent)
      modifies this
      ensures State() == old(State()).(floating := Some(CursorPosition(old(State()), e)))
    {
      RemoveFloatingElement();
      floating := Some(Point(e.clientX - offset.x, e.clientY - offset.y));
    }

    method MoveElementToCursorPosition(e: MouseEvent)
      modifies this
      ensures State() == old(State()).(placed := Some(CursorPosition(old(State()), e)))
    {
      placed := Some(Point(e.clientX - offset.x, e.clientY - offset.y));
    }
  }
}
