/**
 * The legacy single-object drag state (`src/DragState.ts`): one object holds
 * the press, the drag, the rendering and the drop zones. Compared with the
 * newer `DragModel`/`DropModel` pair it starts a drag on the SUM of the axis
 * deltas, keys the dragged element off the press event's target, validates
 * its listener objects when they are installed, and snapshots the drop zones
 * only when a selector has been given.
 */
module LegacyDrag {
  import opened Wrappers
  import opened Dom
  import opened Geometry
  import opened Listeners
  import opened Zones

  /**
   * The fields of a `DragState`. `placed` maps each element that move mode
   * has positioned to its last absolute position; `selector` is `None` until
   * `addDropZone`.
   */
  datatype LegacySnapshot = LegacySnapshot(
    isMouseDown: bool,
    isDragging: bool,
    press: Option<MouseEvent>,
    offset: Point,
    floating: Option<Point>,
    placed: map<ElemId, Point>,
    dropListeners: DropListeners,
    selector: Option<string>,
    zones: Option<seq<ElemId>>,
    colliding: seq<ElemId>)

  const Initial := LegacySnapshot(false, false, None, Point(0, 0), None, map[], NoDropListeners, None, None, [])

  /** What a `DragState` keeps between calls. */
  predicate Consistent(s: LegacySnapshot, mode: Mode) {
    && (s.isMouseDown <==> s.press.Some?)
    && (s.isDragging ==> s.press.Some?)
    && (s.colliding != [] ==> s.press.Some? && s.zones.Some?)
    && (s.floating.Some? ==> s.press.Some? && mode == Copy)
  }

  predicate AllFunctions(obj: JsObject) {
    forall i :: 0 <= i < |obj| ==> obj[i].isFunction
  }

  /** The selector is set and not the empty string (a falsy string skips the snapshot). */
  predicate HasSelector(s: LegacySnapshot) {
    s.selector.Some? && s.selector.value != ""
  }

  function Cursor(s: LegacySnapshot, e: MouseEvent): Point {
    Point(e.clientX - s.offset.x, e.clientY - s.offset.y)
  }

  /** `onMouseDownEvent`: no guard; the grab offset is taken from the event's target. */
  function PressedAt(s: LegacySnapshot, e: MouseEvent, doc: Document): LegacySnapshot {
    var origin := doc.offset(e.target);
    s.(isMouseDown := true, press := Some(e), offset := Point(e.pageX - origin.x, e.pageY - origin.y))
  }

  /** `isDraggingStarted`. */
  function DragStarted(s: LegacySnapshot, e: MouseEvent, doc: Document, l: DragListeners): Out<LegacySnapshot> {
    if s.press.None? || s.isDragging || !SumThreshold(s.press.value, e) then Out(s, [])
    else
      var zones := if HasSelector(s) then Some(doc.select(s.selector.value)) else s.zones;
      Out(s.(isDragging := true, zones := zones), When(l.onDragStart, [DragStart(e, s.press.value)]))
  }

  /** The rendering step of `onDragging`; an unsupported mode only logs an error. */
  function Rendered(s: LegacySnapshot, e: MouseEvent, mode: Mode): LegacySnapshot
    requires s.press.Some?
  {
    match mode
    case Copy => s.(floating := Some(Cursor(s, e)))
    case Move => s.(placed := s.placed[s.press.value.target := Cursor(s, e)])
    case Unsupported(_) => s
  }

  /** `handleDropZone`. */
  function ZoneUpdate(s: LegacySnapshot, e: MouseEvent, doc: Document): Out<LegacySnapshot>
    requires s.press.Some?
  {
    if s.zones.None? then Out(s, [])
    else
      var now := Colliding(e, s.zones.value, doc.boundingRect);
      Out(s.(colliding := now), CollisionEvents(e, s.press.value.target, s.colliding, now, s.dropListeners))
  }

  /** `onDragging`: render, update the zones, then call `onDragging`. */
  function DraggingFrame(s: LegacySnapshot, e: MouseEvent, mode: Mode, doc: Document, l: DragListeners): Out<LegacySnapshot>
    requires s.press.Some?
  {
    var z := ZoneUpdate(Rendered(s, e, mode), e, doc);
    Out(z.state, z.fired + When(l.onDragging, [Dragging(e, s.press.value)]))
  }

  /** `stopDragging`. */
  function Stopped(s: LegacySnapshot, e: MouseEvent, l: DragListeners): Out<LegacySnapshot>
    requires s.isDragging || s.colliding != [] ==> s.press.Some?
  {
    var ends := if s.isDragging && l.onDragEnd then [DragEnd(e, s.press.value)] else [];
    var drops := if s.colliding != [] && s.dropListeners.onDrop then ZoneEvents(Drop, e, s.press.value.target, s.colliding) else [];
    Out(s.(isDragging := false, isMouseDown := false, press := None, colliding := [], floating := None), ends + drops)
  }

  /** `addDropZone`: the selector is stored before the listener object is validated. */
  function ZoneAdded(s: LegacySnapshot, selector: string, obj: JsObject): LegacySnapshot {
    var s1 := s.(selector := Some(selector));
    if AllFunctions(obj) then s1.(dropListeners := DropListenersOf(obj)) else s1
  }

  /** Every operation keeps the invariant. */
  lemma ConsistencyKept(s: LegacySnapshot, mode: Mode, e: MouseEvent, doc: Document, l: DragListeners, selector: string, obj: JsObject)
    requires Consistent(s, mode)
    ensures Consistent(PressedAt(s, e, doc), mode)
    ensures Consistent(DragStarted(s, e, doc, l).state, mode)
    ensures Consistent(Stopped(s, e, l).state, mode)
    ensures Consistent(ZoneAdded(s, selector, obj), mode)
  {
  }

  /** A frame keeps the invariant and leaves the press, the drag flag and the snapshot alone. */
  lemma FrameConsistent(s: LegacySnapshot, mode: Mode, e: MouseEvent, doc: Document, l: DragListeners)
    requires Consistent(s, mode) && s.press.Some?
    ensures var r := DraggingFrame(s, e, mode, doc, l).state;
      && Consistent(r, mode)
      && r.press == s.press && r.isDragging == s.isDragging && r.isMouseDown == s.isMouseDown
      && r.zones == s.zones && r.offset == s.offset
  {
    var q := Rendered(s, e, mode);
    assert q.press == s.press && q.zones == s.zones && q.colliding == s.colliding;
    assert q.floating.Some? ==> mode == Copy;
  }

  /**
   * The legacy threshold: with a press and no drag yet, the drag starts exactly
   * when |dx| + |dy| reaches 5. On that step the zones are snapshotted from
   * the selector (if one is set, otherwise the old snapshot stays), then
   * `onDragStart` fires; nothing else changes. Without a press, or once
   * dragging, nothing happens.
   */
  lemma SumThresholdStarts(s: LegacySnapshot, e: MouseEvent, doc: Document, l: DragListeners)
    ensures s.press.None? || s.isDragging ==> DragStarted(s, e, doc, l) == Out(s, [])
    ensures s.press.Some? && !s.isDragging ==>
      var r := DragStarted(s, e, doc, l);
      var p := s.press.value;
      && (r.state.isDragging <==> Abs(e.clientX - p.clientX) + Abs(e.clientY - p.clientY) >= 5)
      && r.state == s.(isDragging := r.state.isDragging, zones := r.state.zones)
      && (r.state.isDragging && HasSelector(s) ==> r.state.zones == Some(doc.select(s.selector.value)))
      && (!r.state.isDragging || !HasSelector(s) ==> r.state.zones == s.zones)
      && r.fired == (if r.state.isDragging && l.onDragStart then [DragStart(e, p)] else [])
  {
  }

  /** A run of `isDraggingStarted` calls, one per event, after the same press. */
  function StartedMany(s: LegacySnapshot, es: seq<MouseEvent>, doc: Document, l: DragListeners): Out<LegacySnapshot>
    decreases |es|
  {
    if es == [] then Out(s, [])
    else
      var first := DragStarted(s, es[0], doc, l);
      var rest := StartedMany(first.state, es[1..], doc, l);
      Out(rest.state, first.fired + rest.fired)
  }

  /**
   * Over any run of threshold checks within one press, `onDragStart` is
   * called at most once, and never once the drag is confirmed; the press is
   * kept and a confirmed drag stays confirmed.
   */
  lemma {:induction false} OneLegacyDragStartPerGesture(s: LegacySnapshot, es: seq<MouseEvent>, doc: Document, l: DragListeners)
    ensures var r := StartedMany(s, es, doc, l);
      && StartCount(r.fired) <= (if s.isDragging then 0 else 1)
      && (s.isDragging ==> r.state.isDragging)
      && r.state.press == s.press
    decreases |es|
  {
    if es != [] {
      var first := DragStarted(s, es[0], doc, l);
      SumThresholdStarts(s, es[0], doc, l);
      assert StartCount(first.fired) == (if !s.isDragging && first.state.isDragging && l.onDragStart then 1 else 0);
      OneLegacyDragStartPerGesture(first.state, es[1..], doc, l);
      StartCountAppend(first.fired, StartedMany(first.state, es[1..], doc, l).fired);
    }
  }

  /** The per-axis rule of `DragModel` is stricter than the legacy sum rule. */
  lemma PerAxisImpliesSum(press: MouseEvent, e: MouseEvent)
    ensures PerAxisThreshold(press, e) ==> SumThreshold(press, e)
  {
  }

  /** A horizontal move of 5 pixels starts a legacy drag but not a `DragModel` drag. */
  lemma ThresholdPoliciesDiffer(press: MouseEvent, e: MouseEvent)
    requires e.clientX == press.clientX + 5 && e.clientY == press.clientY
    ensures SumThreshold(press, e) && !PerAxisThreshold(press, e)
  {
  }

  /**
   * A legacy frame: copy mode puts one clone and move mode puts the pressed
   * target at the pointer minus the grab offset; with a snapshot, the
   * colliding list becomes the snapshot's zones under the pointer, leave fires
   * for exactly the zones that stopped colliding and enter for those that
   * started, all with the pressed target as the dragged element; `onDragging`
   * comes last. Without a snapshot no zone call fires.
   */
  lemma FrameZones(s: LegacySnapshot, e: MouseEvent, mode: Mode, doc: Document, l: DragListeners)
    requires s.press.Some?
    ensures var r := DraggingFrame(s, e, mode, doc, l);
      var t := s.press.value.target;
      && (mode == Copy ==> r.state.floating == Some(Cursor(s, e)))
      && (mode == Move ==> r.state.placed == s.placed[t := Cursor(s, e)])
      && (s.zones.None? ==> r.state.colliding == s.colliding && r.fired == When(l.onDragging, [Dragging(e, s.press.value)]))
      && (s.zones.Some? ==>
            && r.state.colliding == Colliding(e, s.zones.value, doc.boundingRect)
            && (forall z :: Zone(Leave, e, t, z) in r.fired <==>
                  s.dropListeners.onLeave && z in s.colliding && z !in r.state.colliding)
            && (forall z :: Zone(Enter, e, t, z) in r.fired <==>
                  s.dropListeners.onEnter && z in r.state.colliding && z !in s.colliding))
      && (l.onDragging ==> r.fired[|r.fired| - 1] == Dragging(e, s.press.value))
  {
    var r := DraggingFrame(s, e, mode, doc, l);
    var z := ZoneUpdate(Rendered(s, e, mode), e, doc);
    var tail := When(l.onDragging, [Dragging(e, s.press.value)]);
    assert r.fired == z.fired + tail;
    if s.zones.Some? {
      var now := Colliding(e, s.zones.value, doc.boundingRect);
      CollisionEventsSpec(e, s.press.value.target, s.colliding, now, s.dropListeners);
    }
    forall k: ZoneKind, x: ElemId
      ensures Zone(k, e, s.press.value.target, x) in r.fired <==> Zone(k, e, s.press.value.target, x) in z.fired
    {
    }
  }

  /**
   * A release: `onDragEnd` if a drag was confirmed, then `onDrop` for every
   * colliding zone in order (whether or not a drag was confirmed); afterwards
   * the object is idle, nothing collides and no clone is left. The zone
   * snapshot and the selector survive.
   */
  lemma StopFiresAndResets(s: LegacySnapshot, e: MouseEvent, l: DragListeners, mode: Mode)
    requires Consistent(s, mode)
    ensures var r := Stopped(s, e, l);
      && !r.state.isDragging && !r.state.isMouseDown && r.state.press.None?
      && r.state.colliding == [] && r.state.floating.None?
      && r.state.zones == s.zones && r.state.selector == s.selector
      && |r.fired| == (if s.isDragging && l.onDragEnd then 1 else 0) + (if s.dropListeners.onDrop then |s.colliding| else 0)
      && (s.isDragging && l.onDragEnd ==> r.fired[0] == DragEnd(e, s.press.value))
      && (s.dropListeners.onDrop && s.colliding != [] ==> forall z :: Zone(Drop, e, s.press.value.target, z) in r.fired <==> z in s.colliding)
      && (s.dropListeners.onDrop ==>
            var ends := if s.isDragging && l.onDragEnd then 1 else 0;
            forall i :: 0 <= i < |s.colliding| ==> r.fired[ends + i] == Zone(Drop, e, s.press.value.target, s.colliding[i]))
  {
    var r := Stopped(s, e, l);
    if s.dropListeners.onDrop && s.colliding != [] {
      var ends := if s.isDragging && l.onDragEnd then [DragEnd(e, s.press.value)] else [];
      var drops := ZoneEvents(Drop, e, s.press.value.target, s.colliding);
      assert r.fired == ends + drops;
      forall z
        ensures Zone(Drop, e, s.press.value.target, z) in r.fired <==> z in s.colliding
      {
        if z in s.colliding {
          var i :| 0 <= i < |s.colliding| && s.colliding[i] == z;
          assert drops[i] == Zone(Drop, e, s.press.value.target, z);
        }
      }
    }
  }

  /** A second release fires nothing and changes nothing. */
  lemma StopIdempotent(s: LegacySnapshot, e: MouseEvent, e2: MouseEvent, l: DragListeners)
    requires s.isDragging || s.colliding != [] ==> s.press.Some?
    ensures var r := Stopped(s, e, l).state;
      Stopped(r, e2, l) == Out(r, [])
  {
  }

  class DragState {
    const mode: Mode
    const dragListeners: DragListeners

    var isMouseDown: bool
    var isDragging: bool
    var press: Option<MouseEvent>
    var offset: Point
    var floating: Option<Point>
    var placed: map<ElemId, Point>
    var dropListeners: DropListeners
    var selector: Option<string>
    var zones: Option<seq<ElemId>>
    var colliding: seq<ElemId>

    function State(): LegacySnapshot
      reads this
    {
      LegacySnapshot(isMouseDown, isDragging, press, offset, floating, placed, dropListeners, selector, zones, colliding)
    }

    ghost predicate Valid()
      reads this
    {
      Consistent(State(), mode)
    }

    /** The constructor once the drag listener object has been validated. */
    constructor(options: DragOptions, listeners: DragListeners)
      ensures mode == options.mode && dragListeners == listeners
      ensures Valid() && State() == Initial
    {
      mode := options.mode;
      dragListeners := listeners;
      isMouseDown := false;
      isDragging := false;
      press := None;
      offset := Point(0, 0);
      floating := None;
      placed := map[];
      dropListeners := NoDropListeners;
      selector := None;
      zones := None;
      colliding := [];
    }

    /**
     * `new DragState(options)`: the drag listener object (an empty one when
     * absent) must hold only functions, otherwise construction throws naming
     * the first offending key.
     */
    static method Create(options: DragOptions) returns (r: Result<DragState, string>)
      ensures var obj := options.dragListeners.GetOr([]);
        && (r.Success? <==> AllFunctions(obj))
        && (r.Failure? ==> exists i :: 0 <= i < |obj| && !obj[i].isFunction && r.error == NotKnown(obj[i].key)
                                      && forall j :: 0 <= j < i ==> obj[j].isFunction)
        && (r.Success? ==> fresh(r.value) && r.value.Valid() && r.value.State() == Initial
                           && r.value.mode == options.mode && r.value.dragListeners == DragListenersOf(obj))
    {
      var obj := options.dragListeners.GetOr([]);
      var err := CheckListeners(obj);
      if err.Some? {
        return Failure(err.value);
      }
      var d := new DragState(options, DragListenersOf(obj));
      r := Success(d);
    }

    /** `onMouseDownEvent`; `doc` supplies the target's offset. */
    method OnMouseDownEvent(e: MouseEvent, doc: Document)
      requires Valid()
      modifies this
      ensures Valid() && State() == PressedAt(old(State()), e, doc)
    {
      isMouseDown := true;
      press := Some(e);
      var origin := doc.offset(e.target);
      offset := Point(e.pageX - origin.x, e.pageY - origin.y);
    }

    method IsDraggingStarted(e: MouseEvent, doc: Document) returns (started: bool, fired: seq<Event>)
      requires Valid()
      modifies this
      ensures Valid() && Out(State(), fired) == DragStarted(old(State()), e, doc, dragListeners)
      ensures started == isDragging
    {
      fired := [];
      if press.None? {
        return false, fired;
      }
      if isDragging {
        return isDragging, fired;
      }
      var deltaX := Abs(e.clientX - press.value.clientX);
      var deltaY := Abs(e.clientY - press.value.clientY);
      isDragging := deltaX + deltaY >= 5;
      if isDragging {
        if selector.Some? && selector.value != "" {
          zones := Some(doc.select(selector.value));
        }
        if dragListeners.onDragStart {
          fired := [DragStart(e, press.value)];
        }
      }
      started := isDragging;
    }

    method OnDragging(e: MouseEvent, doc: Document) returns (fired: seq<Event>)
      requires Valid() && press.Some?
      modifies this
      ensures Valid() && Out(State(), fired) == DraggingFrame(old(State()), e, mode, doc, dragListeners)
    {
      match mode {
        case Copy => CopyElementToCursorPosition(e);
        case Move => MoveElementToCursorPosition(e);
        case Unsupported(_) => // console.error only
      }
      fired := HandleDropZone(e, doc);
      if dragListeners.onDragging {
        fired := fired + [Dragging(e, press.value)];
      }
    }

    /** `addDropZone`; the result is the error the validation throws, if any. */
    method AddDropZone(domSelector: string, options: DropOptions) returns (err: Option<string>)
      requires Valid()
      modifies this
      ensures Valid() && State() == ZoneAdded(old(State()), domSelector, options.dropListeners.GetOr([]))
      ensures err.None? <==> AllFunctions(options.dropListeners.GetOr([]))
    {
      selector := Some(domSelector);
      err := AddDropZoneListeners(options.dropListeners.GetOr([]));
    }

    method AddDropZoneListeners(obj: JsObject) returns (err: Option<string>)
      modifies this
      ensures err.None? <==> AllFunctions(obj)
      ensures State() == if err.None? then old(State()).(dropListeners := DropListenersOf(obj)) else old(State())
    {
      err := CheckListeners(obj);
      if err.None? {
        dropListeners := DropListenersOf(obj);
      }
    }

    method StopDragging(e: MouseEvent) returns (fired: seq<Event>)
      requires Valid()
      modifies this
      ensures Valid() && Out(State(), fired) == Stopped(old(State()), e, dragListeners)
    {
      fired := [];
      if isDragging && dragListeners.onDragEnd {
        fired := [DragEnd(e, press.value)];
      }
      if colliding != [] {
        var drops := FireDrops(e, press.value.target, colliding, dropListeners);
        fired := fired + drops;
      }
      isDragging := false;
      isMouseDown := false;
      press := None;
      colliding := [];
      RemoveFloatingElement();
    }

    method HandleDropZone(e: MouseEvent, doc: Document) returns (fired: seq<Event>)
      requires press.Some?
      modifies this
      ensures Out(State(), fired) == ZoneUpdate(old(State()), e, doc)
    {
      fired := [];
      if zones.None? {
        return;
      }
      var now := GetCollidingDropZoneElements(e, zones.value, doc);
      fired := FireCollisionEvents(e, press.value.target, colliding, now, dropListeners);
      colliding := now;
    }

    /** The `filter` of the zones by their bounding rectangles, edges included. */
    function GetCollidingDropZoneElements(e: MouseEvent, dropZones: seq<ElemId>, doc: Document): (r: seq<ElemId>)
      ensures forall z :: z in r <==> z in dropZones && Contains(doc.boundingRect(z), e.clientX, e.clientY)
      ensures IsSubsequence(r, dropZones)
    {
      Colliding(e, dropZones, doc.boundingRect)
    }

    method CopyElementToCursorPosition(e: MouseEvent)
      modifies this
      ensures State() == old(State()).(floating := Some(Cursor(old(State()), e)))
    {
      RemoveFloatingElement();
      floating := Some(Point(e.clientX - offset.x, e.clientY - offset.y));
    }

    method MoveElementToCursorPosition(e: MouseEvent)
      requires press.Some?
      modifies this
      ensures State() == old(State()).(placed := old(placed)[old(press).value.target := Cursor(old(State()), e)])
    {
      placed := placed[press.value.target := Point(e.clientX - offset.x, e.clientY - offset.y)];
    }

    method RemoveFloatingElement()
      modifies this
      ensures State() == old(State()).(floating := None)
    {
      if floating.Some? {
        floating := None;
      }
    }
  }
}
