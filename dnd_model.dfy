/**
 * `DnDModel` (src/models/dndModel.ts): one draggable element's `DragModel`
 * plus its drop side (the null object until `addDrop`). The drag model is
 * built with three decorators in place of the user's drag listeners:
 *   - on drag start, open the drop zones, then call the user's `onDragStart`;
 *   - on each drag frame, recompute collisions, then call the user's `onDragging`;
 *   - on drag end, call the user's `onDragEnd`, then resolve the drops.
 */
module DnDModels {
  import opened Wrappers
  import opened Dom
  import opened Geometry
  import opened Listeners
  import opened Zones
  import opened DragModels
  import opened DropModels

  /** The drop side of a model: the null object, or a `DropModel`'s configuration and fields. */
  datatype DropSide = NoDrop | DropZones(selector: string, listeners: DropListeners, snap: DropSnapshot)

  function CollidingOf(d: DropSide): seq<ElemId> {
    if d.DropZones? then d.snap.colliding else []
  }

  function ZonesOf(d: DropSide): seq<ElemId> {
    if d.DropZones? && d.snap.zones.Some? then d.snap.zones.value else []
  }

  function OpenSide(d: DropSide, doc: Document): DropSide {
    if d.NoDrop? then d else d.(snap := Opened(d.snap, doc.select(d.selector)))
  }

  function CollideSide(d: DropSide, e: MouseEvent, dragged: ElemId, rect: ElemId -> Rect): Out<DropSide> {
    if d.NoDrop? then Out(d, [])
    else
      var c := Collided(d.snap, e, dragged, rect, d.listeners);
      Out(d.(snap := c.state), c.fired)
  }

  function DropOnSide(d: DropSide, e: MouseEvent, dragged: ElemId): Out<DropSide> {
    if d.NoDrop? then Out(d, [])
    else
      var r := Dropped(d.snap, e, dragged, d.listeners);
      Out(d.(snap := r.state), r.fired)
  }

  /** The abstract value of a `DnDModel`. `user` says which of the caller's drag listeners are functions. */
  datatype DnDSnapshot = DnDSnapshot(element: ElemId, mode: Mode, user: DragListeners, drag: DragSnapshot, drop: DropSide)

  /** What a `DnDModel` keeps between events: the drag model's invariants and no colliding zones outside a drag. */
  predicate Invariant(s: DnDSnapshot) {
    && DragModels.Consistent(s.drag, s.mode)
    && (!s.drag.isDragging ==> CollidingOf(s.drop) == [])
  }

  /** The colliding zones are drawn, in order, from the current snapshot. */
  predicate CollidingFromSnapshot(s: DnDSnapshot) {
    IsSubsequence(CollidingOf(s.drop), ZonesOf(s.drop))
  }

  /** The listener object the drag model is built with: the three decorators. */
  const Decorators: JsObject := [Prop("onDragStart", true), Prop("onDragging", true), Prop("onDragEnd", true)]

  const AllDragListeners := DragListeners(true, true, true)

  lemma DecoratorsPresent()
    ensures DragListenersOf(Decorators) == AllDragListeners
  {
    assert Decorators[0].key == "onDragStart";
    assert Decorators[1].key == "onDragging" && Decorators[1].key != "onDragStart";
    assert Decorators[2].key == "onDragEnd" && Decorators[2].key != "onDragStart" && Decorators[2].key != "onDragging";
  }

  function Created(element: ElemId, mode: Mode, listeners: JsObject): DnDSnapshot {
    DnDSnapshot(element, mode, DragListenersOf(listeners), Idle, NoDrop)
  }

  /** The drag-start decorator. */
  function StartHook(s: DnDSnapshot, e: MouseEvent, press: MouseEvent, doc: Document): Out<DnDSnapshot> {
    Out(s.(drop := OpenSide(s.drop, doc)), When(s.user.onDragStart, [DragStart(e, press)]))
  }

  /** The dragging decorator. */
  function DraggingHook(s: DnDSnapshot, e: MouseEvent, press: MouseEvent, doc: Document): Out<DnDSnapshot> {
    var c := CollideSide(s.drop, e, s.element, doc.boundingRect);
    Out(s.(drop := c.state), c.fired + When(s.user.onDragging, [Dragging(e, press)]))
  }

  /** The drag-end decorator. */
  function EndHook(s: DnDSnapshot, e: MouseEvent, press: MouseEvent): Out<DnDSnapshot> {
    var d := DropOnSide(s.drop, e, s.element);
    Out(s.(drop := d.state), When(s.user.onDragEnd, [DragEnd(e, press)]) + d.fired)
  }

  /** A `mousedown` on the element. */
  function Pressed(s: DnDSnapshot, e: MouseEvent, doc: Document): DnDSnapshot {
    s.(drag := Press(s.drag, e, doc.offset(s.element)))
  }

  /** `calculateDraggingElement` with the drag-start decorator run on the call it makes. */
  function StartPhase(s: DnDSnapshot, e: MouseEvent, doc: Document): Out<DnDSnapshot> {
    var c := Calculate(s.drag, e, AllDragListeners);
    if c.fired == [] then Out(s.(drag := c.state), [])
    else StartHook(s.(drag := c.state), e, s.drag.press.value, doc)
  }

  /** The drag model's `onDragging` with the dragging decorator run on the call it makes. */
  function FramePhase(s: DnDSnapshot, e: MouseEvent, doc: Document): Out<DnDSnapshot>
    requires s.drag.isDragging ==> s.drag.press.Some?
  {
    var f := Frame(s.drag, e, s.mode, AllDragListeners);
    if f.fired == [] then Out(s.(drag := f.state), [])
    else DraggingHook(s.(drag := f.state), e, s.drag.press.value, doc)
  }

  /** `mouseMoved`: the threshold check, then the dragging step. */
  function Moved(s: DnDSnapshot, e: MouseEvent, doc: Document): Out<DnDSnapshot>
    requires Invariant(s)
  {
    var a := StartPhase(s, e, doc);
    var b := FramePhase(a.state, e, doc);
    Out(b.state, a.fired + b.fired)
  }

  /** `stopDragging`. */
  function Released(s: DnDSnapshot, e: MouseEvent): Out<DnDSnapshot>
    requires Invariant(s)
  {
    var st := Stop(s.drag, e, AllDragListeners);
    if st.fired == [] then Out(s.(drag := st.state), [])
    else EndHook(s.(drag := st.state), e, s.drag.press.value)
  }

  /** `addDrop`: a fresh `DropModel` replaces whatever drop side there was. */
  function DropAdded(s: DnDSnapshot, selector: string, options: DropOptions): DnDSnapshot {
    s.(drop := DropZones(selector, DropListenersOrNone(options.dropListeners), DropModels.Fresh))
  }

  /** A collision update on a drop side makes only enter and leave calls for this element and event, leaves first. */
  lemma CollideSideCalls(d: DropSide, e: MouseEvent, dragged: ElemId, rect: ElemId -> Rect)
    ensures ZoneCalls(CollideSide(d, e, dragged, rect).fired, e, dragged)
  {
  }

  /** Every operation keeps the colliding zones drawn from the current snapshot. */
  lemma SnapshotKept(s: DnDSnapshot, e: MouseEvent, doc: Document, selector: string, options: DropOptions)
    requires Invariant(s) && CollidingFromSnapshot(s)
    ensures CollidingFromSnapshot(Pressed(s, e, doc))
    ensures CollidingFromSnapshot(Moved(s, e, doc).state)
    ensures CollidingFromSnapshot(Released(s, e).state)
    ensures CollidingFromSnapshot(DropAdded(s, selector, options))
  {
    if s.drag.isMouseDown {
      MovedUnfold(s, e, doc);
      var m := Moved(s, e, doc).state;
      if m.drop.DropZones? && m.drop.snap.zones.Some? {
        assert IsSubsequence(CollidingOf(m.drop), ZonesOf(m.drop));
      }
    } else {
      MoveWithoutPressIsQuiet(s, e, doc);
    }
  }

  /** A press keeps the invariant. */
  lemma PressKeeps(s: DnDSnapshot, e: MouseEvent, doc: Document)
    requires Invariant(s)
    ensures Invariant(Pressed(s, e, doc))
  {
  }

  /** A move keeps the invariant and never changes the element, mode or user listeners. */
  lemma MoveKeeps(s: DnDSnapshot, e: MouseEvent, doc: Document)
    requires Invariant(s)
    ensures var r := Moved(s, e, doc).state;
      Invariant(r) && r.element == s.element && r.mode == s.mode && r.user == s.user
  {
  }

  /** A release keeps the invariant and never changes the element, mode or user listeners. */
  lemma ReleaseKeeps(s: DnDSnapshot, e: MouseEvent)
    requires Invariant(s)
    ensures var r := Released(s, e).state;
      Invariant(r) && r.element == s.element && r.mode == s.mode && r.user == s.user
  {
  }

  /** The calls of one collision update: enter and leave calls for this element and event, leaves first. */
  predicate ZoneCalls(zs: seq<Event>, e: MouseEvent, dragged: ElemId) {
    && (forall i :: 0 <= i < |zs| ==> zs[i].Zone? && zs[i].kind != Drop && zs[i].e == e && zs[i].dragged == dragged)
    && LeavesBeforeEnters(zs)
  }

  /** `evs` is `head`, then the calls of one collision update, then `tail`. */
  predicate FrameTrace(evs: seq<Event>, head: seq<Event>, tail: seq<Event>, e: MouseEvent, dragged: ElemId) {
    && |head| + |tail| <= |evs|
    && evs[..|head|] == head
    && evs[|evs| - |tail|..] == tail
    && ZoneCalls(evs[|head|..|evs| - |tail|], e, dragged)
  }

  lemma FrameTraceOf(head: seq<Event>, zs: seq<Event>, tail: seq<Event>, e: MouseEvent, dragged: ElemId)
    requires ZoneCalls(zs, e, dragged)
    ensures FrameTrace(head + zs + tail, head, tail, e, dragged)
  {
    var fired := head + zs + tail;
    assert fired[..|head|] == head;
    assert fired[|fired| - |tail|..] == tail;
    assert fired[|head|..|fired| - |tail|] == zs;
  }

  /** Before a press (or after a release), moving the mouse does nothing at all. */
  lemma MoveWithoutPressIsQuiet(s: DnDSnapshot, e: MouseEvent, doc: Document)
    requires Invariant(s) && !s.drag.isMouseDown
    ensures Moved(s, e, doc) == Out(s, [])
  {
  }

  /** `Moved` after a press, written as its three parts. */
  lemma MovedUnfold(s: DnDSnapshot, e: MouseEvent, doc: Document)
    requires Invariant(s) && s.drag.isMouseDown
    ensures var p := s.drag.press.value;
      var dragging := s.drag.isDragging || PerAxisThreshold(p, e);
      var started := !s.drag.isDragging && dragging;
      var side := if started then OpenSide(s.drop, doc) else s.drop;
      var z := if dragging then CollideSide(side, e, s.element, doc.boundingRect) else Out(side, []);
      var r := Moved(s, e, doc);
      && r.fired == When(started && s.user.onDragStart, [DragStart(e, p)]) + z.fired
                    + When(dragging && s.user.onDragging, [Dragging(e, p)])
      && r.state.drop == z.state
      && r.state.drag == (if dragging then Render(s.drag.(isDragging := true), e, s.mode) else s.drag)
      && r.state.element == s.element && r.state.mode == s.mode && r.state.user == s.user
  {
  }

  /**
   * One mouse move after a press. The model is dragging afterwards exactly
   * when it already was or both axis deltas from the press reach the
   * threshold. The calls come in this order: `onDragStart` (only on the move
   * that confirms the drag), then the zone leave and enter calls of this frame,
   * then `onDragging` (on every move while dragging). The zone calls and the
   * new drop side are those of one collision update, on the snapshot opened
   * by this move when it confirms the drag. Without a drag nothing fires.
   */
  lemma MoveOrder(s: DnDSnapshot, e: MouseEvent, doc: Document)
    requires Invariant(s) && s.drag.isMouseDown
    ensures var r := Moved(s, e, doc);
      var p := s.drag.press.value;
      var started := !s.drag.isDragging && r.state.drag.isDragging;
      && (r.state.drag.isDragging <==> s.drag.isDragging || PerAxisThreshold(p, e))
      && FrameTrace(r.fired, When(started && s.user.onDragStart, [DragStart(e, p)]),
                    When(r.state.drag.isDragging && s.user.onDragging, [Dragging(e, p)]), e, s.element)
      && (!r.state.drag.isDragging ==> r.fired == [])
      && (r.state.drag.isDragging ==>
            var z := CollideSide(if started then OpenSide(s.drop, doc) else s.drop, e, s.element, doc.boundingRect);
            && r.fired == When(started && s.user.onDragStart, [DragStart(e, p)]) + z.fired
                          + When(s.user.onDragging, [Dragging(e, p)])
            && r.state.drop == z.state)
  {
    MovedUnfold(s, e, doc);
    var p := s.drag.press.value;
    var dragging := s.drag.isDragging || PerAxisThreshold(p, e);
    var started := !s.drag.isDragging && dragging;
    var side := if started then OpenSide(s.drop, doc) else s.drop;
    var z := if dragging then CollideSide(side, e, s.element, doc.boundingRect) else Out(side, []);
    CollideSideCalls(side, e, s.element, doc.boundingRect);
    FrameTraceOf(When(started && s.user.onDragStart, [DragStart(e, p)]), z.fired,
                 When(dragging && s.user.onDragging, [Dragging(e, p)]), e, s.element);
  }

  /**
   * The move that confirms a drag: the drop zones are snapshotted from the
   * selector at that instant, the colliding list is the zones under the
   * pointer, every one of them gets an enter call and none a leave call, and
   * the element (move mode) or its clone (copy mode) is put at the pointer
   * minus the grab offset.
   */
  lemma ConfirmingMove(s: DnDSnapshot, e: MouseEvent, doc: Document)
    requires Invariant(s) && s.drag.isMouseDown && !s.drag.isDragging
    requires PerAxisThreshold(s.drag.press.value, e)
    ensures var r := Moved(s, e, doc);
      && r.state.drag.isDragging
      && (s.drop.DropZones? ==>
            var zones := doc.select(s.drop.selector);
            && r.state.drop.snap == DropSnapshot(Some(zones), Colliding(e, zones, doc.boundingRect))
            && (forall z :: Zone(Enter, e, s.element, z) in r.fired <==>
                  s.drop.listeners.onEnter && z in zones && Contains(doc.boundingRect(z), e.clientX, e.clientY))
            && (forall z :: Zone(Leave, e, s.element, z) !in r.fired))
      && (s.mode == Copy ==> r.state.drag.floating == Some(CursorPosition(s.drag, e)))
      && (s.mode == Move ==> r.state.drag.placed == Some(CursorPosition(s.drag, e)))
  {
    MovedUnfold(s, e, doc);
    var r := Moved(s, e, doc);
    var d := s.drag.(isDragging := true);
    assert r.state.drag == Render(d, e, s.mode);
    assert CursorPosition(d, e) == CursorPosition(s.drag, e);
    if s.drop.DropZones? {
      var p := s.drag.press.value;
      var zones := doc.select(s.drop.selector);
      var now := Colliding(e, zones, doc.boundingRect);
      var zs := CollisionEvents(e, s.element, [], now, s.drop.listeners);
      assert CollideSide(OpenSide(s.drop, doc), e, s.element, doc.boundingRect).fired == zs;
      CollisionEventsSpec(e, s.element, [], now, s.drop.listeners);
      OnlyZoneCallsInMiddle(When(s.user.onDragStart, [DragStart(e, p)]), zs, When(s.user.onDragging, [Dragging(e, p)]));
    }
  }

  /** A zone call in `head + zs + tail` comes from `zs` when `head` and `tail` hold no zone calls. */
  lemma OnlyZoneCallsInMiddle(head: seq<Event>, zs: seq<Event>, tail: seq<Event>)
    requires forall i :: 0 <= i < |head| ==> !head[i].Zone?
    requires forall i :: 0 <= i < |tail| ==> !tail[i].Zone?
    ensures forall ev: Event :: ev.Zone? ==> (ev in head + zs + tail <==> ev in zs)
  {
  }

  /** A release that ends no drag fires nothing and only disarms the press. */
  lemma ReleaseWithoutDragIsQuiet(s: DnDSnapshot, e: MouseEvent)
    requires Invariant(s) && !s.drag.isDragging
    ensures Released(s, e) == Out(s.(drag := s.drag.(isMouseDown := false, press := None)), [])
  {
  }

  /** A release on a model that was never pressed changes nothing. */
  lemma IdleReleaseIsNoOp(s: DnDSnapshot, e: MouseEvent)
    requires Invariant(s) && !s.drag.isMouseDown
    ensures Released(s, e) == Out(s, [])
  {
  }

  /**
   * A release that ends a drag: the user's `onDragEnd` first, then one drop
   * call per zone colliding in the last frame, in order; afterwards nothing
   * collides, the snapshot is kept, and the drag model is back to idle with
   * no clone (the element itself stays where it was put).
   */
  lemma ReleaseAfterDrag(s: DnDSnapshot, e: MouseEvent)
    requires Invariant(s) && s.drag.isDragging
    ensures var r := Released(s, e);
      && r.fired == When(s.user.onDragEnd, [DragEnd(e, s.drag.press.value)])
                    + (if s.drop.DropZones? then When(s.drop.listeners.onDrop, ZoneEvents(Drop, e, s.element, CollidingOf(s.drop))) else [])
      && CollidingOf(r.state.drop) == [] && ZonesOf(r.state.drop) == ZonesOf(s.drop)
      && !r.state.drag.isDragging && !r.state.drag.isMouseDown && r.state.drag.floating.None?
      && r.state.drag.placed == s.drag.placed
  {
  }

  /** A run of mouse moves. */
  function MovedMany(s: DnDSnapshot, es: seq<MouseEvent>, doc: Document): (r: Out<DnDSnapshot>)
    requires Invariant(s)
    ensures Invariant(r.state) && r.state.element == s.element && r.state.mode == s.mode && r.state.user == s.user
    decreases |es|
  {
    if es == [] then Out(s, [])
    else
      MoveKeeps(s, es[0], doc);
      var first := Moved(s, es[0], doc);
      var rest := MovedMany(first.state, es[1..], doc);
      Out(rest.state, first.fired + rest.fired)
  }

  /** One move calls `onDragStart` at most once, and only when it confirms the drag; a drag never unconfirms. */
  lemma MoveStarts(s: DnDSnapshot, e: MouseEvent, doc: Document)
    requires Invariant(s)
    ensures var r := Moved(s, e, doc);
      && (s.drag.isDragging ==> r.state.drag.isDragging)
      && StartCount(r.fired) == (if !s.drag.isDragging && r.state.drag.isDragging && s.user.onDragStart then 1 else 0)
  {
    if s.drag.isMouseDown {
      MovedUnfold(s, e, doc);
      var p := s.drag.press.value;
      var dragging := s.drag.isDragging || PerAxisThreshold(p, e);
      var started := !s.drag.isDragging && dragging;
      var side := if started then OpenSide(s.drop, doc) else s.drop;
      var z := if dragging then CollideSide(side, e, s.element, doc.boundingRect) else Out(side, []);
      var head := When(started && s.user.onDragStart, [DragStart(e, p)]);
      var tail := When(dragging && s.user.onDragging, [Dragging(e, p)]);
      CollideSideCalls(side, e, s.element, doc.boundingRect);
      StartCountAppend(head + z.fired, tail);
      StartCountAppend(head, z.fired);
      NoStarts(z.fired);
      NoStarts(tail);
      if head != [] {
        assert head[1..] == [];
      }
    }
  }

  /**
   * Over any run of moves within one press, `onDragStart` is called at most
   * once, and never again once the drag is confirmed.
   */
  lemma {:induction false} OneDragStartPerGesture(s: DnDSnapshot, es: seq<MouseEvent>, doc: Document)
    requires Invariant(s)
    ensures var r := MovedMany(s, es, doc);
      && StartCount(r.fired) <= (if s.drag.isDragging then 0 else 1)
      && (s.drag.isDragging ==> r.state.drag.isDragging)
    decreases |es|
  {
    if es != [] {
      MoveKeeps(s, es[0], doc);
      var first := Moved(s, es[0], doc);
      MoveStarts(s, es[0], doc);
      OneDragStartPerGesture(first.state, es[1..], doc);
      StartCountAppend(first.fired, MovedMany(first.state, es[1..], doc).fired);
    }
  }

  /** Moves that never reach the threshold on both axes leave a pressed model untouched and silent. */
  lemma {:induction false} BelowThresholdQuiet(s: DnDSnapshot, es: seq<MouseEvent>, doc: Document)
    requires Invariant(s) && s.drag.isMouseDown && !s.drag.isDragging
    requires forall i :: 0 <= i < |es| ==> !PerAxisThreshold(s.drag.press.value, es[i])
    ensures MovedMany(s, es, doc) == Out(s, [])
    decreases |es|
  {
    if es != [] {
      assert Moved(s, es[0], doc) == Out(s, []);
      assert forall i :: 0 <= i < |es[1..]| ==> es[1..][i] == es[i + 1];
      BelowThresholdQuiet(s, es[1..], doc);
    }
  }

  /** The message `DnDModel`'s constructor throws when there are no drag listeners to decorate. */
  const ExtendError := "could not extend drop listeners to drag listeners"

  /** The `IDropModel` a `DnDModel` holds. */
  datatype DropSlot = EmptySlot(empty: EmptyDropModel) | ModelSlot(model: DropModel)

  class DnDModel {
    const element: ElemId
    /** Which of the caller's drag listeners are functions; the decorators call these. */
    const user: DragListeners
    const drag: DragModel
    var drop: DropSlot
    ghost var Repr: set<object>

    function DropObject(): object
      reads this
    {
      match drop
      case EmptySlot(m) => m
      case ModelSlot(m) => m
    }

    function DropState(): DropSide
      reads this, DropObject()
    {
      match drop
      case EmptySlot(_) => NoDrop
      case ModelSlot(m) => DropZones(m.selector, m.listeners, m.State())
    }

    function State(): DnDSnapshot
      reads this, drag, DropObject()
    {
      DnDSnapshot(element, drag.mode, user, drag.State(), DropState())
    }

    ghost predicate Valid()
      reads this, Repr
    {
      && Repr == {this, drag, DropObject()}
      && drag.element == element && drag.listeners == AllDragListeners
      && drag.Valid()
      && Invariant(State())
    }

    /** The constructor once the caller's listener object is known to exist. */
    constructor(dragElement: ElemId, mode: Mode, listeners: JsObject)
      ensures Valid() && fresh(Repr)
      ensures State() == Created(dragElement, mode, listeners)
    {
      element := dragElement;
      var empty := new EmptyDropModel();
      drop := EmptySlot(empty);
      user := DragListenersOf(listeners);
      var model := NewDecoratedDrag(dragElement, mode);
      drag := model;
      new;
      Repr := {this, model, empty};
      assert fresh(model) && fresh(empty);
      assert DropObject() == empty && DropState() == NoDrop;
      assert State() == DnDSnapshot(element, mode, user, Idle, NoDrop);
    }

    /** The drag model of a `DnDModel`: a copy of the options whose listeners are the three decorators. */
    static method NewDecoratedDrag(dragElement: ElemId, mode: Mode) returns (m: DragModel)
      ensures fresh(m) && m.Valid() && m.State() == Idle
      ensures m.element == dragElement && m.mode == mode && m.listeners == AllDragListeners
    {
      DecoratorsPresent();
      m := new DragModel(dragElement, DragOptions(mode, Some(Decorators)));
    }

    /**
     * `new DnDModel(dragElement, dragOptions)`: throws when the options carry
     * no drag listener object; otherwise the drag model gets a copy of the
     * options whose listeners are the three decorators.
     */
    static method Create(dragElement: ElemId, options: DragOptions) returns (r: Result<DnDModel, string>)
      ensures r.Failure? <==> options.dragListeners.None?
      ensures r.Failure? ==> r.error == ExtendError
      ensures r.Success? ==>
        && fresh(r.value.Repr) && r.value.Valid()
        && r.value.State() == Created(dragElement, options.mode, options.dragListeners.value)
    {
      if options.dragListeners.None? {
        return Failure(ExtendError);
      }
      var m := new DnDModel(dragElement, options.mode, options.dragListeners.value);
      r := Success(m);
    }

    /** The `mousedown` listener the drag model registers on the element. */
    method OnMouseDown(e: MouseEvent, doc: Document)
      requires Valid()
      modifies drag
      ensures Valid()
      ensures State() == Pressed(old(State()), e, doc)
    {
      ghost var s := State();
      PressKeeps(s, e, doc);
      drag.OnMouseDownEvent(e, doc);
      assert DropState() == s.drop;
      assert State() == Pressed(s, e, doc);
    }

    method MouseMoved(e: MouseEvent, doc: Document) returns (fired: seq<Event>)
      requires Valid()
      modifies Repr
      ensures Valid() && Repr == old(Repr)
      ensures Out(State(), fired) == Moved(old(State()), e, doc)
    {
      ghost var s := State();
      MoveKeeps(s, e, doc);
      fired := StartStep(e, doc);
      ghost var a := StartPhase(s, e, doc);
      assert State() == a.state && fired == a.fired;
      assert this !in {drag, old(DropObject())};
      assert DropObject() == old(DropObject());
      var more := FrameStep(e, doc);
      ghost var b := FramePhase(a.state, e, doc);
      assert State() == b.state && more == b.fired;
      fired := fired + more;
      assert Moved(s, e, doc) == Out(b.state, a.fired + b.fired);
    }

    /** The first half of `mouseMoved`. */
    method StartStep(e: MouseEvent, doc: Document) returns (fired: seq<Event>)
      requires Valid()
      modifies drag, DropObject()
      ensures drag.Valid()
      ensures Out(State(), fired) == StartPhase(old(State()), e, doc)
    {
      ghost var s := State();
      var dragging, calls := drag.CalculateDraggingElement(e);
      ghost var c := Calculate(s.drag, e, AllDragListeners);
      assert DropState() == s.drop;
      fired := [];
      if calls != [] {
        fired := OnDragStartDecorator(calls[0].e, calls[0].press, doc);
      }
    }

    /** The second half of `mouseMoved`. */
    method FrameStep(e: MouseEvent, doc: Document) returns (fired: seq<Event>)
      requires Repr == {this, drag, DropObject()} && drag.element == element && drag.listeners == AllDragListeners
      requires drag.Valid()
      modifies drag, DropObject()
      ensures drag.Valid()
      ensures Out(State(), fired) == FramePhase(old(State()), e, doc)
    {
      ghost var s := State();
      var frameCalls := drag.OnDragging(e);
      ghost var f := Frame(s.drag, e, s.mode, AllDragListeners);
      assert DropState() == s.drop;
      fired := [];
      if frameCalls != [] {
        fired := OnDraggingDecorator(frameCalls[0].e, frameCalls[0].press, doc);
      }
    }

    method StopDragging(e: MouseEvent) returns (fired: seq<Event>)
      requires Valid()
      modifies Repr
      ensures Valid() && Repr == old(Repr)
      ensures Out(State(), fired) == Released(old(State()), e)
    {
      ghost var s := State();
      ReleaseKeeps(s, e);
      var calls := drag.StopDragging(e);
      ghost var st := Stop(s.drag, e, AllDragListeners);
      assert DropState() == s.drop;
      assert State() == s.(drag := st.state);
      fired := [];
      if calls != [] {
        fired := OnDragEndDecorator(calls[0].e, calls[0].press);
        assert Out(State(), fired) == EndHook(s.(drag := st.state), e, s.drag.press.value);
      }
    }

    /** Replaces the drop side with a fresh `DropModel`. */
    method AddDrop(dropSelector: string, options: DropOptions)
      requires Valid()
      modifies this
      ensures Valid() && fresh(Repr - old(Repr)) && this in Repr && drag in Repr
      ensures State() == DropAdded(old(State()), dropSelector, options)
    {
      var m := new DropModel(dropSelector, options);
      drop := ModelSlot(m);
      Repr := {this, drag, m};
    }

    /** The drag-start decorator: open the drop zones, then call the user's `onDragStart`. */
    method OnDragStartDecorator(e: MouseEvent, press: MouseEvent, doc: Document) returns (fired: seq<Event>)
      modifies DropObject()
      ensures Out(State(), fired) == StartHook(old(State()), e, press, doc)
    {
      match drop {
        case EmptySlot(m) => m.OpenDropZones(doc);
        case ModelSlot(m) => m.OpenDropZones(doc);
      }
      fired := When(user.onDragStart, [DragStart(e, press)]);
    }

    /** The dragging decorator: update the collisions, then call the user's `onDragging`. */
    method OnDraggingDecorator(e: MouseEvent, press: MouseEvent, doc: Document) returns (fired: seq<Event>)
      modifies DropObject()
      ensures Out(State(), fired) == DraggingHook(old(State()), e, press, doc)
    {
      match drop {
        case EmptySlot(m) => fired := m.HandleDropZoneCollisions(e, element, doc);
        case ModelSlot(m) => fired := m.HandleDropZoneCollisions(e, element, doc);
      }
      fired := fired + When(user.onDragging, [Dragging(e, press)]);
    }

    /** The drag-end decorator: call the user's `onDragEnd`, then drop on the colliding zones. */
    method OnDragEndDecorator(e: MouseEvent, press: MouseEvent) returns (fired: seq<Event>)
      modifies DropObject()
      ensures Out(State(), fired) == EndHook(old(State()), e, press)
    {
      fired := When(user.onDragEnd, [DragEnd(e, press)]);
      var drops: seq<Event>;
      match drop {
        case EmptySlot(m) => drops := m.TryDropOnCurrentCursorLocation(e, element);
        case ModelSlot(m) => drops := m.TryDropOnCurrentCursorLocation(e, element);
      }
      fired := fired + drops;
    }
  }
}
