/**
 * `DropModel` and its null object `EmptyDropModel` (src/models/dropModel.ts):
 * a snapshot of the drop-zone elements, taken when zones are opened, and the
 * zones the pointer currently collides with.
 */
module DropModels {
  import opened Wrappers
  import opened Dom
  import opened Geometry
  import opened Listeners
  import opened Zones

  /** The mutable fields of a `DropModel`: `zones` is `None` while not opened. */
  datatype DropSnapshot = DropSnapshot(zones: Option<seq<ElemId>>, colliding: seq<ElemId>)

  const Fresh := DropSnapshot(None, [])

  /** The `canDrop` getter. */
  predicate CanDropOn(s: DropSnapshot) {
    s.zones.Some? && |s.zones.value| > 0
  }

  /** `openDropZones`, given what the selector matches at this instant. */
  function Opened(s: DropSnapshot, matched: seq<ElemId>): DropSnapshot {
    s.(zones := Some(matched))
  }

  /** `closeDropZones`. */
  function Closed(s: DropSnapshot): DropSnapshot {
    s.(zones := None)
  }

  /** `handleDropZoneCollisions`: recompute the colliding zones and report the difference. */
  function Collided(s: DropSnapshot, e: MouseEvent, dragged: ElemId, rect: ElemId -> Rect, l: DropListeners): Out<DropSnapshot> {
    if s.zones.None? then Out(s, [])
    else
      var now := Colliding(e, s.zones.value, rect);
      Out(s.(colliding := now), CollisionEvents(e, dragged, s.colliding, now, l))
  }

  /** `tryDropOnCurrentCursorLocation`: drop on every colliding zone, then forget them. */
  function Dropped(s: DropSnapshot, e: MouseEvent, dragged: ElemId, l: DropListeners): Out<DropSnapshot> {
    Out(s.(colliding := []), When(l.onDrop, ZoneEvents(Drop, e, dragged, s.colliding)))
  }

  /** `canDrop` holds exactly after opening a non-empty set of zones, and never after closing. */
  lemma CanDropAfterOpenClose(s: DropSnapshot, matched: seq<ElemId>)
    ensures CanDropOn(Opened(s, matched)) <==> |matched| > 0
    ensures !CanDropOn(Closed(s))
  {
  }

  /**
   * After an update on opened zones, the colliding list is the sub-list of the
   * snapshot whose rectangles contain the pointer (edges included); leave
   * fires for exactly the zones that stopped colliding, enter for exactly the
   * ones that started, all leaves before all enters, and a zone colliding both
   * before and after gets no call. On unopened zones nothing happens.
   */
  lemma CollisionUpdate(s: DropSnapshot, e: MouseEvent, dragged: ElemId, rect: ElemId -> Rect, l: DropListeners)
    ensures s.zones.None? ==> Collided(s, e, dragged, rect, l) == Out(s, [])
    ensures s.zones.Some? ==>
      var r := Collided(s, e, dragged, rect, l);
      && r.state.zones == s.zones
      && IsSubsequence(r.state.colliding, s.zones.value)
      && (forall z :: z in r.state.colliding <==> z in s.zones.value && Contains(rect(z), e.clientX, e.clientY))
      && (forall z :: Zone(Leave, e, dragged, z) in r.fired <==> l.onLeave && z in s.colliding && z !in r.state.colliding)
      && (forall z :: Zone(Enter, e, dragged, z) in r.fired <==> l.onEnter && z in r.state.colliding && z !in s.colliding)
      && (forall ev :: ev in r.fired ==> ev.Zone? && ev.kind != Drop && ev.e == e && ev.dragged == dragged)
      && (forall z, k :: z in s.colliding && z in r.state.colliding ==> Zone(k, e, dragged, z) !in r.fired)
      && LeavesBeforeEnters(r.fired)
  {
    if s.zones.Some? {
      var now := Colliding(e, s.zones.value, rect);
      var fired := CollisionEvents(e, dragged, s.colliding, now, l);
      assert Collided(s, e, dragged, rect, l) == Out(s.(colliding := now), fired);
      CollisionEventsSpec(e, dragged, s.colliding, now, l);
      forall z, k | z in s.colliding && z in now
        ensures Zone(k, e, dragged, z) !in fired
      {
        if k == Drop {
          assert !Zone(k, e, dragged, z).Zone? || Zone(k, e, dragged, z).kind == Drop;
        }
      }
    }
  }

  /** A drop fires once per colliding zone in list order, and a second drop fires nothing. */
  lemma DropIdempotent(s: DropSnapshot, e: MouseEvent, e2: MouseEvent, dragged: ElemId, l: DropListeners)
    ensures var r := Dropped(s, e, dragged, l);
      && r.state.colliding == [] && r.state.zones == s.zones
      && |r.fired| == (if l.onDrop then |s.colliding| else 0)
      && (forall i :: 0 <= i < |r.fired| ==> r.fired[i] == Zone(Drop, e, dragged, s.colliding[i]))
      && Dropped(r.state, e2, dragged, l) == Out(r.state, [])
  {
  }

  /** A pointer sample: the event and the zone rectangles at that frame. */
  datatype Sample = Sample(e: MouseEvent, rect: ElemId -> Rect)

  /** A run of collision updates. */
  function CollidedMany(s: DropSnapshot, frames: seq<Sample>, dragged: ElemId, l: DropListeners): Out<DropSnapshot>
    decreases |frames|
  {
    if frames == [] then Out(s, [])
    else
      var first := Collided(s, frames[0].e, dragged, frames[0].rect, l);
      var rest := CollidedMany(first.state, frames[1..], dragged, l);
      Out(rest.state, first.fired + rest.fired)
  }

  /** Whether `z` collides at each frame. */
  function Membership(z: ElemId, zones: seq<ElemId>, frames: seq<Sample>): (ins: seq<bool>)
    ensures |ins| == |frames|
  {
    seq(|frames|, i requires 0 <= i < |frames| => z in Colliding(frames[i].e, zones, frames[i].rect))
  }

  /** The calls a zone should get when its membership goes `wasIn`, `ins[0]`, `ins[1]`, ... */
  function Transitions(wasIn: bool, ins: seq<bool>, l: DropListeners): seq<ZoneKind>
    decreases |ins|
  {
    if ins == [] then []
    else
      (if wasIn && !ins[0] && l.onLeave then [Leave]
       else if !wasIn && ins[0] && l.onEnter then [Enter]
       else [])
      + Transitions(ins[0], ins[1..], l)
  }

  /**
   * Over any run of updates on duplicate-free opened zones, a zone gets a
   * leave each time it stops colliding and an enter each time it starts, and
   * nothing else.
   */
  lemma {:induction false} ZoneHistory(z: ElemId, s: DropSnapshot, frames: seq<Sample>, dragged: ElemId, l: DropListeners)
    requires s.zones.Some? && NoDuplicates(s.zones.value) && NoDuplicates(s.colliding)
    ensures KindsFor(z, CollidedMany(s, frames, dragged, l).fired)
         == Transitions(z in s.colliding, Membership(z, s.zones.value, frames), l)
    decreases |frames|
  {
    if frames != [] {
      var first := Collided(s, frames[0].e, dragged, frames[0].rect, l);
      CollidedKinds(z, s, frames[0].e, dragged, frames[0].rect, l);
      var rest := CollidedMany(first.state, frames[1..], dragged, l);
      ZoneHistory(z, first.state, frames[1..], dragged, l);
      KindsForAppend(z, first.fired, rest.fired);
      assert CollidedMany(s, frames, dragged, l).fired == first.fired + rest.fired;
      var ins := Membership(z, s.zones.value, frames);
      assert ins[0] == (z in first.state.colliding);
      assert ins[1..] == Membership(z, s.zones.value, frames[1..]);
      assert Transitions(z in s.colliding, ins, l) == KindsFor(z, first.fired) + Transitions(ins[0], ins[1..], l);
    }
  }

  /** One update, seen from a single zone: a leave when it stops colliding, an enter when it starts. */
  lemma CollidedKinds(z: ElemId, s: DropSnapshot, e: MouseEvent, dragged: ElemId, rect: ElemId -> Rect, l: DropListeners)
    requires s.zones.Some? && NoDuplicates(s.zones.value) && NoDuplicates(s.colliding)
    ensures var r := Collided(s, e, dragged, rect, l);
      var was, now := z in s.colliding, z in r.state.colliding;
      && r.state == s.(colliding := Colliding(e, s.zones.value, rect))
      && NoDuplicates(r.state.colliding)
      && KindsFor(z, r.fired)
         == if was && !now && l.onLeave then [Leave] else if !was && now && l.onEnter then [Enter] else []
  {
    var now := Colliding(e, s.zones.value, rect);
    SubsequenceNoDuplicates(now, s.zones.value);
    CollisionEventsFor(z, e, dragged, s.colliding, now, l);
  }

  function Other(k: ZoneKind): ZoneKind {
    if k == Enter then Leave else Enter
  }

  /** `k` is `first`, the other one, `first`, ... */
  predicate Alternates(k: seq<ZoneKind>, first: ZoneKind) {
    forall i :: 0 <= i < |k| ==> k[i] == (if i % 2 == 0 then first else Other(first))
  }

  /**
   * With both listeners present, a zone's calls alternate: enter, leave,
   * enter, ... when it starts outside, leave, enter, ... when it starts inside.
   */
  lemma {:induction false} TransitionsAlternate(wasIn: bool, ins: seq<bool>, l: DropListeners)
    requires l.onEnter && l.onLeave
    ensures Alternates(Transitions(wasIn, ins, l), if wasIn then Leave else Enter)
    decreases |ins|
  {
    if ins != [] {
      TransitionsAlternate(ins[0], ins[1..], l);
      var first := if wasIn then Leave else Enter;
      var k := Transitions(wasIn, ins, l);
      var tail := Transitions(ins[0], ins[1..], l);
      if ins[0] == wasIn {
        assert k == tail;
      } else {
        assert k == [first] + tail;
        assert Alternates(tail, Other(first));
        forall i | 1 <= i < |k|
          ensures k[i] == (if i % 2 == 0 then first else Other(first))
        {
          assert k[i] == tail[i - 1];
          assert (i % 2 == 0) == ((i - 1) % 2 != 0);
        }
      }
    }
  }

  /**
   * The zone ends up colliding exactly when it got an odd number of calls
   * away from where it started.
   */
  lemma {:induction false} TransitionsTrackMembership(wasIn: bool, ins: seq<bool>, l: DropListeners)
    requires l.onEnter && l.onLeave && ins != []
    ensures (|Transitions(wasIn, ins, l)| % 2 == 1) <==> (ins[|ins| - 1] != wasIn)
    decreases |ins|
  {
    if |ins| > 1 {
      TransitionsTrackMembership(ins[0], ins[1..], l);
    }
  }

  /** Interface `IDropModel`'s null object: no zones, no calls, no state. */
  class EmptyDropModel {
    constructor() {}

    function CanDrop(): (b: bool)
      ensures !b
    {
      false
    }

    /** Opening snapshots nothing: the null drop model still cannot drop. */
    method OpenDropZones(doc: Document)
      ensures !CanDrop()
    {
    }

    /** Closing has nothing to release: the null drop model still cannot drop. */
    method CloseDropZones()
      ensures !CanDrop()
    {
    }

    method HandleDropZoneCollisions(e: MouseEvent, dragElement: ElemId, doc: Document) returns (fired: seq<Event>)
      ensures fired == []
    {
      fired := [];
    }

    method TryDropOnCurrentCursorLocation(e: MouseEvent, dragElement: ElemId) returns (fired: seq<Event>)
      ensures fired == []
    {
      fired := [];
    }
  }

  class DropModel {
    const selector: string
    const listeners: DropListeners

    var zones: Option<seq<ElemId>>
    var colliding: seq<ElemId>

    function State(): DropSnapshot
      reads this
    {
      DropSnapshot(zones, colliding)
    }

    constructor(dropSelector: string, options: DropOptions)
      ensures selector == dropSelector && listeners == DropListenersOrNone(options.dropListeners)
      ensures State() == Fresh
    {
      selector := dropSelector;
      listeners := DropListenersOrNone(options.dropListeners);
      zones := None;
      colliding := [];
    }

    /** There is a snapshot holding at least one zone to drop on. */
    predicate CanDrop(): (b: bool)
      reads this
      ensures b <==> zones.Some? && zones.value != []
    {
      CanDropOn(State())
    }

    /** Snapshots what the selector matches in `doc` now. */
    method OpenDropZones(doc: Document)
      modifies this
      ensures State() == Opened(old(State()), doc.select(selector))
    {
      zones := Some(doc.select(selector));
    }

    method CloseDropZones()
      modifies this
      ensures State() == Closed(old(State()))
    {
      zones := None;
    }

    method HandleDropZoneCollisions(e: MouseEvent, dragElement: ElemId, doc: Document) returns (fired: seq<Event>)
      modifies this
      ensures Out(State(), fired) == Collided(old(State()), e, dragElement, doc.boundingRect, listeners)
    {
      fired := [];
      if zones.None? {
        return;
      }
      var now := GetCollidingDropZoneElements(e, zones.value, doc);
      fired := FireCollisionEvents(e, dragElement, colliding, now, listeners);
      colliding := now;
    }

    method TryDropOnCurrentCursorLocation(e: MouseEvent, dragElement: ElemId) returns (fired: seq<Event>)
      modifies this
      ensures Out(State(), fired) == Dropped(old(State()), e, dragElement, listeners)
    {
      fired := FireDrops(e, dragElement, colliding, listeners);
      colliding := [];
    }

    /** The `filter` over the snapshot by each zone's bounding rectangle. */
    function GetCollidingDropZoneElements(e: MouseEvent, dropZones: seq<ElemId>, doc: Document): (r: seq<ElemId>)
      ensures forall z :: z in r <==> z in dropZones && Contains(doc.boundingRect(z), e.clientX, e.clientY)
      ensures IsSubsequence(r, dropZones)
    {
      Colliding(e, dropZones, doc.boundingRect)
    }
  }
}
