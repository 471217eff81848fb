/**
 * The listener calls a drop-zone update makes, shared by the legacy
 * `DragState.handleDropZone`/`stopDragging` and by `DropModel`: leave events
 * for the zones the pointer left, then enter events for the zones it entered,
 * and on release one drop event per colliding zone.
 */
module Zones {
  import opened Dom
  import opened Geometry
  import opened Listeners

  /** One `kind` event per zone of `zones`, in order. */
  function ZoneEvents(kind: ZoneKind, e: MouseEvent, dragged: ElemId, zones: seq<ElemId>): (r: seq<Event>)
    ensures |r| == |zones|
    ensures forall i :: 0 <= i < |zones| ==> r[i] == Zone(kind, e, dragged, zones[i])
  {
    seq(|zones|, i requires 0 <= i < |zones| => Zone(kind, e, dragged, zones[i]))
  }

  /** The calls to a listener that may be absent: none when it is absent. */
  function When(present: bool, calls: seq<Event>): seq<Event> {
    if present then calls else []
  }

  /** No enter event is followed by a leave event. */
  predicate LeavesBeforeEnters(evs: seq<Event>) {
    forall i, j :: 0 <= i < j < |evs| && evs[i].Zone? && evs[j].Zone? ==>
      !(evs[i].kind == Enter && evs[j].kind == Leave)
  }

  /**
   * What one collision update fires when the colliding list goes from
   * `before` to `after`.
   */
  function CollisionEvents(e: MouseEvent, dragged: ElemId, before: seq<ElemId>, after: seq<ElemId>, l: DropListeners): seq<Event> {
    When(l.onLeave, ZoneEvents(Leave, e, dragged, Without(before, after)))
      + When(l.onEnter, ZoneEvents(Enter, e, dragged, Without(after, before)))
  }

  /**
   * A collision update calls leave for exactly the zones that stopped
   * colliding and enter for exactly the zones that started (each only when
   * that listener is present), makes no other call, and makes every leave
   * call before any enter call.
   */
  lemma CollisionEventsSpec(e: MouseEvent, dragged: ElemId, before: seq<ElemId>, after: seq<ElemId>, l: DropListeners)
    ensures var r := CollisionEvents(e, dragged, before, after, l);
      && (forall z :: Zone(Leave, e, dragged, z) in r <==> l.onLeave && z in before && z !in after)
      && (forall z :: Zone(Enter, e, dragged, z) in r <==> l.onEnter && z in after && z !in before)
      && (forall ev :: ev in r ==> ev.Zone? && ev.kind != Drop && ev.e == e && ev.dragged == dragged)
      && LeavesBeforeEnters(r)
  {
  }

  lemma ZoneEventsSnoc(kind: ZoneKind, e: MouseEvent, dragged: ElemId, zones: seq<ElemId>, z: ElemId)
    ensures ZoneEvents(kind, e, dragged, zones + [z]) == ZoneEvents(kind, e, dragged, zones) + [Zone(kind, e, dragged, z)]
  {
  }

  lemma WithoutPrefix(xs: seq<ElemId>, ys: seq<ElemId>, i: nat)
    requires i < |xs|
    ensures Without(xs[..i + 1], ys) == if xs[i] in ys then Without(xs[..i], ys) else Without(xs[..i], ys) + [xs[i]]
  {
    assert xs[..i + 1][..i] == xs[..i];
  }

  /**
   * One `forEach` loop of a collision update: a `kind` call for each zone of
   * `xs` that `find` does not locate in `ys`.
   */
  method FireMissing(kind: ZoneKind, e: MouseEvent, dragged: ElemId, xs: seq<ElemId>, ys: seq<ElemId>, present: bool)
    returns (fired: seq<Event>)
    ensures fired == When(present, ZoneEvents(kind, e, dragged, Without(xs, ys)))
  {
    fired := [];
    var i := 0;
    while i < |xs|
      invariant 0 <= i <= |xs|
      invariant fired == When(present, ZoneEvents(kind, e, dragged, Without(xs[..i], ys)))
    {
      WithoutPrefix(xs, ys, i);
      ZoneEventsSnoc(kind, e, dragged, Without(xs[..i], ys), xs[i]);
      if xs[i] !in ys && present {
        fired := fired + [Zone(kind, e, dragged, xs[i])];
      }
      i := i + 1;
    }
    assert xs[..|xs|] == xs;
  }

  /**
   * The two loops of a collision update: leave for each old colliding zone
   * that is not colliding any more, then enter for each new one that was not
   * colliding before. Zones in both lists get no call.
   */
  method FireCollisionEvents(e: MouseEvent, dragged: ElemId, before: seq<ElemId>, after: seq<ElemId>, l: DropListeners)
    returns (fired: seq<Event>)
    ensures fired == CollisionEvents(e, dragged, before, after, l)
  {
    var leaves := FireMissing(Leave, e, dragged, before, after, l.onLeave);
    var enters := FireMissing(Enter, e, dragged, after, before, l.onEnter);
    fired := leaves + enters;
  }

  /** The drop loop on release: one drop call per colliding zone, in list order. */
  method FireDrops(e: MouseEvent, dragged: ElemId, colliding: seq<ElemId>, l: DropListeners)
    returns (fired: seq<Event>)
    ensures fired == When(l.onDrop, ZoneEvents(Drop, e, dragged, colliding))
  {
    fired := [];
    if l.onDrop {
      var i := 0;
      while i < |colliding|
        invariant 0 <= i <= |colliding|
        invariant fired == ZoneEvents(Drop, e, dragged, colliding[..i])
      {
        assert colliding[..i + 1] == colliding[..i] + [colliding[i]];
        ZoneEventsSnoc(Drop, e, dragged, colliding[..i], colliding[i]);
        fired := fired + [Zone(Drop, e, dragged, colliding[i])];
        i := i + 1;
      }
      assert colliding[..|colliding|] == colliding;
    }
  }

  /** The kinds of the zone events about `z`, in order. */
  function KindsFor(z: ElemId, evs: seq<Event>): seq<ZoneKind> {
    if evs == [] then []
    else (if evs[0].Zone? && evs[0].zone == z then [evs[0].kind] else []) + KindsFor(z, evs[1..])
  }

  lemma {:induction false} KindsForAppend(z: ElemId, a: seq<Event>, b: seq<Event>)
    ensures KindsFor(z, a + b) == KindsFor(z, a) + KindsFor(z, b)
  {
    if a == [] {
      assert a + b == b;
    } else {
      assert (a + b)[0] == a[0];
      assert (a + b)[1..] == a[1..] + b;
      KindsForAppend(z, a[1..], b);
    }
  }

  /** Over a duplicate-free zone list, `z` gets exactly one event if listed and none otherwise. */
  lemma {:induction false} KindsForZoneEvents(z: ElemId, kind: ZoneKind, e: MouseEvent, dragged: ElemId, zones: seq<ElemId>)
    requires NoDuplicates(zones)
    ensures KindsFor(z, ZoneEvents(kind, e, dragged, zones)) == if z in zones then [kind] else []
  {
    if zones != [] {
      var evs := ZoneEvents(kind, e, dragged, zones);
      assert evs[1..] == ZoneEvents(kind, e, dragged, zones[1..]);
      assert NoDuplicates(zones[1..]);
      KindsForZoneEvents(z, kind, e, dragged, zones[1..]);
      assert z in zones <==> z == zones[0] || z in zones[1..];
      assert zones[0] !in zones[1..];
    }
  }

  /**
   * For one zone, a collision update fires a single leave when the zone stops
   * colliding, a single enter when it starts, and nothing otherwise.
   */
  lemma {:induction false} CollisionEventsFor(z: ElemId, e: MouseEvent, dragged: ElemId, before: seq<ElemId>, after: seq<ElemId>, l: DropListeners)
    requires NoDuplicates(before) && NoDuplicates(after)
    ensures KindsFor(z, CollisionEvents(e, dragged, before, after, l)) ==
      (if l.onLeave && z in before && z !in after then [Leave] else [])
      + (if l.onEnter && z in after && z !in before then [Enter] else [])
  {
    var leaving, entering := Without(before, after), Without(after, before);
    SubsequenceNoDuplicates(leaving, before);
    SubsequenceNoDuplicates(entering, after);
    KindsForAppend(z, When(l.onLeave, ZoneEvents(Leave, e, dragged, leaving)), When(l.onEnter, ZoneEvents(Enter, e, dragged, entering)));
    KindsForZoneEvents(z, Leave, e, dragged, leaving);
    KindsForZoneEvents(z, Enter, e, dragged, entering);
  }
}
