/**
 * The library's entry point (`src/dndLaforce.ts`): a module-level list of
 * `DnDModel`s, the two document listeners that forward every `mouseup` and
 * `mousemove` to all of them, and the `drag`/`drop` builders. The option
 * defaults are module-level objects that `Object.assign` merges the caller's
 * options INTO, so they are state here: each builder call overwrites the
 * keys its options carry and keeps the rest.
 */
module Laforce {
  import opened Wrappers
  import opened Dom
  import opened Listeners
  import opened DnDModels

  predicate AllInvariant(ss: seq<DnDSnapshot>) {
    forall i :: 0 <= i < |ss| ==> Invariant(ss[i])
  }

  /**
   * The effect of a handler that forwards one event to every model in
   * registration order, given each model's own step: every model's new
   * value, and all the calls, model by model.
   */
  function Gather(outs: seq<Out<DnDSnapshot>>): (r: Out<seq<DnDSnapshot>>)
    ensures |r.state| == |outs|
    decreases |outs|
  {
    if outs == [] then Out([], [])
    else
      var n := |outs| - 1;
      var init := Gather(outs[..n]);
      Out(init.state + [outs[n].state], init.fired + outs[n].fired)
  }

  /** Each model ends up exactly as its own step leaves it. */
  lemma {:induction false} GatherPointwise(outs: seq<Out<DnDSnapshot>>, i: nat)
    requires i < |outs|
    ensures Gather(outs).state[i] == outs[i].state
    decreases |outs|
  {
    var n := |outs| - 1;
    if i < n {
      GatherPointwise(outs[..n], i);
    }
  }

  /** One more model handled: the prefix result grows by that model's own step. */
  lemma GatherStep(outs: seq<Out<DnDSnapshot>>, i: nat)
    requires i < |outs|
    ensures var init := Gather(outs[..i]);
      Gather(outs[..i + 1]) == Out(init.state + [outs[i].state], init.fired + outs[i].fired)
  {
    assert outs[..i + 1][..i] == outs[..i];
  }

  /** When no model makes a call, the handler makes none. */
  lemma {:induction false} GatherQuiet(outs: seq<Out<DnDSnapshot>>)
    requires forall j :: 0 <= j < |outs| ==> outs[j].fired == []
    ensures Gather(outs).fired == []
    decreases |outs|
  {
    if outs != [] {
      GatherQuiet(outs[..|outs| - 1]);
    }
  }

  /** When every model but `k` makes no call, the handler's calls are exactly those of model `k`. */
  lemma {:induction false} GatherOnlyOne(outs: seq<Out<DnDSnapshot>>, k: nat)
    requires k < |outs|
    requires forall j :: 0 <= j < |outs| && j != k ==> outs[j].fired == []
    ensures Gather(outs).fired == outs[k].fired
    decreases |outs|
  {
    var n := |outs| - 1;
    if k < n {
      GatherOnlyOne(outs[..n], k);
    } else {
      GatherQuiet(outs[..n]);
    }
  }

  /** Every model's own `stopDragging`. */
  function Releases(ss: seq<DnDSnapshot>, e: MouseEvent): seq<Out<DnDSnapshot>>
    requires AllInvariant(ss)
  {
    seq(|ss|, i requires 0 <= i < |ss| => Released(ss[i], e))
  }

  /** Every model's own `mouseMoved`. */
  function Moves(ss: seq<DnDSnapshot>, e: MouseEvent, doc: Document): seq<Out<DnDSnapshot>>
    requires AllInvariant(ss)
  {
    seq(|ss|, i requires 0 <= i < |ss| => Moved(ss[i], e, doc))
  }

  /** `mouseUpDragHandler` on the models' values. */
  function StopAll(ss: seq<DnDSnapshot>, e: MouseEvent): Out<seq<DnDSnapshot>>
    requires AllInvariant(ss)
  {
    Gather(Releases(ss, e))
  }

  /** `mouseMoveDragHandler` on the models' values. */
  function MoveAll(ss: seq<DnDSnapshot>, e: MouseEvent, doc: Document): Out<seq<DnDSnapshot>>
    requires AllInvariant(ss)
  {
    Gather(Moves(ss, e, doc))
  }

  /** A `mouseup` stops every model as its own release would, and every model keeps its invariants. */
  lemma StopAllPointwise(ss: seq<DnDSnapshot>, e: MouseEvent)
    requires AllInvariant(ss)
    ensures var r := StopAll(ss, e);
      && |r.state| == |ss| && AllInvariant(r.state)
      && forall i :: 0 <= i < |ss| ==> r.state[i] == Released(ss[i], e).state
  {
    var r := StopAll(ss, e);
    forall i | 0 <= i < |ss|
      ensures r.state[i] == Released(ss[i], e).state && Invariant(r.state[i])
    {
      GatherPointwise(Releases(ss, e), i);
      ReleaseKeeps(ss[i], e);
    }
  }

  /** A `mousemove` moves every model as its own move would, and every model keeps its invariants. */
  lemma MoveAllPointwise(ss: seq<DnDSnapshot>, e: MouseEvent, doc: Document)
    requires AllInvariant(ss)
    ensures var r := MoveAll(ss, e, doc);
      && |r.state| == |ss| && AllInvariant(r.state)
      && forall i :: 0 <= i < |ss| ==> r.state[i] == Moved(ss[i], e, doc).state
  {
    var r := MoveAll(ss, e, doc);
    forall i | 0 <= i < |ss|
      ensures r.state[i] == Moved(ss[i], e, doc).state && Invariant(r.state[i])
    {
      GatherPointwise(Moves(ss, e, doc), i);
      MoveKeeps(ss[i], e, doc);
    }
  }

  /**
   * Every `mouseup` goes to every model, but when at most one model is
   * pressed only that one reacts: the calls are exactly its own and the other
   * models are unchanged.
   */
  lemma ReleaseReachesOnlyPressed(ss: seq<DnDSnapshot>, e: MouseEvent, k: nat)
    requires AllInvariant(ss) && k < |ss|
    requires forall i :: 0 <= i < |ss| && i != k ==> !ss[i].drag.isMouseDown
    ensures StopAll(ss, e).fired == Released(ss[k], e).fired
    ensures forall i :: 0 <= i < |ss| && i != k ==> StopAll(ss, e).state[i] == ss[i]
  {
    var outs := Releases(ss, e);
    forall j | 0 <= j < |ss| && j != k
      ensures outs[j] == Out(ss[j], [])
    {
      IdleReleaseIsNoOp(ss[j], e);
    }
    GatherOnlyOne(outs, k);
    StopAllPointwise(ss, e);
  }

  /**
   * Every `mousemove` goes to every model, but when at most one model is
   * pressed only that one reacts: the calls are exactly its own and the other
   * models are unchanged.
   */
  lemma MoveReachesOnlyPressed(ss: seq<DnDSnapshot>, e: MouseEvent, doc: Document, k: nat)
    requires AllInvariant(ss) && k < |ss|
    requires forall i :: 0 <= i < |ss| && i != k ==> !ss[i].drag.isMouseDown
    ensures MoveAll(ss, e, doc).fired == Moved(ss[k], e, doc).fired
    ensures forall i :: 0 <= i < |ss| && i != k ==> MoveAll(ss, e, doc).state[i] == ss[i]
  {
    var outs := Moves(ss, e, doc);
    forall j | 0 <= j < |ss| && j != k
      ensures outs[j] == Out(ss[j], [])
    {
      MoveWithoutPressIsQuiet(ss[j], e, doc);
    }
    GatherOnlyOne(outs, k);
    MoveAllPointwise(ss, e, doc);
  }

  /** The models `dragBuilder` creates for the matched elements, in document order. */
  function Built(elements: seq<ElemId>, options: DragOptions): (r: seq<DnDSnapshot>)
    ensures |r| == |elements| && AllInvariant(r)
    ensures forall i :: 0 <= i < |elements| ==> r[i].element == elements[i] && r[i].drag == DragModels.Idle
  {
    seq(|elements|, i requires 0 <= i < |elements| => Created(elements[i], options.mode, options.dragListeners.GetOr([])))
  }

  /** The models after `dropBuilder`: every one of them gets a fresh drop model with the same selector and options. */
  function DropAddedAll(ss: seq<DnDSnapshot>, selector: string, options: DropOptions): seq<DnDSnapshot> {
    seq(|ss|, i requires 0 <= i < |ss| => DropAdded(ss[i], selector, options))
  }

  /**
   * After `dropBuilder` every model, old or new, has an unopened drop side
   * with the given selector and listeners, and nothing else about any model
   * changed; the invariants survive.
   */
  lemma DropReachesAll(ss: seq<DnDSnapshot>, selector: string, options: DropOptions)
    requires AllInvariant(ss)
    ensures var r := DropAddedAll(ss, selector, options);
      && |r| == |ss| && AllInvariant(r)
      && (forall i :: 0 <= i < |ss| ==>
            && r[i].drop == DropZones(selector, DropListenersOrNone(options.dropListeners), DropModels.Fresh)
            && r[i].drag == ss[i].drag && r[i].element == ss[i].element
            && r[i].mode == ss[i].mode && r[i].user == ss[i].user)
  {
  }

  /**
   * `Object.assign(initialDragOptions, options)`: every key the options carry
   * overwrites the default, every key they lack keeps it, and `null` or
   * `undefined` options carry no key. The result is also what the defaults
   * become, since `Object.assign` writes into them.
   */
  function MergedDrag(defaults: DragOptions, options: Option<GivenDragOptions>): (r: DragOptions)
    ensures options.Some? && options.value.mode.Some? ==> r.mode == options.value.mode.value
    ensures options.None? || options.value.mode.None? ==> r.mode == defaults.mode
    ensures options.Some? && options.value.dragListeners.Some? ==> r.dragListeners == options.value.dragListeners.value
    ensures options.None? || options.value.dragListeners.None? ==> r.dragListeners == defaults.dragListeners
  {
    var given := options.GetOr(GivenDragOptions(None, None));
    DragOptions(given.mode.GetOr(defaults.mode), given.dragListeners.GetOr(defaults.dragListeners))
  }

  /** `Object.assign(initialDropOptions, options)`, key by key as for the drag options. */
  function MergedDrop(defaults: DropOptions, options: Option<GivenDropOptions>): (r: DropOptions)
    ensures options.Some? && options.value.dropListeners.Some? ==> r.dropListeners == options.value.dropListeners.value
    ensures options.None? || options.value.dropListeners.None? ==> r.dropListeners == defaults.dropListeners
  {
    var given := options.GetOr(GivenDropOptions(None));
    DropOptions(given.dropListeners.GetOr(defaults.dropListeners))
  }

  /** Options that carry every declared key replace the defaults outright, whatever the defaults were. */
  lemma AllKeysReplace(dragDefaults: DragOptions, drag: DragOptions, dropDefaults: DropOptions, drop: DropOptions)
    ensures MergedDrag(dragDefaults, Some(AllDragKeys(drag))) == drag
    ensures MergedDrop(dropDefaults, Some(AllDropKeys(drop))) == drop
  {
  }

  /** Missing options, or an object with none of the keys, leave the defaults as they are. */
  lemma NoKeysKeep(dragDefaults: DragOptions, dropDefaults: DropOptions)
    ensures MergedDrag(dragDefaults, None) == dragDefaults
    ensures MergedDrag(dragDefaults, Some(GivenDragOptions(None, None))) == dragDefaults
    ensures MergedDrop(dropDefaults, None) == dropDefaults
    ensures MergedDrop(dropDefaults, Some(GivenDropOptions(None))) == dropDefaults
  {
  }

  /**
   * Merging is idempotent, and a later call changes only the keys it
   * carries: what an earlier call wrote into the defaults survives every
   * later call that omits that key.
   */
  lemma MergeSequence(d: DragOptions, first: Option<GivenDragOptions>, later: Option<GivenDragOptions>)
    ensures MergedDrag(MergedDrag(d, first), first) == MergedDrag(d, first)
    ensures var r := MergedDrag(MergedDrag(d, first), later);
      && (later.None? || later.value.mode.None? ==> r.mode == MergedDrag(d, first).mode)
      && (later.None? || later.value.dragListeners.None? ==> r.dragListeners == MergedDrag(d, first).dragListeners)
      && (later.Some? && later.value.mode.Some? ==> r.mode == later.value.mode.value)
      && (later.Some? && later.value.dragListeners.Some? ==> r.dragListeners == later.value.dragListeners.value)
  {
  }

  lemma BuiltSnoc(elements: seq<ElemId>, i: nat, options: DragOptions)
    requires i < |elements| && options.dragListeners.Some?
    ensures Built(elements[..i + 1], options)
         == Built(elements[..i], options) + [Created(elements[i], options.mode, options.dragListeners.value)]
  {
    var a, b := Built(elements[..i + 1], options), Built(elements[..i], options) + [Created(elements[i], options.mode, options.dragListeners.value)];
    assert |a| == |b|;
    forall k | 0 <= k < |a|
      ensures a[k] == b[k]
    {
    }
  }

  /** The module's state once `initialize` has installed the two document listeners. */
  class Registry {
    var models: seq<DnDModel>
    /** `initialDragOptions` and `initialDropOptions`, as the merges so far have left them. */
    var dragDefaults: DragOptions
    var dropDefaults: DropOptions
    ghost var states: seq<DnDSnapshot>
    ghost var Repr: set<object>

    ghost predicate Valid()
      reads this, Repr
    {
      && this in Repr
      && |states| == |models|
      && (forall i :: 0 <= i < |models| ==> models[i] in Repr && models[i].Repr <= Repr && this !in models[i].Repr)
      && (forall i :: 0 <= i < |models| ==> models[i].Valid() && models[i].State() == states[i])
      && (forall i, j :: 0 <= i < j < |models| ==> models[i].Repr !! models[j].Repr)
      && AllInvariant(states)
    }

    constructor()
      ensures Valid() && fresh(Repr)
      ensures models == [] && dragDefaults == InitialDragOptions && dropDefaults == InitialDropOptions
    {
      models := [];
      dragDefaults := InitialDragOptions;
      dropDefaults := InitialDropOptions;
      states := [];
      Repr := {this};
    }

    /** `dndModels.push`: appends a model whose objects are new to the registry. */
    method Push(m: DnDModel)
      requires Valid() && m.Valid() && m.Repr !! Repr
      modifies this
      ensures Valid() && Repr == old(Repr) + m.Repr
      ensures models == old(models) + [m] && states == old(states) + [m.State()]
      ensures dragDefaults == old(dragDefaults) && dropDefaults == old(dropDefaults)
    {
      models := models + [m];
      states := states + [m.State()];
      Repr := Repr + m.Repr;
    }

    /**
     * `dragBuilder(domSelector, options)`: merges the options into the drag
     * defaults, then creates one model per matched element, in document
     * order. A model's constructor throws when the merged options carry no
     * drag listener object; all elements share those options, so either
     * every matched element gets a model or (when something matched) the
     * first one throws and none does.
     */
    method DragBuilder(domSelector: string, options: Option<GivenDragOptions>, doc: Document) returns (err: Option<string>)
      requires Valid()
      modifies this
      ensures Valid() && old(Repr) <= Repr && fresh(Repr - old(Repr))
      ensures dragDefaults == MergedDrag(old(dragDefaults), options) && dropDefaults == old(dropDefaults)
      ensures err.Some? <==> dragDefaults.dragListeners.None? && |doc.select(domSelector)| > 0
      ensures err.Some? ==> err.value == ExtendError && models == old(models) && states == old(states)
      ensures err.None? ==>
        && |models| == |old(models)| + |doc.select(domSelector)| && models[..|old(models)|] == old(models)
        && states == old(states) + Built(doc.select(domSelector), dragDefaults)
    {
      var elements := doc.select(domSelector);
      var actual := MergedDrag(dragDefaults, options);
      dragDefaults := actual;
      ghost var start := states;
      assert Built(elements[..0], actual) == [];
      var i := 0;
      while i < |elements|
        invariant 0 <= i <= |elements|
        invariant Valid() && old(Repr) <= Repr && fresh(Repr - old(Repr))
        invariant dragDefaults == actual && dropDefaults == old(dropDefaults)
        invariant i > 0 ==> actual.dragListeners.Some?
        invariant |models| == |old(models)| + i && models[..|old(models)|] == old(models)
        invariant states == start + Built(elements[..i], actual)
      {
        ghost var before := models;
        err := Register(elements[i], actual);
        if err.Some? {
          assert i == 0 && elements[..i] == [] && models == models[..|old(models)|];
          return;
        }
        assert models[..|old(models)|] == before[..|old(models)|];
        BuiltSnoc(elements, i, actual);
        ghost var built := Built(elements[..i], actual);
        ghost var c := Created(elements[i], actual.mode, actual.dragListeners.value);
        assert states == (start + built) + [c] == start + (built + [c]);
        i := i + 1;
      }
      assert elements[..i] == elements;
      return None;
    }

    /** The `forEach` body of `dragBuilder`: create a model for one element and push it. */
    method Register(element: ElemId, options: DragOptions) returns (err: Option<string>)
      requires Valid()
      modifies this
      ensures Valid() && old(Repr) <= Repr && fresh(Repr - old(Repr))
      ensures dragDefaults == old(dragDefaults) && dropDefaults == old(dropDefaults)
      ensures err.Some? <==> options.dragListeners.None?
      ensures err.Some? ==> err.value == ExtendError && models == old(models) && states == old(states)
      ensures err.None? ==>
        && |models| == |old(models)| + 1 && models[..|old(models)|] == old(models)
        && states == old(states) + [Created(element, options.mode, options.dragListeners.value)]
    {
      var r := DnDModel.Create(element, options);
      if r.Failure? {
        return Some(r.error);
      }
      Push(r.value);
      assert models[..|old(models)|] == old(models);
      return None;
    }

    /**
     * `dropBuilder(domSelector, options)`: merges the options into the drop
     * defaults and gives every registered model, including those registered
     * by earlier `drag` calls, a fresh drop model for the selector.
     */
    method DropBuilder(domSelector: string, options: Option<GivenDropOptions>)
      requires Valid()
      modifies Repr
      ensures Valid() && old(Repr) <= Repr && fresh(Repr - old(Repr)) && models == old(models)
      ensures dropDefaults == MergedDrop(old(dropDefaults), options) && dragDefaults == old(dragDefaults)
      ensures states == DropAddedAll(old(states), domSelector, dropDefaults)
    {
      var actual := MergedDrop(dropDefaults, options);
      dropDefaults := actual;
      ghost var start := states;
      var i := 0;
      while i < |models|
        invariant 0 <= i <= |models| == |start|
        invariant Valid() && old(Repr) <= Repr && fresh(Repr - old(Repr)) && models == old(models)
        invariant dropDefaults == actual && dragDefaults == old(dragDefaults)
        invariant states[..i] == DropAddedAll(start[..i], domSelector, actual)
        invariant states[i..] == start[i..]
      {
        DropNext(i, domSelector, actual, start);
        i := i + 1;
      }
      assert states[..i] == states && start[..i] == start;
    }

    /** The `dropBuilder` loop step: model `i` gets its drop model. */
    method DropNext(i: nat, selector: string, options: DropOptions, ghost start: seq<DnDSnapshot>)
      requires Valid() && i < |models| == |start|
      requires states[..i] == DropAddedAll(start[..i], selector, options) && states[i..] == start[i..]
      modifies Repr
      ensures Valid() && old(Repr) <= Repr && fresh(Repr - old(Repr)) && models == old(models)
      ensures dragDefaults == old(dragDefaults) && dropDefaults == old(dropDefaults)
      ensures states[..i + 1] == DropAddedAll(start[..i + 1], selector, options) && states[i + 1..] == start[i + 1..]
    {
      ghost var before := states;
      assert before[i] == start[i];
      AddDropTo(i, selector, options);
      assert states[..i + 1] == before[..i] + [DropAdded(start[i], selector, options)];
      assert DropAddedAll(start[..i + 1], selector, options)
          == DropAddedAll(start[..i], selector, options) + [DropAdded(start[i], selector, options)];
      assert states[i + 1..] == before[i + 1..];
    }

    /** One model's `addDrop`, in place. */
    method AddDropTo(i: nat, selector: string, options: DropOptions)
      requires Valid() && i < |models|
      modifies this, models[i]
      ensures Valid() && old(Repr) <= Repr && fresh(Repr - old(Repr)) && models == old(models)
      ensures dragDefaults == old(dragDefaults) && dropDefaults == old(dropDefaults)
      ensures states == old(states)[i := DropAdded(old(states)[i], selector, options)]
    {
      var m := models[i];
      ghost var mRepr := m.Repr;
      m.AddDrop(selector, options);
      states := states[i := m.State()];
      Repr := Repr + m.Repr;
      forall j | 0 <= j < |models| && j != i
        ensures models[j].Repr !! m.Repr && models[j].Valid() && models[j].State() == states[j]
      {
        assert models[j].Repr !! mRepr && models[j].Repr <= old(Repr);
      }
    }

    method MouseUpDragHandler(e: MouseEvent) returns (fired: seq<Event>)
      requires Valid()
      modifies Repr
      ensures Valid() && Repr == old(Repr) && models == old(models)
      ensures dragDefaults == old(dragDefaults) && dropDefaults == old(dropDefaults)
      ensures Out(states, fired) == StopAll(old(states), e)
    {
      ghost var start := states;
      assert AllInvariant(start);
      ghost var outs := Releases(start, e);
      assert outs[..0] == [];
      fired := [];
      var i := 0;
      while i < |models|
        invariant 0 <= i <= |models| == |start|
        invariant models == old(models) && Repr == old(Repr) && Valid()
        invariant dragDefaults == old(dragDefaults) && dropDefaults == old(dropDefaults)
        invariant Out(states[..i], fired) == Gather(outs[..i])
        invariant states[i..] == start[i..]
      {
        fired := StopNext(i, e, start, fired);
        i := i + 1;
      }
      assert states[..i] == states && outs[..i] == outs;
    }

    /** The handler's loop step: model `i` stops, and its calls join those of the models before it. */
    method StopNext(i: nat, e: MouseEvent, ghost start: seq<DnDSnapshot>, acc: seq<Event>) returns (fired: seq<Event>)
      requires Valid() && i < |models| == |start| && AllInvariant(start)
      requires Out(states[..i], acc) == Gather(Releases(start, e)[..i]) && states[i..] == start[i..]
      modifies Repr
      ensures Valid() && Repr == old(Repr) && models == old(models)
      ensures dragDefaults == old(dragDefaults) && dropDefaults == old(dropDefaults)
      ensures Out(states[..i + 1], fired) == Gather(Releases(start, e)[..i + 1]) && states[i + 1..] == start[i + 1..]
    {
      ghost var before := states;
      assert before[i] == start[i];
      var f := StopModel(i, e);
      assert states[..i] == before[..i] && states[i + 1..] == before[i + 1..];
      GatherStep(Releases(start, e), i);
      assert states[..i + 1] == states[..i] + [states[i]];
      fired := acc + f;
    }

    /** One model's `stopDragging`, in place. */
    method StopModel(i: nat, e: MouseEvent) returns (fired: seq<Event>)
      requires Valid() && i < |models|
      modifies Repr
      ensures Valid() && Repr == old(Repr) && models == old(models)
      ensures dragDefaults == old(dragDefaults) && dropDefaults == old(dropDefaults)
      ensures states == old(states)[i := Released(old(states)[i], e).state]
      ensures fired == Released(old(states)[i], e).fired
    {
      var m := models[i];
      fired := m.StopDragging(e);
      states := states[i := m.State()];
      assert forall j :: 0 <= j < |models| && j != i ==> models[j].Repr !! m.Repr;
    }

    method MouseMoveDragHandler(e: MouseEvent, doc: Document) returns (fired: seq<Event>)
      requires Valid()
      modifies Repr
      ensures Valid() && Repr == old(Repr) && models == old(models)
      ensures dragDefaults == old(dragDefaults) && dropDefaults == old(dropDefaults)
      ensures Out(states, fired) == MoveAll(old(states), e, doc)
    {
      ghost var start := states;
      assert AllInvariant(start);
      ghost var outs := Moves(start, e, doc);
      assert outs[..0] == [];
      fired := [];
      var i := 0;
      while i < |models|
        invariant 0 <= i <= |models| == |start|
        invariant models == old(models) && Repr == old(Repr) && Valid()
        invariant dragDefaults == old(dragDefaults) && dropDefaults == old(dropDefaults)
        invariant Out(states[..i], fired) == Gather(outs[..i])
        invariant states[i..] == start[i..]
      {
        fired := MoveNext(i, e, doc, start, fired);
        i := i + 1;
      }
      assert states[..i] == states && outs[..i] == outs;
    }

    /** The handler's loop step: model `i` handles the move, and its calls join those of the models before it. */
    method MoveNext(i: nat, e: MouseEvent, doc: Document, ghost start: seq<DnDSnapshot>, acc: seq<Event>) returns (fired: seq<Event>)
      requires Valid() && i < |models| == |start| && AllInvariant(start)
      requires Out(states[..i], acc) == Gather(Moves(start, e, doc)[..i]) && states[i..] == start[i..]
      modifies Repr
      ensures Valid() && Repr == old(Repr) && models == old(models)
      ensures dragDefaults == old(dragDefaults) && dropDefaults == old(dropDefaults)
      ensures Out(states[..i + 1], fired) == Gather(Moves(start, e, doc)[..i + 1]) && states[i + 1..] == start[i + 1..]
    {
      ghost var before := states;
      assert before[i] == start[i];
      var f := MoveModel(i, e, doc);
      assert states[..i] == before[..i] && states[i + 1..] == before[i + 1..];
      GatherStep(Moves(start, e, doc), i);
      assert states[..i + 1] == states[..i] + [states[i]];
      fired := acc + f;
    }

    /** One model's `mouseMoved`, in place. */
    method MoveModel(i: nat, e: MouseEvent, doc: Document) returns (fired: seq<Event>)
      requires Valid() && i < |models|
      modifies Repr
      ensures Valid() && Repr == old(Repr) && models == old(models)
      ensures dragDefaults == old(dragDefaults) && dropDefaults == old(dropDefaults)
      ensures states == old(states)[i := Moved(old(states)[i], e, doc).state]
      ensures fired == Moved(old(states)[i], e, doc).fired
    {
      var m := models[i];
      fired := m.MouseMoved(e, doc);
      states := states[i := m.State()];
      assert forall j :: 0 <= j < |models| && j != i ==> models[j].Repr !! m.Repr;
    }
  }
}
