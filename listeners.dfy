/**
 * Options, listener tables and the event trace. A listener table is kept as
 * the plain object the caller passed (its own properties, in enumeration
 * order); whether a listener is present is decided the way the source does,
 * by `typeof listeners.name === "function"`. A listener that is present is
 * observed through the trace of calls it receives.
 */
module Listeners {
  import opened Wrappers
  import opened Dom

  /** One own property of a listener object: its key and whether its value is a function. */
  datatype Prop = Prop(key: string, isFunction: bool)

  /**
   * An object's own properties in enumeration order. `Lookup` takes the first
   * property with a key, so a sequence that repeats a key stands for the
   * object without the later repeats.
   */
  type JsObject = seq<Prop>

  /** Whether the first property named `key` holds a function; `None` when the object has no such property. */
  function Lookup(obj: JsObject, key: string): (r: Option<bool>)
    ensures r.None? <==> forall i :: 0 <= i < |obj| ==> obj[i].key != key
    ensures r.Some? ==> exists i :: 0 <= i < |obj| && obj[i].key == key && obj[i].isFunction == r.value
                                    && forall j :: 0 <= j < i ==> obj[j].key != key
  {
    if obj == [] then None
    else if obj[0].key == key then Some(obj[0].isFunction)
    else
      var r := Lookup(obj[1..], key);
      assert forall i :: 1 <= i < |obj| ==> obj[i] == obj[1..][i - 1];
      if r.Some? then
        var i :| 0 <= i < |obj[1..]| && obj[1..][i].key == key && obj[1..][i].isFunction == r.value
                 && forall j :: 0 <= j < i ==> obj[1..][j].key != key;
        assert obj[i + 1].key == key && obj[i + 1].isFunction == r.value;
        assert forall j :: 0 <= j < i + 1 ==> obj[j].key != key;
        r
      else r
  }

  /** `typeof obj[key] === "function"`. */
  predicate IsFunction(obj: JsObject, key: string) {
    Lookup(obj, key) == Some(true)
  }

  /** Which drag listeners are callable. */
  datatype DragListeners = DragListeners(onDragStart: bool, onDragging: bool, onDragEnd: bool)

  /** Which drop-zone listeners are callable. */
  datatype DropListeners = DropListeners(onEnter: bool, onLeave: bool, onDrop: bool)

  const NoDragListeners := DragListeners(false, false, false)
  const NoDropListeners := DropListeners(false, false, false)

  function DragListenersOf(obj: JsObject): DragListeners {
    DragListeners(IsFunction(obj, "onDragStart"), IsFunction(obj, "onDragging"), IsFunction(obj, "onDragEnd"))
  }

  function DropListenersOf(obj: JsObject): DropListeners {
    DropListeners(IsFunction(obj, "onDropZoneEntered"), IsFunction(obj, "onDropZoneLeave"), IsFunction(obj, "onDrop"))
  }

  /** `null`/`undefined` listeners: `options.dragListeners?.name` is never a function. */
  function DragListenersOrNone(obj: Option<JsObject>): DragListeners {
    if obj.Some? then DragListenersOf(obj.value) else NoDragListeners
  }

  function DropListenersOrNone(obj: Option<JsObject>): DropListeners {
    if obj.Some? then DropListenersOf(obj.value) else NoDropListeners
  }

  /** The dragging mode; any string other than "move" and "copy" is unsupported. */
  datatype Mode = Move | Copy | Unsupported(name: string)

  /** The mode a `mode` string selects: "move" and "copy" never become `Unsupported`. */
  function ModeOf(name: string): (m: Mode)
    ensures m == Move <==> name == "move"
    ensures m == Copy <==> name == "copy"
    ensures m.Unsupported? ==> m.name == name
  {
    if name == "move" then Move else if name == "copy" then Copy else Unsupported(name)
  }

  /** A mode value as `ModeOf` produces it: `Unsupported` never names a supported mode. */
  predicate WellFormedMode(m: Mode) {
    m.Unsupported? ==> m.name != "move" && m.name != "copy"
  }

  /** Every mode that `ModeOf` produces is well formed. */
  lemma ModeOfWellFormed(name: string)
    ensures WellFormedMode(ModeOf(name))
  {
  }

  datatype DragOptions = DragOptions(mode: Mode, dragListeners: Option<JsObject>)

  datatype DropOptions = DropOptions(dropListeners: Option<JsObject>)

  /**
   * An options object as a caller passes it to a builder: each key is either
   * absent (`None`) or present with its value. The declared option types make
   * every key required, but `Object.assign` copies whatever own keys the
   * object has, so a key may be missing.
   */
  datatype GivenDragOptions = GivenDragOptions(mode: Option<Mode>, dragListeners: Option<Option<JsObject>>)

  datatype GivenDropOptions = GivenDropOptions(dropListeners: Option<Option<JsObject>>)

  /** An options object that carries every key of `o`. */
  function AllDragKeys(o: DragOptions): GivenDragOptions {
    GivenDragOptions(Some(o.mode), Some(o.dragListeners))
  }

  function AllDropKeys(o: DropOptions): GivenDropOptions {
    GivenDropOptions(Some(o.dropListeners))
  }

  /** The defaults `Object.assign` starts from when no options are given. */
  const InitialDragOptions := DragOptions(Move, None)
  const InitialDropOptions := DropOptions(None)

  datatype ZoneKind = Enter | Leave | Drop

  /**
   * One listener invocation with its arguments: the drag listeners get the
   * current event and the original press event, the drop-zone listeners the
   * current event, the dragged element and the zone.
   */
  datatype Event =
    | DragStart(e: MouseEvent, press: MouseEvent)
    | Dragging(e: MouseEvent, press: MouseEvent)
    | DragEnd(e: MouseEvent, press: MouseEvent)
    | Zone(kind: ZoneKind, e: MouseEvent, dragged: ElemId, zone: ElemId)

  /** The state after an operation together with the listener calls it made, in order. */
  datatype Out<S> = Out(state: S, fired: seq<Event>)

  /** How many `onDragStart` calls a trace holds. */
  function StartCount(evs: seq<Event>): nat {
    if evs == [] then 0 else (if evs[0].DragStart? then 1 else 0) + StartCount(evs[1..])
  }

  lemma {:induction false} StartCountAppend(a: seq<Event>, b: seq<Event>)
    ensures StartCount(a + b) == StartCount(a) + StartCount(b)
    decreases |a|
  {
    if a == [] {
      assert a + b == b;
    } else {
      assert (a + b)[1..] == a[1..] + b;
      StartCountAppend(a[1..], b);
      calc {
        StartCount(a + b);
        (if a[0].DragStart? then 1 else 0) + StartCount(a[1..] + b);
        StartCount(a) + StartCount(b);
      }
    }
  }

  lemma {:induction false} NoStarts(evs: seq<Event>)
    requires forall i :: 0 <= i < |evs| ==> !evs[i].DragStart?
    ensures StartCount(evs) == 0
    decreases |evs|
  {
    if evs != [] {
      NoStarts(evs[1..]);
    }
  }

  /** The message the source throws for a listener property that is not a function. */
  function NotKnown(key: string): string {
    key + " is not known"
  }

  /**
   * Construction-time validation of a listener object: every own property must
   * hold a function, otherwise the first offending key is reported. Only the
   * values are checked, not the key names.
   */
  method CheckListeners(obj: JsObject) returns (err: Option<string>)
    ensures err.None? <==> forall i :: 0 <= i < |obj| ==> obj[i].isFunction
    ensures err.Some? ==>
      exists i :: 0 <= i < |obj| && !obj[i].isFunction && err.value == NotKnown(obj[i].key)
        && forall j :: 0 <= j < i ==> obj[j].isFunction
  {
    var i := 0;
    while i < |obj|
      invariant 0 <= i <= |obj|
      invariant forall j :: 0 <= j < i ==> obj[j].isFunction
    {
      if !obj[i].isFunction {
        return Some(NotKnown(obj[i].key));
      }
      i := i + 1;
    }
    return None;
  }

  /** After a successful validation, a listener is present exactly when its key is. */
  lemma {:induction false} ValidatedPresence(obj: JsObject, key: string)
    requires forall i :: 0 <= i < |obj| ==> obj[i].isFunction
    ensures IsFunction(obj, key) <==> exists i :: 0 <= i < |obj| && obj[i].key == key
  {
    var r := Lookup(obj, key);
    if r.Some? {
      var i :| 0 <= i < |obj| && obj[i].key == key && obj[i].isFunction == r.value;
    }
  }
}
