# laforce-dnd, modelled in Dafny

laforce-dnd makes DOM elements draggable with the mouse. A press on a
registered element arms its drag model. Document-wide `mousemove` events
confirm the drag once the pointer has moved far enough from the press
point. While the drag is active, every move repositions the element (move
mode) or a translucent clone of it (copy mode) at the pointer minus the grab
offset, and recomputes which drop zones the pointer is over. A document-wide
`mouseup` ends the drag and drops on the zones under the pointer. User
callbacks report each step: `onDragStart`, `onDragging` and `onDragEnd` for
the drag, and `onDropZoneEntered`, `onDropZoneLeave` and `onDrop` for the
zones.

The model covers the legacy single-object `DragState` and the newer stack:
`DragModel` (press, threshold, rendering), `DropModel` with its null object
`EmptyDropModel` (zone snapshot and collisions), `DnDModel` (a `DragModel`
whose listeners are decorators that drive the drop side), and the entry
point `dndLaforce.ts` (the registry of models, the two document handlers and
the `drag`/`drop` builders).

How the model is built:

- **Listener calls as a trace.** A user callback is observed through the
  calls it receives. Every operation returns the calls it made, in order, as
  `fired: seq<Event>`. A listener is present when `typeof listeners.name ===
  "function"`. A listener object is modelled as its own properties
  (`JsObject`, a sequence of key / is-a-function pairs). Lookup takes the
  first property with a key, so a sequence that repeats a key stands for the
  object without the later repeats.
- **The DOM as input.** `querySelectorAll`, `getBoundingClientRect` and
  `offsetLeft`/`offsetTop` are read through a `Document` value that the
  caller passes in. Elements are identities (`ElemId`), and coordinates are
  integers.
- **Classes over snapshots.** Every class is a Dafny `class` with the
  source's fields, and its methods update them in place. Each method's
  `ensures` ties the new fields and the calls made to a pure step function
  on a snapshot datatype (`Press`, `Calculate`, `Frame`, `Stop`,
  `Collided`, `Dropped`, `Moved`, `Released`, ...). The lemmas then prove
  what the library promises about those step functions: thresholds,
  rendering, call order, enter/leave pairing, one drag start per gesture,
  drops, and idempotent release.
- **The `IDropModel` interface** is the datatype `DropSlot`, holding either
  an `EmptyDropModel` or a `DropModel`.
- **Constructors that throw** become static `Create` methods that return a
  `Result`. The builders return the error as an `Option<string>`.
- **Decorators.** A `DragModel` inside a `DnDModel` gets the three
  decorators as its listeners, so all three are always functions. The drag
  model returns the call it would have made, and the `DnDModel` runs the
  matching decorator on it at once. A decorator touches only the drop side
  and the user's callback. For `onDragStart` and `onDragging` the decorator
  call is the last step of the drag-model method that makes it, so the
  order matches the source. `stopDragging` is the exception: the source
  calls the decorated `onDragEnd` before it resets the flags and removes the
  clone, while the model resets first and runs the decorator after. The
  calls and the final state are the same either way.
- **Option defaults are state.** `dragBuilder` and `dropBuilder` merge the
  caller's options into the module-level default objects with
  `Object.assign`, so the defaults change. The `Registry` keeps them as the
  fields `dragDefaults` and `dropDefaults`. The options a caller passes
  are a record with each key either absent or given. Every given key
  overwrites the default, and every absent key keeps it, so a later call
  reuses what earlier calls left in the keys it omits.
- **Drop options are captured when a `DropModel` is created.** In the
  source, a `DropModel` keeps a reference to the shared default object and
  reads its listeners at call time. Every `dropBuilder` call both mutates
  that object and replaces the drop model of every registered model. A live
  `DropModel` therefore always sees the options it was created with, and
  the model captures them at creation.

Notable behaviours of the code that the model reproduces:

- `mouseup` and `mousemove` are forwarded to every registered model, not
  only to the pressed one. `ReleaseReachesOnlyPressed` and
  `MoveReachesOnlyPressed` prove this harmless when one model is pressed.
- The two variants use different drag thresholds. `DragState` starts on
  |dx| + |dy| >= 5, while `DragModel` needs |dx| >= 5 and |dy| >= 5, so a
  purely horizontal or vertical drag never starts
  (`ThresholdPoliciesDiffer`, `StraightMoveNeverStarts`).
- Listener validation checks only that every own property holds a
  function. An unknown key whose value is a function is accepted.
- The legacy `stopDragging` fires `onDrop` on every colliding zone, whether
  or not the drag was confirmed.

## Model

| member | source | states |
|---|---|---|
| Geometry.Colliding | src/models/dropModel.ts:89-97 | a zone is in the result exactly when it is in the snapshot and its rectangle contains the pointer, edges included; the result keeps the snapshot's order (a sub-sequence) |
| Geometry.Without | src/models/dropModel.ts:55-73 | the `find`-based difference: exactly the zones of the first list missing from the second, in first-list order |
| Geometry.WithoutCounts | src/models/dropModel.ts:55-73 | the difference keeps each zone outside the second list as many times as the first list holds it, and no zone of the second list |
| Listeners.Lookup | src/models/dragModel.ts:60-61 | `None` exactly when no own property has the key; otherwise the value is that of the first property with the key |
| Listeners.CheckListeners | src/DragState.ts:76-87 | no error exactly when every own property holds a function; an error names the first key whose value is not a function |
| Listeners.ModeOf | src/models/dragModel.ts:72-80 | the `switch` on the mode string: "move" and "copy" select those modes, and any other string is unsupported and keeps its name |
| Listeners.ModeOfWellFormed | src/models/dragModel.ts:72-80 | a mode the switch selects never calls "move" or "copy" unsupported |
| Listeners.ValidatedPresence | src/DragState.ts:84-86 | after a successful validation, a listener is present exactly when the object has its key |
| Zones.CollisionEventsSpec | src/models/dropModel.ts:49-76 | a collision update calls leave for exactly the zones that stopped colliding and enter for exactly those that started (each only when that listener exists), makes no other call, and makes all leaves before all enters |
| Zones.CollisionEventsFor | src/models/dropModel.ts:55-73 | seen from one zone on duplicate-free lists: one leave when it stops colliding, one enter when it starts, nothing otherwise |
| Zones.FireMissing | src/models/dropModel.ts:55-63 | one `forEach`/`find` loop calls the listener for every zone of the first list missing from the second, in order |
| Zones.FireCollisionEvents | src/models/dropModel.ts:55-73 | the two loops together make the calls `CollisionEventsSpec` characterises |
| Zones.FireDrops | src/models/dropModel.ts:80-84 | one drop call per colliding zone, in list order, and none without an `onDrop` |
| DropModels.CanDropAfterOpenClose | src/models/dropModel.ts:36-47 | `canDrop` holds after opening exactly when the selector matched something, and never after closing |
| DropModels.CollisionUpdate | src/models/dropModel.ts:49-76 | unopened zones: nothing happens; opened: the colliding list becomes the snapshot's zones under the pointer, leave/enter fire for exactly the zones that changed, a zone that stays gets no call, all leaves come first, and the snapshot is kept |
| DropModels.DropIdempotent | src/models/dropModel.ts:78-87 | a drop calls `onDrop` once per colliding zone in order and clears the colliding list; a second drop calls nothing |
| DropModels.CollidedKinds | src/models/dropModel.ts:49-76 | one update, seen from one zone: a leave when it stops colliding, an enter when it starts, and the colliding list stays duplicate-free |
| DropModels.ZoneHistory | src/models/dropModel.ts:49-76 | over any run of updates, the calls one zone receives are exactly its membership transitions (leave on in-to-out, enter on out-to-in) |
| DropModels.TransitionsAlternate | src/models/dropModel.ts:49-76 | with both listeners present, a zone's calls alternate enter/leave, starting with leave if it started inside |
| DropModels.TransitionsTrackMembership | src/models/dropModel.ts:49-76 | with both listeners present, a zone ends up on the other side from where it started exactly when it received an odd number of calls |
| DropModels.EmptyDropModel.CanDrop | src/models/dropModel.ts:12-14 | the null drop model can never drop |
| DropModels.EmptyDropModel.OpenDropZones | src/models/dropModel.ts:15 | opening snapshots nothing: the null drop model still cannot drop |
| DropModels.EmptyDropModel.CloseDropZones | src/models/dropModel.ts:16 | closing changes nothing: the null drop model still cannot drop |
| DropModels.DropModel.CanDrop | src/models/dropModel.ts:36-38 | `canDrop` holds exactly when a snapshot is open and not empty (after open and close: `CanDropAfterOpenClose`) |
| DropModels.EmptyDropModel.HandleDropZoneCollisions | src/models/dropModel.ts:17 | the null drop model makes no call |
| DropModels.EmptyDropModel.TryDropOnCurrentCursorLocation | src/models/dropModel.ts:18 | the null drop model makes no call |
| DropModels.DropModel.constructor | src/models/dropModel.ts:29-34 | keeps the selector and listeners; zones not opened, nothing colliding |
| DropModels.DropModel.OpenDropZones | src/models/dropModel.ts:40-43 | the zone snapshot becomes what the selector matches now |
| DropModels.DropModel.CloseDropZones | src/models/dropModel.ts:45-47 | the zone snapshot is dropped; the colliding list stays |
| DropModels.DropModel.GetCollidingDropZoneElements | src/models/dropModel.ts:89-97 | a zone is in the result exactly when it is in the given zones and its rectangle contains the pointer, edges included; the result is a sub-sequence of the given zones |
| DropModels.DropModel.HandleDropZoneCollisions | src/models/dropModel.ts:49-76 | new fields and calls are those of `Collided`, whose meaning `CollisionUpdate` states |
| DropModels.DropModel.TryDropOnCurrentCursorLocation | src/models/dropModel.ts:78-87 | new fields and calls are those of `Dropped`, whose meaning `DropIdempotent` states |
| DragModels.ConsistencyPreserved | src/models/dragModel.ts:12-100 | press, threshold check, frame and release keep the invariants: pressed iff a press event is held, dragging only with a press, a clone only while dragging in copy mode |
| DragModels.PressArms | src/models/dragModel.ts:32-45 | a press while dragging changes nothing; otherwise it arms with the event and the grab offset (page position minus the element's offset), and no other field changes |
| DragModels.ThresholdPerAxis | src/models/dragModel.ts:47-66 | without a press or once dragging nothing happens; otherwise the drag is confirmed exactly when both axis deltas reach 5, `onDragStart` fires exactly on that step with the current and press events, and nothing else changes |
| DragModels.StraightMoveNeverStarts | src/models/dragModel.ts:56-58 | a purely horizontal or vertical move never confirms a drag and calls nothing |
| DragModels.FrameRenders | src/models/dragModel.ts:68-88 | no-op while not dragging; while dragging, move mode places the element and copy mode places the clone at the pointer minus the grab offset, with no other field changed, an unsupported mode renders nothing, then `onDragging` fires |
| DragModels.StopResets | src/models/dragModel.ts:90-100 | `onDragEnd` fires only after a confirmed drag; afterwards the model is unpressed, not dragging, and has no clone |
| DragModels.DragModel.constructor | src/models/dragModel.ts:12-22 | idle, with the element, mode and listener presence from the options |
| DragModels.DragModel.OnMouseDownEvent | src/models/dragModel.ts:32-45 | the new fields are `Press` of the old ones (see `PressArms`), and the invariants are kept |
| DragModels.DragModel.CalculateDraggingElement | src/models/dragModel.ts:47-66 | the new fields and calls are `Calculate` of the old ones (see `ThresholdPerAxis`), and the result is the new dragging flag |
| DragModels.DragModel.OnDragging | src/models/dragModel.ts:68-88 | the new fields and calls are `Frame` of the old ones (see `FrameRenders`) |
| DragModels.DragModel.StopDragging | src/models/dragModel.ts:90-100 | the new fields and calls are `Stop` of the old ones (see `StopResets`) |
| DragModels.DragModel.RemoveFloatingElement | src/models/dragModel.ts:102-107 | no clone afterwards, and nothing else changes |
| DragModels.DragModel.CopyElementToCursorPosition | src/models/dragModel.ts:109-122 | any old clone is replaced by one clone at the pointer minus the grab offset |
| DragModels.DragModel.MoveElementToCursorPosition | src/models/dragModel.ts:124-128 | the element is placed at the pointer minus the grab offset |
| DnDModels.DecoratorsPresent | src/models/dndModel.ts:32-42 | the drag model built from the decorator object sees all three listeners as functions |
| DnDModels.CollideSideCalls | src/models/dndModel.ts:53-60 | a collision update on the drop side makes only enter/leave calls for this element and event, leaves first |
| DnDModels.SnapshotKept | src/models/dndModel.ts:11-69 | press, move, release and `addDrop` keep the colliding zones a sub-sequence of the current zone snapshot |
| DnDModels.PressKeeps | src/models/dragModel.ts:32-45 | a press keeps the `DnDModel` invariant |
| DnDModels.MoveKeeps | src/models/dndModel.ts:23-26 | a move keeps the invariant (nothing collides outside a drag) and never changes the element, mode or user listeners |
| DnDModels.ReleaseKeeps | src/models/dndModel.ts:19-21 | a release keeps the invariant and never changes the element, mode or user listeners |
| DnDModels.MoveWithoutPressIsQuiet | src/models/dndModel.ts:23-26 | an unpressed model ignores mouse moves: same state, no call |
| DnDModels.MoveOrder | src/models/dndModel.ts:23-60 | after a move the model is dragging iff it was or both axis deltas reach 5; the calls are `onDragStart` (only on the confirming move), then this frame's zone leave/enter calls (leaves first), then `onDragging`; the zone calls and the new drop side are exactly one collision update (`CollisionUpdate`) on the drop side, opened by this move when it confirms the drag; nothing fires without a drag |
| DnDModels.ConfirmingMove | src/models/dndModel.ts:44-60 | the confirming move snapshots the zones from the selector at that instant, collides against them, gives every zone under the pointer an enter call and no zone a leave call, and renders the element or clone at the pointer minus the grab offset |
| DnDModels.ReleaseWithoutDragIsQuiet | src/models/dndModel.ts:19-21 | a release that ends no drag makes no call and only disarms the press |
| DnDModels.IdleReleaseIsNoOp | src/models/dndModel.ts:19-21 | a release on an unpressed model changes nothing |
| DnDModels.ReleaseAfterDrag | src/models/dndModel.ts:62-69 | a release that ends a drag calls the user's `onDragEnd`, then `onDrop` once per zone colliding in the last frame, in order; nothing collides afterwards, the snapshot is kept, and the model is idle with no clone |
| DnDModels.MovedMany | src/models/dndModel.ts:23-26 | any run of moves keeps the invariant and the element, mode and user listeners |
| DnDModels.MoveStarts | src/models/dragModel.ts:47-66 | one move calls `onDragStart` at most once, exactly when it confirms the drag, and a confirmed drag stays confirmed |
| DnDModels.OneDragStartPerGesture | src/models/dragModel.ts:47-66 | over any run of moves in one press, `onDragStart` fires at most once, and never once the drag is confirmed |
| DnDModels.BelowThresholdQuiet | src/models/dragModel.ts:47-88 | moves that never reach the per-axis threshold leave a pressed model unchanged and make no call |
| DnDModels.DnDModel.constructor | src/models/dndModel.ts:11-17 | idle drag model, null drop side, user listeners from the caller's object |
| DnDModels.DnDModel.NewDecoratedDrag | src/models/dndModel.ts:14-16 | the drag model gets a copy of the options whose listeners are all present (the decorators) |
| DnDModels.DnDModel.Create | src/models/dndModel.ts:11-17 | construction throws exactly when the options have no drag listener object, with that message; otherwise the model is fresh and idle |
| DnDModels.DnDModel.OnMouseDown | src/models/dragModel.ts:32-45 | the element's `mousedown` listener: the new value is `Pressed` of the old one, and the invariant is kept |
| DnDModels.DnDModel.MouseMoved | src/models/dndModel.ts:23-26 | the new value and calls are `Moved` of the old value (see `MoveOrder`, `ConfirmingMove`), and the invariant is kept |
| DnDModels.DnDModel.StartStep | src/models/dndModel.ts:24 | the threshold check with the drag-start decorator run on the call it makes |
| DnDModels.DnDModel.FrameStep | src/models/dndModel.ts:25 | the dragging step with the dragging decorator run on the call it makes |
| DnDModels.DnDModel.StopDragging | src/models/dndModel.ts:19-21 | the new value and calls are `Released` of the old value (see `ReleaseAfterDrag`), and the invariant is kept |
| DnDModels.DnDModel.AddDrop | src/models/dndModel.ts:28-30 | a fresh, unopened drop model with the given selector and listeners replaces the drop side; nothing else changes |
| DnDModels.DnDModel.OnDragStartDecorator | src/models/dndModel.ts:44-51 | opens the drop zones, then calls the user's `onDragStart` if present |
| DnDModels.DnDModel.OnDraggingDecorator | src/models/dndModel.ts:53-60 | updates the collisions, then calls the user's `onDragging` if present |
| DnDModels.DnDModel.OnDragEndDecorator | src/models/dndModel.ts:62-69 | calls the user's `onDragEnd` if present, then drops on the colliding zones |
| LegacyDrag.ConsistencyKept | src/DragState.ts:19-151 | press, threshold check, release and `addDropZone` keep the invariants (pressed iff a press is held; dragging, colliding zones and a clone only with a press) |
| LegacyDrag.FrameConsistent | src/DragState.ts:127-145 | a frame keeps the invariants and leaves the press, the drag flags, the zone snapshot and the offset alone |
| LegacyDrag.SumThresholdStarts | src/DragState.ts:102-125 | without a press or once dragging nothing happens; otherwise the drag starts exactly when \|dx\| + \|dy\| reaches 5, and then the zones are snapshotted from the selector if a non-empty one is set, and `onDragStart` fires |
| LegacyDrag.PerAxisImpliesSum | src/DragState.ts:111-113 | every move that passes the per-axis rule of `DragModel` also passes the legacy sum rule |
| LegacyDrag.ThresholdPoliciesDiffer | src/DragState.ts:111-113 | a 5-pixel horizontal move starts a legacy drag but not a `DragModel` drag |
| LegacyDrag.FrameZones | src/DragState.ts:127-176 | a frame renders the clone or the pressed target at the pointer minus the grab offset; with a snapshot, the colliding list becomes the zones under the pointer and leave/enter fire for exactly the changed zones, with the pressed target as the dragged element; `onDragging` comes last |
| LegacyDrag.StopFiresAndResets | src/DragState.ts:59-74 | `onDragEnd` first if a drag was confirmed, then `onDrop` for exactly the colliding zones, in colliding-list order; afterwards idle, nothing colliding, no clone, and the snapshot and selector are kept |
| LegacyDrag.StopIdempotent | src/DragState.ts:59-74 | a second release calls nothing and changes nothing |
| LegacyDrag.DragState.constructor | src/DragState.ts:19-37 | the initial fields, with the mode and the validated drag listeners |
| LegacyDrag.DragState.Create | src/DragState.ts:19-37 | construction succeeds exactly when every property of the drag listener object (empty when absent) is a function; a failure names the first bad key |
| LegacyDrag.DragState.OnMouseDownEvent | src/DragState.ts:47-57 | arms with the event and the offset of the event's target, with no guard for an active drag |
| LegacyDrag.OneLegacyDragStartPerGesture | src/DragState.ts:102-125 | over any run of threshold checks after one press, `onDragStart` is called at most once and never once dragging, the press is kept, and a confirmed drag stays confirmed |
| LegacyDrag.DragState.IsDraggingStarted | src/DragState.ts:102-125 | the new fields and calls are `DragStarted` of the old ones (see `SumThresholdStarts`), and the result is the new dragging flag |
| LegacyDrag.DragState.OnDragging | src/DragState.ts:127-145 | the new fields and calls are `DraggingFrame` of the old ones (see `FrameZones`) |
| LegacyDrag.DragState.AddDropZone | src/DragState.ts:147-151 | stores the selector, then installs the drop listeners only if they validate; reports an error exactly when they do not |
| LegacyDrag.DragState.AddDropZoneListeners | src/DragState.ts:89-100 | validation fails exactly when some property is not a function, and then nothing changes; otherwise the listeners are installed |
| LegacyDrag.DragState.StopDragging | src/DragState.ts:59-74 | the new fields and calls are `Stopped` of the old ones (see `StopFiresAndResets`) |
| LegacyDrag.DragState.HandleDropZone | src/DragState.ts:154-176 | the new fields and calls are `ZoneUpdate` of the old ones |
| LegacyDrag.DragState.GetCollidingDropZoneElements | src/DragState.ts:178-186 | the zones whose rectangle contains the pointer, edges included, in snapshot order |
| LegacyDrag.DragState.CopyElementToCursorPosition | src/DragState.ts:188-201 | any old clone is replaced by one clone at the pointer minus the grab offset |
| LegacyDrag.DragState.MoveElementToCursorPosition | src/DragState.ts:203-210 | the pressed event's target is placed at the pointer minus the grab offset; other elements keep their positions |
| LegacyDrag.DragState.RemoveFloatingElement | src/DragState.ts:212-217 | no clone afterwards, and nothing else changes |
| Laforce.MergedDrag | src/dndLaforce.ts:25 | `Object.assign` into the drag defaults, key by key: a key the options carry gives its value, a key they lack (or `null` options) keeps the default |
| Laforce.MergedDrop | src/dndLaforce.ts:19 | the same key-by-key merge for the drop defaults |
| Laforce.AllKeysReplace | src/dndLaforce.ts:19-25 | options that carry every declared key replace the defaults outright, whatever the defaults were |
| Laforce.NoKeysKeep | src/dndLaforce.ts:19-25 | absent options, or options with none of the keys, leave the defaults unchanged |
| Laforce.MergeSequence | src/dndLaforce.ts:25 | merging the same options twice equals merging once, and a later merge overwrites only the keys it carries, so an earlier call's value survives in every omitted key |
| Laforce.Built | src/dndLaforce.ts:23-29 | one idle model per matched element, in document order, each satisfying the invariant |
| Laforce.StopAllPointwise | src/dndLaforce.ts:6-10 | a `mouseup` leaves every model exactly as its own release would, and every model keeps its invariant |
| Laforce.MoveAllPointwise | src/dndLaforce.ts:12-16 | a `mousemove` leaves every model exactly as its own move would, against one shared view of the document, and every model keeps its invariant |
| Laforce.ReleaseReachesOnlyPressed | src/dndLaforce.ts:6-10 | with at most one pressed model, the handler's calls are exactly that model's own and every other model is unchanged |
| Laforce.MoveReachesOnlyPressed | src/dndLaforce.ts:12-16 | with at most one pressed model, the handler's calls are exactly that model's own and every other model is unchanged |
| Laforce.DropReachesAll | src/dndLaforce.ts:18-21 | after `drop`, every model, old or new, has an unopened drop side with the given selector and listeners, nothing else changed, and the invariants hold |
| Laforce.Registry.constructor | src/dndLaforce.ts:4 | no models, and the defaults are the library's initial options |
| Laforce.Registry.Push | src/dndLaforce.ts:28 | the model is appended and nothing else changes |
| Laforce.Registry.DragBuilder | src/dndLaforce.ts:23-35 | the options are merged into the drag defaults; if the merged options have no drag listeners and something matched, it fails with the constructor's message and registers nothing; otherwise it appends one idle model per matched element, in order |
| Laforce.Registry.Register | src/dndLaforce.ts:26-29 | creates and appends one model, or fails without a change when the options have no drag listeners |
| Laforce.Registry.DropBuilder | src/dndLaforce.ts:18-21 | the options are merged into the drop defaults and every registered model gets `addDrop` with them (`DropReachesAll`) |
| Laforce.Registry.DropNext | src/dndLaforce.ts:20 | the loop step: models up to `i` have their drop side, the rest are untouched |
| Laforce.Registry.AddDropTo | src/dndLaforce.ts:20 | model `i` gets `addDrop`; every other model is unchanged |
| Laforce.Registry.MouseUpDragHandler | src/dndLaforce.ts:6-10 | the models' new values and the calls are `StopAll` of the old values (see `StopAllPointwise`, `ReleaseReachesOnlyPressed`) |
| Laforce.Registry.StopNext | src/dndLaforce.ts:7-9 | the loop step: models up to `i` are released and their calls gathered in order; the rest are untouched |
| Laforce.Registry.StopModel | src/dndLaforce.ts:8 | model `i` is released; every other model is unchanged |
| Laforce.Registry.MouseMoveDragHandler | src/dndLaforce.ts:12-16 | the models' new values and the calls are `MoveAll` of the old values (see `MoveAllPointwise`, `MoveReachesOnlyPressed`) |
| Laforce.Registry.MoveNext | src/dndLaforce.ts:13-15 | the loop step: models up to `i` have moved and their calls are gathered in order; the rest are untouched |
| Laforce.Registry.MoveModel | src/dndLaforce.ts:14 | model `i` moves; every other model is unchanged |

## Left out

- Rendering: styles, clone markup, `appendChild`/`removeChild`. A clone is its position (`floating`), and a moved element is its last absolute position (`placed`).
- DOM queries (`querySelectorAll`, `getBoundingClientRect`, `offsetLeft`/`offsetTop`) are inputs, through the `Document` parameter.
- Pixel coordinates are integers. The source's floating-point coordinates are not modelled.
- Event wiring: `initialize`'s two `addEventListener` calls and `DragModel.registerEvents`. The handlers are methods of `Registry`, and `DnDModel.OnMouseDown` is the element's `mousedown` listener.
- `console.error` for an unsupported mode. The model renders nothing and logs nothing.
- `DragState.chromiumBugFix` is a browser-specific DOM workaround and is not part of this model. Neither is `src/main.ts`, the demo page.
- The `isMouseDown` and `isDragging` getters of `DragModel` and `DragState` are not separate members. They are the fields `isMouseDown` and `isDragging` of each class's state.
- The `onDropZoneLeave`/`onDropZoneEntered` helpers of `DragState` are not separate members. They are the leave and enter calls in `ZoneUpdate`.
- The drop builder is reachable only through the object `dragBuilder` returns. Here it is the `Registry.DropBuilder` method, and the returned object is not modelled.
- A null or undefined event passed to `onMouseDownEvent` (the `!!mouseEvent` path) is not modelled, because its type does not allow it.
- LegacyDrag.DragState.OnDragging: requires a held press. Without one, the source dereferences the missing press event in every mode except an unsupported one.
- Listener objects are snapshots of their own properties when they are read. A caller mutating their object later is not modelled.
- DnDModels.Released and DragModels.DragModel.StopDragging: the source runs `onDragEnd` (and, through the decorator, every `onDrop`) before it resets the flags and removes the clone, so in copy mode the clone is still in the document while those callbacks run. The model resets first and applies the callbacks after; the calls and the final state agree, but what a callback could observe of the drag model while it runs does not.
- Listeners.DragListenersOf and Listeners.DropListenersOf read only a listener object's own properties. `DnDModel` and `DropModel` read listeners by property access, which also finds inherited methods (a class instance's prototype methods), so such listeners are not modelled there. Only the legacy `DragState`, which copies the object with a spread, is limited to own properties in the source too.
- Laforce.MoveAllPointwise: every model in one `mousemove` reads the same `Document`. In the source, when two models are pressed at once, one model's rendering (a clone appended, an element moved) happens before the next model queries the document; the model does not capture that. With at most one pressed model only that model changes (`MoveReachesOnlyPressed`), so no other model renders before it reads the document.
- The arguments of listener calls are recorded in the trace. Anything a listener does in return, such as calling back into the library, is not modelled.
