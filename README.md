# StatefulController, modelled in Dafny

This project models `StatefulController`, the generic base class for
controllers that hold an evolving state, commit staged changes on a fixed tick
and notify listeners of lifecycle and state-transition events. The model has
three parts:

- **State store** (`state_store.dfy`, module `StateStore`). There are three
  generations of a partial state record: `current`, `next` and `stale`.
  `Merge` is the object spread `{ ...base, ...partial }`. The lemmas prove
  what the controller relies on:
  - a merge is last-write-wins per field and never deletes a field;
  - the commit snapshot leaves `stale` equal to the pre-commit `current`;
  - successive merges compose;
  - staging a partial and committing it touches no other field.
- **Listener sets** (`registry.dfy`, module `Registry`). A JavaScript `Set` is
  modelled as a duplicate-free sequence in insertion order, with `Add`
  (`set.add`) and `Remove` (`set.delete`). The lemmas prove:
  - `on` followed by `off` restores the set, order included;
  - both operations are idempotent;
  - `delete` keeps the order of the other handlers.
- **Dispatcher** (`events.dfy`, module `Events`). This module has the closed
  event set, handler references, and `Dispatch`, the specification of one
  `emit`. The lemmas prove:
  - an ordinary event reaches every public handler and then every internal
    one, in insertion order, and no exception escapes;
  - for `error`, the dispatch stops at the first handler that throws, and the
    exception escapes exactly when some handler throws;
  - only registered handlers are ever called.
- **The controller** (`controller.dfy`, class
  `Controller.StatefulController`). The class keeps the source's fields:
  `listeners`, `internalListeners`, `errorListeners`, `timer`, `current`,
  `next`, `stale` and `mapped`. Its methods are the source's operations. Each
  method's contract ties the new state to `Merge`, `Registry.Add` /
  `Registry.Remove` and `Dispatch`. `emit`'s two `for … of` loops are the
  method `InvokeEach`, proved against `RunHandlers`. `Valid()` is the object
  invariant that every operation preserves:
  - no field of `stale` or `mapped` is missing from `current`;
  - every listener set is duplicate-free;
  - a held timer handle is a live interval.
- **Scenarios** (`scenarios.dfy`). These are client methods for the
  situations of the repository's tests and two further situations. The
  controller's contracts prove their outcomes. The test of `updated`
  (test/state.test.ts:28-38) never calls `start`, and `tick` is private and
  only called by the interval `start` arms, so in the repository that
  handler never runs. `Scenarios.Updates` starts the controller first and
  shows what the handler's assertion would see on the first tick.

Handler bodies are opaque. An operation that emits takes an oracle
`throws: Call -> bool`. It says whether a handler throws when called for a
given event with a given state. The one handler body the model knows is
`Rebuilder`, the `post` listener the constructor registers. It rebuilds the
key-indexed view `mapped` from the state it receives. The timer handle comes
from the platform's `setInterval`, so `Start` takes it as a parameter. The
platform's live intervals are the ghost field `intervals`. `Tick` is a method
that whoever models the firing interval calls. `IsRunning()` is the
`isRunning` getter, `timer.Some?`, and `State()` is the `state` getter,
`current`.

Where the code's behaviour may surprise a reader, the model follows the code:

- The constructor registers the view-rebuilding listener with the public
  `on`, not with `onInternal`, so `off("post")` removes it and later ticks
  stop refreshing `mapped` (`Scenarios.OffRemovesViewRebuilder`).
- The commit does not clear `next`. Every field ever staged is re-applied on
  every tick: after a tick, `next` is a submap of `current`. A field written
  since through the `state` setter is therefore overwritten again.
- `setImmediateState` merges the partial into each generation separately. The
  three generations stay equal if they were equal before, but need not
  become equal otherwise.
- A second `start` without `stop` overwrites the handle. The first interval
  stays live after `stop` (`Scenarios.DoubleStartLeaksInterval`).
- The per-handler error handlers are recorded by `onInternal` but never
  called. The `onError` hook has an empty body, so a caught exception only
  lets the loop continue.

## Model

| member | source | states |
|---|---|---|
| StateStore.Merge | src/Stateful.controler.ts:165-167 | a spread merge has exactly the fields of both records, takes each field of the partial record and keeps every other field of the base |
| StateStore.SnapshotIsCurrent | src/Stateful.controler.ts:256-257 | when `stale` has no field that `current` lacks, `{ ...stale, ...current }` equals `current` |
| StateStore.MergeAssociative | src/Stateful.controler.ts:173-181 | merging two partials one after the other equals merging their merge, so staged writes accumulate in `next` |
| StateStore.MergeIdempotent | src/Stateful.controler.ts:183-190 | applying the same partial twice equals applying it once |
| StateStore.CommitOfStaged | src/Stateful.controler.ts:252-261 | if `current` already reflects `next`, staging a partial and committing gives `current` merged with that partial, other fields untouched |
| StateStore.MergeOntoSelf | src/Stateful.controler.ts:70-72 | the double spread of the `defaultState` setter equals one merge of the default into the state |
| Registry.Add | src/Stateful.controler.ts:142 | `set.add` keeps the set duplicate-free, contains exactly the old members plus the handler, is a no-op for a present handler and otherwise appends it last |
| Registry.Remove | src/Stateful.controler.ts:158 | after `set.delete` the handler is absent, the set is no longer than before, and deleting an absent handler is a no-op |
| Registry.RemoveMembers | src/Stateful.controler.ts:158 | after `set.delete` the members are exactly the old members other than the handler |
| Registry.RemoveKeepsNoDuplicates | src/Stateful.controler.ts:158 | `set.delete` keeps a duplicate-free set duplicate-free |
| Registry.RemoveUndoesAdd | src/Stateful.controler.ts:130-159 | adding a new handler and then deleting it gives back the same set in the same order |
| Registry.RemoveIdempotent | src/Stateful.controler.ts:145-159 | deleting a handler twice equals deleting it once |
| Registry.AddIdempotent | src/Stateful.controler.ts:130-143 | registering the same handler twice equals registering it once |
| Registry.RemoveCutsOnePosition | src/Stateful.controler.ts:158 | deleting a handler from a duplicate-free set cuts out its single position and keeps the others in order |
| Events.FirstThrow | src/Stateful.controler.ts:221-231 | the position found is the first invocation that throws: none before it throws, and it throws unless it is past the end |
| Events.RunHandlersStopsAt | src/Stateful.controler.ts:221-231 | a loop that stops after all handlers with nothing escaped, or right after the first throwing `error` handler, produced exactly the outcome of one `for … of` loop |
| Events.OrdinaryEventReachesEveryHandler | src/Stateful.controler.ts:211-250 | for any event but `error`, emit invokes every public and then every internal handler, in insertion order, with the same state, and nothing escapes |
| Events.SoleHandlerInvoked | src/Stateful.controler.ts:211-250 | an ordinary event whose registries hold one handler between them invokes exactly that handler, once, with the current state, and nothing escapes |
| Events.OrdinaryEventNeverThrows | src/Stateful.controler.ts:225-230 | for any event but `error`, no exception escapes the dispatch |
| Events.ErrorDispatchAsConcatenation | src/Stateful.controler.ts:220-249 | for `error`, the dispatch equals running the public and then the internal handlers as one sequence up to and including the first throw |
| Events.UntilFirstThrowAppend | src/Stateful.controler.ts:220-249 | running one sequence of handlers and, unless it threw, a second one, stopping at the first throw, is the same as running their concatenation that way |
| Events.ErrorEventStopsAtFirstThrow | src/Stateful.controler.ts:226-228 | for `error`, the invocations are those up to and including the first handler that throws, and an exception escapes exactly when some registered handler throws |
| Events.InvokedOnlyIfRegistered | src/Stateful.controler.ts:211-250 | every invocation is of the emitted event, with the current state, and of a handler registered publicly or internally for that event |
| Events.RebuilderRunsWhileRegistered | src/Stateful.controler.ts:95-100 | while the view-rebuilding listener is in the public set of an ordinary event, emitting that event invokes it |
| Controller.StatefulController.constructor | src/Stateful.controler.ts:79-101 | the default state is the state at once; the other generations and `mapped` are empty; only the `post` rebuilder is registered; no timer is held |
| Controller.StatefulController.WriteState | src/Stateful.controler.ts:165-167 | the `state` setter merges the partial into `current` and changes nothing else |
| Controller.StatefulController.SetDefaultState | src/Stateful.controler.ts:70-72 | the `defaultState` setter leaves `current` equal to the old state merged with the default |
| Controller.StatefulController.SetState | src/Stateful.controler.ts:173-181 | `stale` becomes the old `current`, `next` takes the partial, `current` is unchanged, exactly the `pre` dispatch happens and nothing escapes it, and the staged `next` is returned |
| Controller.StatefulController.SetImmediateState | src/Stateful.controler.ts:183-190 | the partial is merged into all three generations with no event, the new `current` is returned, and equal generations stay equal |
| Controller.StatefulController.Start | src/Stateful.controler.ts:192-196 | given the fresh handle `setInterval` returns, the `pre-start` dispatch, then the handle replaces any held one and becomes one more live interval, then the `start` dispatch; afterwards the controller is running |
| Controller.StatefulController.Stop | src/Stateful.controler.ts:198-203 | the `pre-stop` dispatch, then the held interval (if any) is cleared and the handle dropped, then the `stop` dispatch; afterwards the controller is not running |
| Controller.StatefulController.Tick | src/Stateful.controler.ts:252-261 | the `tick` dispatch sees the old state, then `stale` becomes the old `current` and `current` takes every field of `next` (kept), then the `post` and `updated` dispatches see the committed state, and none escapes; `mapped` equals `current` while the rebuilder is registered |
| Controller.StatefulController.On | src/Stateful.controler.ts:130-143 | the public set of the event becomes `set.add` of the handler, created if absent; no other event and no internal set changes |
| Controller.StatefulController.Off | src/Stateful.controler.ts:145-159 | without a handler the public set of the event becomes empty; with one it loses exactly that handler, and an unregistered event is left alone; internal sets never change |
| Controller.StatefulController.OnInternal | src/Stateful.controler.ts:103-127 | for `error` nothing changes; otherwise the handler is added to the internal set, and an error handler is recorded only when one is supplied |
| Controller.StatefulController.Emit | src/Stateful.controler.ts:211-250 | the outcome is `Dispatch` of both registries with the current state, and `mapped` becomes `current` exactly when the rebuilder was invoked |
| Controller.StatefulController.InvokeEach | src/Stateful.controler.ts:220-232 | one `for … of` loop: its outcome is `RunHandlers` of the handlers, and the rebuilder's invocation refreshes `mapped` |
| Scenarios.Defaults | test/state.test.ts:17-26 | a controller built with `{ foo: "bar" }` reports `foo` as `"bar"` at once |
| Scenarios.Updates | test/state.test.ts:28-38 | after `setState({ ran: true })` the state lacks `ran` until a tick; once the controller is started (which the test never does), the `updated` handler is called once in that tick and sees `ran` set |
| Scenarios.TicksThenStops | test/state.test.ts:40-54 | the first tick after `start` reaches the `tick` handler; after its `off("tick")` and `stop` nothing is registered on `tick`, no interval is live and the controller is idle |
| Scenarios.DoubleStartLeaksInterval | src/Stateful.controler.ts:192-203 | after two `start`s and a `stop` the controller reports itself idle while the first interval is still live |
| Scenarios.OffRemovesViewRebuilder | src/Stateful.controler.ts:95-100 | after `off("post")` an internal `post` handler still runs at the tick, but `mapped` is no longer refreshed |

## Left out

- Real time and asynchrony. The model does not include `setInterval`/`clearInterval` firing, Promise scheduling, or overlapping in-flight ticks. A tick is one sequential call, and handlers run one after another, as the source awaits them.
- Handler side effects. A user handler's body can call back into the controller (`setState`, `off`, `stop`, ...). Only whether it throws is modelled. The scenarios make such calls explicitly after the handler's invocation. The one known body, the `post` rebuilder, is modelled exactly.
- The `debug` library setup and `this.debug(...)` tracing, and the `console.error` call in `emit`. These are diagnostics and I/O.
- The configuration bag `props`. Only `tickRate` is kept, and the model passes it to no timer. `debug` and `namespace` only feed the tracing.
- The `undefined` generations before the first write. Spreading `undefined` behaves as spreading `{}`, so the model starts from empty maps. The `state` getter returns `undefined` rather than `{}` before any write. The rebuilder then throws, after resetting `mapped` to an empty map, which is the same as rebuilding from `{}`.
- Aliasing. The `state` getter returns the `current` object itself, and in-place writes to it by a caller are not modelled. Records are values here.
- `undefined`-valued fields in partial records. Such a field overwrites with `undefined`. The model's values have no `undefined`.
- Invoking per-handler error handlers. The source never calls them (the `onError` hook is empty). Only their registration is modelled.
- The compiled `build/Stateful.controler.js` and the declarations in `build/Stateful.controler.d.ts` are not modelled separately. They repeat the TypeScript class.
