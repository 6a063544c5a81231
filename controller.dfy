/**
 * `StatefulController`: a state store with three generations (`current`,
 * `next`, `stale`), an event dispatcher with a public and an internal
 * registry, and a periodic `tick` that commits staged state.
 *
 * Handler bodies are opaque. Whether a handler throws is given to every
 * operation that emits as the oracle `throws`, which sees the event, the
 * handler and the state the handler is called with. Handlers are awaited one
 * at a time, so every operation here is one sequential step; the timer is a
 * handle that the platform's `setInterval` supplies, and `Tick` is called by
 * whoever models the platform's interval firing.
 */
module Controller {
  import opened StateStore
  import opened Events
  import Registry

  datatype Option<T> = None | Some(value: T)

  /** A handle returned by the platform's `setInterval`. */
  type TimerHandle = nat

  class StatefulController<K(==), V> {
    /** Loop resolution in milliseconds, taken from `props.tickRate`. */
    const tickRate: int

    var listeners: Listeners
    var internalListeners: Listeners
    var errorListeners: map<Handler, ErrorHandler>
    var timer: Option<TimerHandle>

    var current: map<K, V>
    var next: map<K, V>
    var stale: map<K, V>
    /** The key-indexed view of the state that the constructor's `post` listener rebuilds. */
    var mapped: map<K, V>

    /** The platform's live intervals: each keeps calling `tick` until it is cleared. */
    ghost var intervals: set<TimerHandle>

    ghost predicate Valid()
      reads this
    {
      && stale.Keys <= current.Keys
      && mapped.Keys <= current.Keys
      && (forall e :: e in listeners ==> Registry.NoDuplicates(listeners[e]))
      && (forall e :: e in internalListeners ==> Registry.NoDuplicates(internalListeners[e]))
      && (timer.Some? ==> timer.value in intervals)
    }

    /** The `state` getter. */
    function State(): (s: map<K, V>)
      reads this
    {
      current
    }

    /** The `isRunning` getter: a timer handle is held. */
    predicate IsRunning()
      reads this
    {
      timer.Some?
    }

    /**
     * The constructor: merges the optional default state into the (empty)
     * state, then registers, publicly, the `post` listener that rebuilds
     * the key-indexed view.
     */
    constructor (tickRate: int, defaultState: Option<map<K, V>>)
      ensures Valid()
      ensures this.tickRate == tickRate
      ensures current == (if defaultState.Some? then defaultState.value else map[])
      ensures next == map[] && stale == map[] && mapped == map[]
      ensures listeners == map[Event.Post := [Rebuilder]]
      ensures internalListeners == map[] && errorListeners == map[]
      ensures timer == None && intervals == {}
    {
      this.tickRate := tickRate;
      listeners, internalListeners, errorListeners := map[], map[], map[];
      timer := None;
      current, next, stale, mapped := map[], map[], map[], map[];
      intervals := {};
      new;
      if defaultState.Some? {
        SetDefaultState(defaultState.value);
      }
      On(Event.Post, Rebuilder);
    }

    /** The `state` setter: merges into `current` alone, emitting nothing. */
    method WriteState(partial: map<K, V>)
      requires Valid()
      modifies this`current
      ensures Valid()
      ensures current == Merge(old(current), partial)
    {
      current := Merge(current, partial);
    }

    /** The `defaultState` setter: `state = { ...state, ...value }`. */
    method SetDefaultState(value: map<K, V>)
      requires Valid()
      modifies this`current
      ensures Valid()
      ensures current == Merge(old(current), value)
    {
      MergeOntoSelf(current, value);
      WriteState(Merge(State(), value));
    }

    /**
     * `setState`: snapshots `current` into `stale`, stages `partial` in
     * `next`, emits `pre`, and resolves with the staged (not yet committed)
     * record. `current` is untouched until the next tick.
     */
    method SetState(partial: map<K, V>, throws: Call<K, V> -> bool) returns (staged: map<K, V>, pre: Outcome<K, V>)
      requires Valid()
      modifies this`stale, this`next, this`mapped
      ensures Valid()
      ensures stale == Merge(old(stale), old(current)) == old(current)
      ensures next == Merge(old(next), partial)
      ensures pre == Dispatch(listeners, internalListeners, Event.Pre, current, throws) && !pre.threw
      ensures mapped == if RebuilderRan(pre.calls) then current else old(mapped)
      ensures staged == next
    {
      SnapshotIsCurrent(stale, current);
      stale := Merge(stale, current);
      next := Merge(next, partial);
      OrdinaryEventNeverThrows(listeners, internalListeners, Event.Pre, current, throws);
      pre := Emit(Event.Pre, throws);
      staged := next;
    }

    /**
     * `setImmediateState`: merges `partial` into each of the three
     * generations, emits nothing, and returns the new `current`.
     */
    method SetImmediateState(partial: map<K, V>) returns (r: map<K, V>)
      requires Valid()
      modifies this`current, this`next, this`stale
      ensures Valid()
      ensures current == Merge(old(current), partial)
      ensures next == Merge(old(next), partial)
      ensures stale == Merge(old(stale), partial)
      ensures r == current && Submap(partial, r)
      ensures old(current) == old(next) == old(stale) ==> current == next == stale
    {
      current := Merge(current, partial);
      next := Merge(next, partial);
      stale := Merge(stale, partial);
      r := current;
    }

    /**
     * `start`: emits `pre-start`, arms the interval (overwriting any handle
     * already held), then emits `start`. `handle` is what `setInterval`
     * returns, which is never the handle of an interval still live.
     */
    method Start(handle: TimerHandle, throws: Call<K, V> -> bool) returns (preStart: Outcome<K, V>, started: Outcome<K, V>)
      requires Valid()
      requires handle !in intervals
      modifies this`timer, this`intervals, this`mapped
      ensures Valid()
      ensures preStart == Dispatch(listeners, internalListeners, Event.PreStart, current, throws) && !preStart.threw
      ensures started == Dispatch(listeners, internalListeners, Event.Start, current, throws) && !started.threw
      ensures timer == Some(handle) && IsRunning()
      ensures intervals == old(intervals) + {handle}
      ensures mapped == if RebuilderRan(preStart.calls + started.calls) then current else old(mapped)
    {
      OrdinaryEventNeverThrows(listeners, internalListeners, Event.PreStart, current, throws);
      OrdinaryEventNeverThrows(listeners, internalListeners, Event.Start, current, throws);
      preStart := Emit(Event.PreStart, throws);
      intervals := intervals + {handle};
      timer := Some(handle);
      started := Emit(Event.Start, throws);
      RebuilderRanAppend(preStart.calls, started.calls);
    }

    /**
     * `stop`: emits `pre-stop`, clears the held interval (if any) and drops
     * the handle, then emits `stop`. Stopping while idle is harmless.
     */
    method Stop(throws: Call<K, V> -> bool) returns (preStop: Outcome<K, V>, stopped: Outcome<K, V>)
      requires Valid()
      modifies this`timer, this`intervals, this`mapped
      ensures Valid()
      ensures preStop == Dispatch(listeners, internalListeners, Event.PreStop, current, throws) && !preStop.threw
      ensures stopped == Dispatch(listeners, internalListeners, Event.Stop, current, throws) && !stopped.threw
      ensures timer == None && !IsRunning()
      ensures intervals == old(intervals) - (if old(timer).Some? then {old(timer).value} else {})
      ensures mapped == if RebuilderRan(preStop.calls + stopped.calls) then current else old(mapped)
    {
      OrdinaryEventNeverThrows(listeners, internalListeners, Event.PreStop, current, throws);
      OrdinaryEventNeverThrows(listeners, internalListeners, Event.Stop, current, throws);
      preStop := Emit(Event.PreStop, throws);
      if timer.Some? {
        intervals := intervals - {timer.value};
      }
      timer := None;
      stopped := Emit(Event.Stop, throws);
      RebuilderRanAppend(preStop.calls, stopped.calls);
    }

    /**
     * One `tick`: emits `tick` while `current` is still the old state,
     * commits (`stale` becomes the old `current`, `current` takes every
     * staged field; `next` is kept), then emits `post` and `updated`, which
     * both see the committed state.
     */
    method Tick(throws: Call<K, V> -> bool) returns (ticked: Outcome<K, V>, posted: Outcome<K, V>, updated: Outcome<K, V>)
      requires Valid()
      modifies this`current, this`stale, this`mapped
      ensures Valid()
      ensures ticked == Dispatch(listeners, internalListeners, Event.Tick, old(current), throws) && !ticked.threw
      ensures stale == old(current)
      ensures current == Merge(old(current), next) && Submap(next, current)
      ensures posted == Dispatch(listeners, internalListeners, Event.Post, current, throws) && !posted.threw
      ensures updated == Dispatch(listeners, internalListeners, Event.Updated, current, throws) && !updated.threw
      ensures mapped == if RebuilderRan(posted.calls + updated.calls) then current
                        else if RebuilderRan(ticked.calls) then old(current)
                        else old(mapped)
      ensures Rebuilder in Registered(listeners, Event.Post) ==> mapped == current
    {
      OrdinaryEventNeverThrows(listeners, internalListeners, Event.Tick, current, throws);
      ticked := Emit(Event.Tick, throws);
      SnapshotIsCurrent(stale, current);
      stale := Merge(stale, current);
      current := Merge(current, next);
      OrdinaryEventNeverThrows(listeners, internalListeners, Event.Post, current, throws);
      OrdinaryEventNeverThrows(listeners, internalListeners, Event.Updated, current, throws);
      posted := Emit(Event.Post, throws);
      updated := Emit(Event.Updated, throws);
      RebuilderRanAppend(posted.calls, updated.calls);
      if Rebuilder in Registered(listeners, Event.Post) {
        RebuilderRunsWhileRegistered(listeners, internalListeners, Event.Post, current, throws);
      }
    }

    /**
     * `on`: adds `handler` to the public set of `e`, creating the set on
     * first use; adding a handler already there changes nothing.
     */
    method On(e: Event, handler: Handler)
      requires Valid()
      modifies this`listeners
      ensures Valid()
      ensures listeners == old(listeners)[e := Registry.Add(Registered(old(listeners), e), handler)]
      ensures handler in listeners[e]
    {
      var handlers := Registered(listeners, e);
      listeners := listeners[e := Registry.Add(handlers, handler)];
    }

    /**
     * `off`: with a handler, deletes it from the public set of `e` (an event
     * never registered is left alone); without one, replaces that set by an
     * empty one. The internal registry is never touched.
     */
    method Off(e: Event, handler: Option<Handler>)
      requires Valid()
      modifies this`listeners
      ensures Valid()
      ensures handler.None? ==> listeners == old(listeners)[e := []]
      ensures handler.Some? && e !in old(listeners) ==> listeners == old(listeners)
      ensures handler.Some? && e in old(listeners) ==>
                listeners == old(listeners)[e := Registry.Remove(old(listeners)[e], handler.value)]
      ensures handler.Some? ==> handler.value !in Registered(listeners, e)
    {
      if handler.None? {
        listeners := listeners[e := []];
      }
      if e !in listeners {
        return;
      }
      if handler.Some? {
        Registry.RemoveKeepsNoDuplicates(listeners[e], handler.value);
        listeners := listeners[e := Registry.Remove(listeners[e], handler.value)];
      }
    }

    /**
     * `onInternal`: for `error` does nothing; otherwise records the error
     * handler when one is supplied and adds `handler` to the internal set of `e`.
     */
    method OnInternal(e: Event, handler: Handler, errorHandler: Option<ErrorHandler>)
      requires Valid()
      modifies this`internalListeners, this`errorListeners
      ensures Valid()
      ensures e == Event.Error ==> internalListeners == old(internalListeners) && errorListeners == old(errorListeners)
      ensures e != Event.Error ==>
                internalListeners == old(internalListeners)[e := Registry.Add(Registered(old(internalListeners), e), handler)]
      ensures e != Event.Error ==>
                errorListeners == if errorHandler.Some? then old(errorListeners)[handler := errorHandler.value]
                                  else old(errorListeners)
    {
      if e == Event.Error {
        return;
      }
      var handlers := Registered(internalListeners, e);
      if errorHandler.Some? {
        errorListeners := errorListeners[handler := errorHandler.value];
      }
      internalListeners := internalListeners[e := Registry.Add(handlers, handler)];
    }

    /**
     * `emit`: nothing when neither registry has `e`; otherwise the public
     * handlers, then (unless an `error` handler threw) the internal ones.
     */
    method Emit(e: Event, throws: Call<K, V> -> bool) returns (o: Outcome<K, V>)
      requires Valid()
      modifies this`mapped
      ensures Valid()
      ensures o == Dispatch(listeners, internalListeners, e, current, throws)
      ensures mapped == if RebuilderRan(o.calls) then current else old(mapped)
    {
      if e !in listeners && e !in internalListeners {
        return Outcome([], false);
      }
      o := Outcome([], false);
      if e in listeners {
        o := InvokeEach(e, listeners[e], throws);
        if o.threw {
          return;
        }
      }
      if e in internalListeners {
        var more := InvokeEach(e, internalListeners[e], throws);
        RebuilderRanAppend(o.calls, more.calls);
        o := Outcome(o.calls + more.calls, more.threw);
      }
    }

    /**
     * One `for ... of` loop of `emit`: calls each handler with the current
     * state; a throw is caught and ignored (the `onError` hook is empty)
     * unless the event is `error`, when it ends the loop and escapes.
     */
    method InvokeEach(e: Event, handlers: seq<Handler>, throws: Call<K, V> -> bool) returns (o: Outcome<K, V>)
      modifies this`mapped
      ensures o == RunHandlers(e, handlers, current, throws)
      ensures mapped == if RebuilderRan(o.calls) then current else old(mapped)
    {
      var calls: seq<Call<K, V>> := [];
      var threw := false;
      var i := 0;
      while i < |handlers| && !threw
        invariant 0 <= i <= |handlers|
        invariant calls == Calls(e, handlers[..i], current)
        invariant !threw && e == Event.Error ==> forall j :: 0 <= j < i ==> !throws(calls[j])
        invariant threw ==> e == Event.Error && 0 < i && throws(calls[i - 1])
        invariant threw ==> forall j :: 0 <= j < i - 1 ==> !throws(calls[j])
        invariant mapped == if RebuilderRan(calls) then current else old(mapped)
      {
        var call := Call(e, handlers[i], current);
        if handlers[i] == Rebuilder {
          mapped := current;
        }
        if throws(call) && e == Event.Error {
          threw := true;
        }
        RebuilderRanAppend(calls, [call]);
        CallsExtend(e, handlers, i, current);
        calls := calls + [call];
        i := i + 1;
      }
      RunHandlersStopsAt(e, handlers, current, throws, i, threw);
      o := Outcome(calls, threw);
    }
  }
}
