/**
 * The event dispatcher's vocabulary and the specification of one `emit`.
 *
 * `emit(e)` walks the public listener set of `e` and then the internal one,
 * each in insertion order, awaiting one handler at a time and handing each
 * the current state. A handler that throws is caught; the exception is
 * re-thrown, ending the dispatch, only when the event is `"error"`.
 */
module Events {
  import Registry

  /** The closed set of event names. */
  datatype Event = Pre | Post | Tick | Error | Updated | Start | PreStart | PreStop | Stop

  /**
   * A handler reference. Handler bodies are opaque, except the listener the
   * constructor registers on `post`, which rebuilds the key-indexed view of
   * the state; every other handler is a caller's, told apart by an id.
   * `Rebuilder` is a closure private to the controller: only the constructor
   * registers it (on `post`), and no client can name it in `on`, `off` or
   * `onInternal`.
   */
  datatype Handler = Rebuilder | User(id: nat)

  /** An id for an error handler supplied through `onInternal`. */
  type ErrorHandler = nat

  /** Event name to listener set, as the controller's `Map<stateEvents, Set<eventHandler>>`. */
  type Listeners = map<Event, seq<Handler>>

  /** One invocation: `handler` called for `event` with the state snapshot `state`. */
  datatype Call<K, V> = Call(event: Event, handler: Handler, state: map<K, V>)

  /** What one dispatch did: the invocations in order, and whether an exception escaped it. */
  datatype Outcome<K, V> = Outcome(calls: seq<Call<K, V>>, threw: bool)

  /** The listener set of `e`; an event never registered iterates like an empty set. */
  function Registered(listeners: Listeners, e: Event): (hs: seq<Handler>)
  {
    if e in listeners then listeners[e] else []
  }

  /** The invocations of `hs`, in order, for event `e` with state `st`. */
  function Calls<K, V>(e: Event, hs: seq<Handler>, st: map<K, V>): (cs: seq<Call<K, V>>)
    ensures |cs| == |hs|
    ensures forall j :: 0 <= j < |hs| ==> cs[j] == Call(e, hs[j], st)
  {
    if hs == [] then [] else [Call(e, hs[0], st)] + Calls(e, hs[1..], st)
  }

  /** Position of the first invocation that throws, or `|cs|` when none does. */
  function FirstThrow<K, V>(cs: seq<Call<K, V>>, throws: Call<K, V> -> bool): (k: nat)
    ensures k <= |cs|
    ensures forall j :: 0 <= j < k ==> !throws(cs[j])
    ensures k < |cs| ==> throws(cs[k])
  {
    if cs == [] then 0
    else if throws(cs[0]) then 0
    else 1 + FirstThrow(cs[1..], throws)
  }

  /**
   * One `for ... of` loop with its `try`/`catch`: every handler is invoked in
   * order; for `"error"` the first one that throws is the last one invoked
   * and its exception escapes.
   */
  function RunHandlers<K, V>(e: Event, hs: seq<Handler>, st: map<K, V>, throws: Call<K, V> -> bool): (o: Outcome<K, V>)
  {
    var cs := Calls(e, hs, st);
    if e == Error then UntilFirstThrow(cs, throws) else Outcome(cs, false)
  }

  /** The invocations `cs` carried out up to and including the first that throws, whose exception escapes. */
  function UntilFirstThrow<K, V>(cs: seq<Call<K, V>>, throws: Call<K, V> -> bool): (o: Outcome<K, V>)
  {
    var k := FirstThrow(cs, throws);
    if k < |cs| then Outcome(cs[..k + 1], true) else Outcome(cs, false)
  }

  /**
   * The whole of `emit(e)`: nothing happens when neither registry has an
   * entry for `e`; otherwise the public handlers run, then, unless an
   * exception escaped, the internal ones.
   */
  function Dispatch<K, V>(public: Listeners, internal: Listeners, e: Event, st: map<K, V>,
                          throws: Call<K, V> -> bool): (o: Outcome<K, V>)
  {
    if e !in public && e !in internal then Outcome([], false)
    else
      var p := RunHandlers(e, Registered(public, e), st, throws);
      if p.threw then p
      else
        var q := RunHandlers(e, Registered(internal, e), st, throws);
        Outcome(p.calls + q.calls, q.threw)
  }

  /** Some invocation in `calls` is of the listener that rebuilds the key-indexed view. */
  ghost predicate RebuilderRan<K, V>(calls: seq<Call<K, V>>)
  {
    exists j :: 0 <= j < |calls| && calls[j].handler == Rebuilder
  }

  lemma RebuilderRanAppend<K, V>(a: seq<Call<K, V>>, b: seq<Call<K, V>>)
    ensures RebuilderRan(a + b) <==> RebuilderRan(a) || RebuilderRan(b)
  {
    if RebuilderRan(a + b) {
      var j :| 0 <= j < |a + b| && (a + b)[j].handler == Rebuilder;
      if j >= |a| {
        assert b[j - |a|] == (a + b)[j];
      }
    }
    if RebuilderRan(b) {
      var j :| 0 <= j < |b| && b[j].handler == Rebuilder;
      assert (a + b)[|a| + j] == b[j];
    }
    if RebuilderRan(a) {
      var j :| 0 <= j < |a| && a[j].handler == Rebuilder;
      assert (a + b)[j] == a[j];
    }
  }

  lemma {:induction false} CallsAppend<K, V>(e: Event, a: seq<Handler>, b: seq<Handler>, st: map<K, V>)
    ensures Calls(e, a + b, st) == Calls(e, a, st) + Calls(e, b, st)
  {
    var lhs, rhs := Calls(e, a + b, st), Calls(e, a, st) + Calls(e, b, st);
    assert |lhs| == |rhs|;
    forall j | 0 <= j < |lhs| ensures lhs[j] == rhs[j] {
      if j < |a| {
        assert (a + b)[j] == a[j];
      } else {
        assert (a + b)[j] == b[j - |a|];
      }
    }
  }

  /** Invoking one more handler extends the invocations by one call. */
  lemma CallsExtend<K, V>(e: Event, hs: seq<Handler>, i: nat, st: map<K, V>)
    requires i < |hs|
    ensures Calls(e, hs[..i + 1], st) == Calls(e, hs[..i], st) + [Call(e, hs[i], st)]
  {
    assert hs[..i + 1] == hs[..i] + [hs[i]];
    CallsAppend(e, hs[..i], [hs[i]], st);
  }

  /**
   * Where a loop that invokes `hs` one by one stops, as `RunHandlers` says:
   * after the whole sequence when nothing escaped, or right after the first
   * `"error"` handler that threw.
   */
  lemma RunHandlersStopsAt<K, V>(e: Event, hs: seq<Handler>, st: map<K, V>, throws: Call<K, V> -> bool,
                                 i: nat, threw: bool)
    requires i <= |hs|
    requires !threw ==> i == |hs| && (e == Error ==> forall j :: 0 <= j < i ==> !throws(Calls(e, hs[..i], st)[j]))
    requires threw ==> e == Error && 0 < i && throws(Calls(e, hs[..i], st)[i - 1])
    requires threw ==> forall j :: 0 <= j < i - 1 ==> !throws(Calls(e, hs[..i], st)[j])
    ensures RunHandlers(e, hs, st, throws) == Outcome(Calls(e, hs[..i], st), threw)
  {
    var cs := Calls(e, hs, st);
    CallsAppend(e, hs[..i], hs[i..], st);
    assert hs[..i] + hs[i..] == hs;
    var k := FirstThrow(cs, throws);
    if threw {
      assert cs[i - 1] == Calls(e, hs[..i], st)[i - 1];
      assert k == i - 1;
      assert cs[..i] == Calls(e, hs[..i], st);
    } else {
      assert hs[..i] == hs;
    }
  }

  /** The first throw in a concatenation is the first of the front part, or else one in the back part. */
  lemma {:induction false} FirstThrowAppend<K, V>(a: seq<Call<K, V>>, b: seq<Call<K, V>>, throws: Call<K, V> -> bool)
    ensures FirstThrow(a + b, throws) ==
            if FirstThrow(a, throws) < |a| then FirstThrow(a, throws) else |a| + FirstThrow(b, throws)
  {
    if a == [] {
      assert a + b == b;
    } else {
      assert (a + b)[0] == a[0];
      assert (a + b)[1..] == a[1..] + b;
      FirstThrowAppend(a[1..], b, throws);
    }
  }

  /**
   * For every event except `"error"`, a throwing handler does not stop the
   * dispatch: every public handler and then every internal handler is
   * invoked, in insertion order, with the same state, and nothing escapes.
   */
  lemma OrdinaryEventReachesEveryHandler<K, V>(public: Listeners, internal: Listeners, e: Event,
                                               st: map<K, V>, throws: Call<K, V> -> bool)
    requires e != Error
    ensures Dispatch(public, internal, e, st, throws)
         == Outcome(Calls(e, Registered(public, e) + Registered(internal, e), st), false)
  {
    CallsAppend(e, Registered(public, e), Registered(internal, e), st);
  }

  /** An ordinary event with a single handler registered, in either registry, invokes just that handler. */
  lemma SoleHandlerInvoked<K, V>(public: Listeners, internal: Listeners, e: Event,
                                 st: map<K, V>, throws: Call<K, V> -> bool, h: Handler)
    requires e != Error
    requires Registered(public, e) + Registered(internal, e) == [h]
    ensures Dispatch(public, internal, e, st, throws) == Outcome([Call(e, h, st)], false)
  {
    OrdinaryEventReachesEveryHandler(public, internal, e, st, throws);
  }

  /** No exception escapes the dispatch of an event other than `"error"`. */
  lemma OrdinaryEventNeverThrows<K, V>(public: Listeners, internal: Listeners, e: Event,
                                       st: map<K, V>, throws: Call<K, V> -> bool)
    requires e != Error
    ensures !Dispatch(public, internal, e, st, throws).threw
  {
  }

  /**
   * For `"error"`, the dispatch runs the public then the internal handlers
   * up to and including the first that throws, and an exception escapes
   * exactly when some registered handler throws.
   */
  lemma ErrorEventStopsAtFirstThrow<K, V>(public: Listeners, internal: Listeners,
                                          st: map<K, V>, throws: Call<K, V> -> bool)
    ensures var all := Calls(Error, Registered(public, Error) + Registered(internal, Error), st);
            var k := FirstThrow(all, throws);
            var o := Dispatch(public, internal, Error, st, throws);
            && o.threw == (exists j :: 0 <= j < |all| && throws(all[j]))
            && o.calls == (if k < |all| then all[..k + 1] else all)
  {
    var pub, intl := Registered(public, Error), Registered(internal, Error);
    var cp, ci := Calls(Error, pub, st), Calls(Error, intl, st);
    var all := Calls(Error, pub + intl, st);
    assert all == cp + ci by {
      CallsAppend(Error, pub, intl, st);
    }
    FirstThrowFindsAny(all, throws);
    ErrorDispatchAsConcatenation(public, internal, st, throws);
  }

  /** The error-event dispatch expressed over the concatenated invocations of both registries. */
  lemma ErrorDispatchAsConcatenation<K, V>(public: Listeners, internal: Listeners,
                                           st: map<K, V>, throws: Call<K, V> -> bool)
    ensures var cp := Calls(Error, Registered(public, Error), st);
            var ci := Calls(Error, Registered(internal, Error), st);
            Dispatch(public, internal, Error, st, throws) == UntilFirstThrow(cp + ci, throws)
  {
    var cp := Calls(Error, Registered(public, Error), st);
    var ci := Calls(Error, Registered(internal, Error), st);
    if Error !in public && Error !in internal {
      assert cp + ci == [];
    } else {
      UntilFirstThrowAppend(cp, ci, throws);
    }
  }

  /** Running two sequences of invocations one after the other, stopping at the first throw, runs their concatenation. */
  lemma UntilFirstThrowAppend<K, V>(a: seq<Call<K, V>>, b: seq<Call<K, V>>, throws: Call<K, V> -> bool)
    ensures var p := UntilFirstThrow(a, throws);
            var q := UntilFirstThrow(b, throws);
            (if p.threw then p else Outcome(a + q.calls, q.threw)) == UntilFirstThrow(a + b, throws)
  {
    var ka, kb := FirstThrow(a, throws), FirstThrow(b, throws);
    FirstThrowAppend(a, b, throws);
    if ka < |a| {
      PrefixOfAppend(a, b, ka + 1);
    } else if kb < |b| {
      PrefixOfAppend(a, b, |a| + kb + 1);
    }
  }

  lemma PrefixOfAppend<T>(a: seq<T>, b: seq<T>, n: nat)
    requires n <= |a| + |b|
    ensures (a + b)[..n] == if n <= |a| then a[..n] else a + b[..n - |a|]
  {
    if n > |a| {
      assert (a + b)[..n] == a + b[..n - |a|];
    }
  }

  /** `FirstThrow` falls inside the sequence exactly when some invocation in it throws. */
  lemma FirstThrowFindsAny<K, V>(cs: seq<Call<K, V>>, throws: Call<K, V> -> bool)
    ensures FirstThrow(cs, throws) < |cs| <==> exists j :: 0 <= j < |cs| && throws(cs[j])
  {
    if exists j :: 0 <= j < |cs| && throws(cs[j]) {
      var j :| 0 <= j < |cs| && throws(cs[j]);
      assert FirstThrow(cs, throws) <= j;
    }
  }

  /** A dispatch only ever invokes handlers registered, publicly or internally, for the event emitted. */
  lemma InvokedOnlyIfRegistered<K, V>(public: Listeners, internal: Listeners, e: Event,
                                      st: map<K, V>, throws: Call<K, V> -> bool, j: nat)
    requires j < |Dispatch(public, internal, e, st, throws).calls|
    ensures var c := Dispatch(public, internal, e, st, throws).calls[j];
            && c.event == e && c.state == st
            && (c.handler in Registered(public, e) || c.handler in Registered(internal, e))
  {
    var pub, intl := Registered(public, e), Registered(internal, e);
    CallsAppend(e, pub, intl, st);
    var all := Calls(e, pub + intl, st);
    if e == Error {
      ErrorEventStopsAtFirstThrow(public, internal, st, throws);
    } else {
      OrdinaryEventReachesEveryHandler(public, internal, e, st, throws);
    }
    assert Dispatch(public, internal, e, st, throws).calls[j] == all[j];
    assert (pub + intl)[j] in pub || (pub + intl)[j] in intl;
  }

  /**
   * An ordinary event whose public set holds the view-rebuilding listener
   * always reaches it, whatever the other handlers do.
   */
  lemma RebuilderRunsWhileRegistered<K, V>(public: Listeners, internal: Listeners, e: Event,
                                           st: map<K, V>, throws: Call<K, V> -> bool)
    requires e != Error
    requires Rebuilder in Registered(public, e)
    ensures RebuilderRan(Dispatch(public, internal, e, st, throws).calls)
  {
    var pub := Registered(public, e);
    OrdinaryEventReachesEveryHandler(public, internal, e, st, throws);
    var j :| 0 <= j < |pub| && pub[j] == Rebuilder;
    var all := Calls(e, pub + Registered(internal, e), st);
    assert (pub + Registered(internal, e))[j] == Rebuilder;
    assert all[j].handler == Rebuilder;
  }
}
