/**
 * Client code that drives a controller with state `{ ran: boolean, foo:
 * string }` and handlers that never throw: the situations of the
 * repository's tests, completed where a test never arms the timer, and two
 * further situations. Each method proves its outcome from the controller's
 * contracts alone.
 */
module Scenarios {
  import opened Events
  import opened Controller

  /** The test state's field values. */
  datatype Value = Text(s: string) | Flag(b: bool)

  /** A handler oracle under which no handler throws. */
  function NeverThrows(c: Call<string, Value>): (b: bool)
  {
    false
  }

  /** A default state passed to the constructor is visible at once. */
  method Defaults() returns (foo: Value)
    ensures foo == Text("bar")
  {
    var c := new StatefulController<string, Value>(200, Some(map["foo" := Text("bar")]));
    foo := c.State()["foo"];
  }

  /** A new controller with `User(1)` on `updated` and `partial` staged by `setState`. */
  method UpdatedHandlerStaged(partial: map<string, Value>) returns (c: StatefulController<string, Value>)
    ensures fresh(c) && c.Valid()
    ensures c.current == map[] && c.next == partial && c.intervals == {}
    ensures c.listeners == map[Event.Post := [Rebuilder], Event.Updated := [User(1)]]
    ensures c.internalListeners == map[]
  {
    c := new StatefulController<string, Value>(200, None);
    c.On(Event.Updated, User(1));
    var staged, pre := c.SetState(partial, NeverThrows);
  }

  /**
   * `setState({ ran: true })` leaves the state without `ran` until the next
   * tick; a handler registered on `updated` is then called once in that
   * tick and sees `ran` set. The repository's test never calls `start`, so
   * there no tick ever runs and its handler's assertion is never reached;
   * here the controller is started, and the first tick shows what that
   * assertion would see.
   */
  method Updates() returns (before: map<string, Value>, updated: Outcome<string, Value>)
    ensures "ran" !in before
    ensures updated.calls == [Call(Event.Updated, User(1), map["ran" := Flag(true)])]
  {
    var c := UpdatedHandlerStaged(map["ran" := Flag(true)]);
    before := c.State();
    var preStart, started := c.Start(1, NeverThrows);
    var ticked, posted;
    ticked, posted, updated := c.Tick(NeverThrows);
    assert c.current == map["ran" := Flag(true)];
    assert Registered(c.listeners, Event.Updated) + Registered(c.internalListeners, Event.Updated) == [User(1)];
    SoleHandlerInvoked(c.listeners, c.internalListeners, Event.Updated, c.current, NeverThrows, User(1));
  }

  /** A new controller with `User(7)` on `tick`, started with interval 1. */
  method TickHandlerStarted() returns (c: StatefulController<string, Value>)
    ensures fresh(c) && c.Valid()
    ensures c.current == map[] && c.intervals == {1} && c.timer == Some(1)
    ensures c.listeners == map[Event.Post := [Rebuilder], Event.Tick := [User(7)]]
    ensures c.internalListeners == map[]
  {
    c := new StatefulController<string, Value>(200, None);
    c.On(Event.Tick, User(7));
    var preStart, started := c.Start(1, NeverThrows);
  }

  /**
   * A `tick` handler that removes every `tick` handler and stops the
   * controller: the first tick reaches it, and afterwards no interval is
   * live, nothing is registered on `tick`, and the controller is not running.
   */
  method TicksThenStops() returns (ticked: Outcome<string, Value>, running: bool, handlers: seq<Handler>,
                                   ghost live: set<TimerHandle>)
    ensures ticked.calls == [Call(Event.Tick, User(7), map[])]
    ensures !running && handlers == [] && live == {}
  {
    var c := TickHandlerStarted();
    assert Registered(c.listeners, Event.Tick) + Registered(c.internalListeners, Event.Tick) == [User(7)];
    SoleHandlerInvoked(c.listeners, c.internalListeners, Event.Tick, c.current, NeverThrows, User(7));
    var posted, updated;
    ticked, posted, updated := c.Tick(NeverThrows);
    // what the handler does, after its own invocation
    c.Off(Event.Tick, None);
    assert c.listeners[Event.Tick] == [];
    var preStop, stopped := c.Stop(NeverThrows);
    running := c.IsRunning();
    handlers := Registered(c.listeners, Event.Tick);
    live := c.intervals;
  }

  /**
   * Two `start`s without a `stop`: the second handle replaces the first, so
   * a later `stop` reports the controller idle while the first interval is
   * still live and keeps calling `tick`.
   */
  method DoubleStartLeaksInterval() returns (running: bool, ghost live: set<TimerHandle>)
    ensures !running && live == {1}
  {
    var c := new StatefulController<string, Value>(200, None);
    var a, b := c.Start(1, NeverThrows);
    a, b := c.Start(2, NeverThrows);
    a, b := c.Stop(NeverThrows);
    running := c.IsRunning();
    live := c.intervals;
  }

  /**
   * A new controller with `User(3)` on `post` internally, the public `post`
   * set cleared by `off("post")`, and `partial` staged by `setState`.
   */
  method PostHandlerInternalOnly(partial: map<string, Value>) returns (c: StatefulController<string, Value>)
    ensures fresh(c) && c.Valid()
    ensures c.current == map[] && c.next == partial && c.mapped == map[]
    ensures c.listeners == map[Event.Post := []]
    ensures c.internalListeners == map[Event.Post := [User(3)]]
  {
    c := new StatefulController<string, Value>(200, None);
    c.OnInternal(Event.Post, User(3), None);
    c.Off(Event.Post, None);
    var staged, pre := c.SetState(partial, NeverThrows);
  }

  /**
   * `off(event)` clears only the public set: the constructor's `post`
   * listener is removed with it, so a later tick no longer refreshes the
   * key-indexed view, while an internal `post` handler is still called.
   */
  method OffRemovesViewRebuilder() returns (posted: Outcome<string, Value>, view: map<string, Value>)
    ensures posted.calls == [Call(Event.Post, User(3), map["foo" := Text("baz")])]
    ensures view == map[]
  {
    var c := PostHandlerInternalOnly(map["foo" := Text("baz")]);
    var ticked, updated;
    ticked, posted, updated := c.Tick(NeverThrows);
    assert c.current == map["foo" := Text("baz")];
    assert Registered(c.listeners, Event.Post) + Registered(c.internalListeners, Event.Post) == [User(3)];
    SoleHandlerInvoked(c.listeners, c.internalListeners, Event.Post, c.current, NeverThrows, User(3));
    view := c.mapped;
  }
}
