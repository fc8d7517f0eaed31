/** What one run of the timer scheduler of src/lua/lzmq/impl/loop.lua does, on values.

    A run is driven by its environment: when each event is visited, what its callback does, and when time
    passes.  A callback is a finite script of actions; one of them is a whole nested pass, which is what
    sleep_ex and poll amount to inside a callback.  Every terminating run is described by such a tree. */
module Scheduler {
  import opened Timers
  import opened IdLists

  /** A handle of an event; events are numbered in the order of their creation. */
  type Id = nat

  /** time_event: its timer, its lock, and whether it is a one-shot interval. */
  datatype Event = Event(timer: Timer, lock: bool, once: bool)

  /** `list` is private_.events; `store` holds every event ever created, since callbacks keep handles;
      `stack` names the events whose callbacks are running, innermost last. */
  datatype State = State(store: seq<Event>, list: seq<Id>, stack: seq<Id>, clock: Clock)

  datatype Action =
    | Wait(until: Clock)
    | AddTime(time: Stamp)
    | AddInterval(interval: int)
    | AddOnce(interval: int)
    | Reset(id: Id)
    | SetTime(id: Id, time: Stamp)
    | SetInterval(id: Id, interval: int)
    | SetIntervalOnce(id: Id, interval: int)
    | Nested(pass: seq<Turn>)

  /** One iteration of a pass: the clock reading it sees, and what the callback does if one is called. */
  datatype Turn = Turn(now: Clock, script: seq<Action>)

  /** A position of the list looked at by a pass: the event as it was then, and whether it was fired. */
  datatype Visit = Visit(id: Id, seen: Event, now: Clock, fired: bool)

  /** The start and the end of a callback, with the monotonic reading. */
  datatype Mark = Began(id: Id, at: Stamp) | Ended(id: Id, at: Stamp)

  /** What happened during a run.  `visits` are those of the pass itself; the other components also cover
      the passes nested inside it.  `gone` keeps each removed event as it was when it left the list. */
  datatype Trace = Trace(
    visits: seq<Visit>,
    examined: set<Id>,
    fired: set<Id>,
    touched: set<Id>,
    gone: map<Id, Event>,
    marks: seq<Mark>)

  const QUIET: Trace := Trace([], {}, {}, {}, map[], [])

  datatype Outcome = Outcome(s: State, t: Trace)

  function Join(a: Trace, b: Trace): Trace {
    Trace(a.visits + b.visits, a.examined + b.examined, a.fired + b.fired, a.touched + b.touched,
          a.gone + b.gone, a.marks + b.marks)
  }

  function Then(t: Trace, o: Outcome): Outcome {
    o.(t := Join(t, o.t))
  }

  // ----- time_event -----

  const NEW_EVENT: Event := Event(NEW_MONOTONIC, false, false)

  /** time_event:set_time */
  function WithTime(e: Event, time: Stamp, now: Clock): Event {
    var timer := if e.timer.absolute then e.timer else NEW_ABSOLUTE;
    e.(timer := timer.StartWith(now, time))
  }

  /** time_event:set_interval */
  function WithInterval(e: Event, interval: int, now: Clock): Event {
    var timer := if e.timer.absolute then NEW_MONOTONIC else e.timer;
    e.(timer := timer.StartWith(now, interval), once := false)
  }

  /** time_event:set_interval_once */
  function WithIntervalOnce(e: Event, interval: int, now: Clock): Event {
    WithInterval(e, interval, now).(once := true)
  }

  /** time_event:reset; the library raises a Lua error when the event is not started. */
  function WithReset(e: Event): Event
    requires e.timer.started
  {
    e.(timer := e.timer.Stop())
  }

  predicate OneShot(e: Event) {
    e.once || e.timer.absolute
  }

  /** time_event:restart */
  function Restarted(e: Event, now: Clock): Event {
    if OneShot(e) then (if e.timer.started then e.(timer := e.timer.Stop()) else e)
    else e.(timer := e.timer.Start(now))
  }

  /** An event the scheduler would fire now. */
  predicate Due(e: Event, now: Clock) {
    e.timer.Valid() && !e.lock && e.timer.started && e.timer.Rest(now) == 0
  }

  // ----- the state -----

  function At(s: State, id: Id): Event {
    if id < |s.store| then s.store[id] else NEW_EVENT
  }

  function Put(s: State, id: Id, e: Event): State {
    if id < |s.store| then s.(store := s.store[id := e]) else s
  }

  /** zmq_loop:add_time, add_interval and add_once: a fresh event goes to the end of the list. */
  function Add(s: State, e: Event): State {
    s.(store := s.store + [e], list := s.list + [|s.store|])
  }

  /** Before the callback: the event is locked. */
  function Enter(s: State, id: Id): State {
    Put(s, id, At(s, id).(lock := true)).(stack := s.stack + [id])
  }

  /** After the callback: the event is unlocked, and armed again unless it was stopped or is one-shot. */
  function Leave(s: State, id: Id): State {
    var e := At(s, id).(lock := false);
    Put(s, id, if e.timer.started then Restarted(e, s.clock) else e)
      .(stack := if s.stack == [] then [] else s.stack[..|s.stack| - 1])
  }

  function Stopped(s: State): set<Id> {
    set id | id in s.list && !At(s, id).lock && !At(s, id).timer.started
  }

  /** event_list:purge */
  function Purge(s: State): Outcome {
    var dead := Stopped(s);
    Outcome(s.(list := Without(s.list, dead)), QUIET.(gone := map id | id in dead :: At(s, id)))
  }

  function Finish(o: Outcome): Outcome {
    Then(o.t, Purge(o.s))
  }

  // ----- running -----

  /** The state an iteration works on: time may have passed. */
  function Reading(s: State, turns: seq<Turn>): State {
    if turns == [] then s else s.(clock := Later(s.clock, turns[0].now))
  }

  function Rest(turns: seq<Turn>): seq<Turn> {
    if turns == [] then [] else turns[1..]
  }

  /** The record of looking at `id`. */
  function Look(s: State, id: Id): Trace {
    QUIET.(visits := [Visit(id, At(s, id), s.clock, Due(At(s, id), s.clock))], examined := {id})
  }

  /** A stopped event that is not locked leaves the list at once. */
  predicate Drops(e: Event) {
    !e.lock && !e.timer.started
  }

  function Next(s: State, i: nat): nat {
    if i < |s.list| && Drops(At(s, s.list[i])) then i else i + 1
  }

  /** One iteration of the loop of event_list:fire, at position i. */
  function VisitAt(s: State, i: nat, turns: seq<Turn>): (o: Outcome)
    requires i < |s.list|
    ensures turns == [] ==> |o.s.list| - Next(s, i) < |s.list| - i
    decreases turns, |s.list| - i, 0
  {
    var s0 := Reading(s, turns);
    var id := s.list[i];
    var e := At(s0, id);
    if Drops(e) then
      Outcome(s0.(list := s.list[..i] + s.list[i + 1..]), Look(s0, id).(gone := map[id := e]))
    else if !Due(e, s0.clock) then
      Outcome(s0, Look(s0, id))
    else
      var s1 := Enter(s0, id);
      var r := if turns == [] then Outcome(s1, QUIET) else Run(s1, turns[0].script);
      Outcome(Leave(r.s, id), Join(Look(s0, id), Bracket(id, s0.clock.mono, r)))
  }

  /** The loop of event_list:fire from position i on. */
  function Loop(s: State, i: nat, turns: seq<Turn>): Outcome
    decreases turns, if i < |s.list| then |s.list| - i else 0, 1
  {
    if i >= |s.list| then Outcome(s, QUIET)
    else
      var step := VisitAt(s, i, turns);
      Then(step.t, Loop(step.s, Next(s, i), Rest(turns)))
  }

  /** What the callback of `id` adds to the trace. */
  function Bracket(id: Id, from: Stamp, r: Outcome): Trace {
    r.t.(visits := [], fired := r.t.fired + {id},
         marks := [Began(id, from)] + r.t.marks + [Ended(id, r.s.clock.mono)])
  }

  /** A callback, action by action.  Handles that do not exist, and resets the library would reject, do nothing. */
  function Run(s: State, script: seq<Action>): Outcome
    decreases script, 0, 0
  {
    if script == [] then Outcome(s, QUIET)
    else
      var first := Do(s, script[0]);
      Then(first.t, Run(first.s, script[1..]))
  }

  /** The callback of the event visited in the first of `turns`. */
  function Callback(s: State, turns: seq<Turn>): Outcome {
    if turns == [] then Outcome(s, QUIET) else Run(s, turns[0].script)
  }

  function Do(s: State, a: Action): Outcome
    decreases a, 0, 0
  {
    if a.Nested? then
      var r := Finish(Loop(s, 0, a.pass));
      r.(t := r.t.(visits := []))
    else Simple(s, a)
  }

  /** The actions that do not start a pass. */
  function Simple(s: State, a: Action): Outcome
    requires !a.Nested?
  {
    match a
    case Wait(until) => Outcome(s.(clock := Later(s.clock, until)), QUIET)
    case AddTime(time) => Outcome(Add(s, WithTime(NEW_EVENT, time, s.clock)), QUIET)
    case AddInterval(interval) => Outcome(Add(s, WithInterval(NEW_EVENT, interval, s.clock)), QUIET)
    case AddOnce(interval) => Outcome(Add(s, WithIntervalOnce(NEW_EVENT, interval, s.clock)), QUIET)
    case Reset(id) =>
      if At(s, id).timer.started then Touch(s, id, WithReset(At(s, id))) else Outcome(s, QUIET)
    case SetTime(id, time) => Touch(s, id, WithTime(At(s, id), time, s.clock))
    case SetInterval(id, interval) => Touch(s, id, WithInterval(At(s, id), interval, s.clock))
    case SetIntervalOnce(id, interval) => Touch(s, id, WithIntervalOnce(At(s, id), interval, s.clock))
  }

  function Touch(s: State, id: Id, e: Event): Outcome {
    Outcome(Put(s, id, e), QUIET.(touched := {id}))
  }

  /** event_list:fire */
  function Fire(s: State, turns: seq<Turn>): Outcome {
    Finish(Loop(s, 0, turns))
  }

  /** The value event_list:fire returns: how many events this pass fired itself. */
  function Count(visits: seq<Visit>): nat {
    if visits == [] then 0 else (if visits[0].fired then 1 else 0) + Count(visits[1..])
  }
}
