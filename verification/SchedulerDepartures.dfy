/** Events that leave the list of the scheduler: they never come back, and what that means for the list after a pass. */
module SchedulerDepartures {
  import opened Timers
  import opened IdLists
  import opened Scheduler
  import opened SchedulerInvariants
  import opened SchedulerTheorems
  import opened SchedulerActions

  // ----- what is out of the list stays out -----

  /** Only events of the list and new ones are looked at. */
  ghost predicate LooksAtListed(s: State, o: Outcome) {
    forall x :: x in o.t.examined ==> x in s.list || |s.store| <= x
  }

  lemma {:induction false} LooksThen(s: State, a: Outcome, b: Outcome)
    requires WellFormed(s) && Follows(s, a) && LooksAtListed(s, a) && LooksAtListed(a.s, b)
    ensures LooksAtListed(s, Then(a.t, b))
  {
    forall x | x in b.t.examined
      ensures x in s.list || |s.store| <= x
    {
      ListAfter(s, a, x);
    }
  }

  lemma {:induction false} VisitLooks(s: State, i: nat, turns: seq<Turn>)
    requires WellFormed(s) && i < |s.list|
    ensures LooksAtListed(s, VisitAt(s, i, turns))
    decreases turns, |s.list| - i, 0
  {
    var s0 := Reading(s, turns);
    var id := s.list[i];
    if Due(At(s0, id), s0.clock) && turns != [] {
      WaitFollows(s, s0.clock);
      EnterWellFormed(s0, id);
      RunLooks(Enter(s0, id), turns[0].script);
    }
  }

  lemma {:induction false} LoopLooks(s: State, i: nat, turns: seq<Turn>)
    requires WellFormed(s)
    ensures LooksAtListed(s, Loop(s, i, turns))
    decreases turns, if i < |s.list| then |s.list| - i else 0, 1
  {
    if i < |s.list| {
      var o := VisitAt(s, i, turns);
      VisitFollows(s, i, turns);
      VisitLooks(s, i, turns);
      LoopLooks(o.s, Next(s, i), Rest(turns));
      LooksThen(s, o, Loop(o.s, Next(s, i), Rest(turns)));
    }
  }

  lemma {:induction false} RunLooks(s: State, script: seq<Action>)
    requires WellFormed(s)
    ensures LooksAtListed(s, Run(s, script))
    decreases script, 0, 0
  {
    if script != [] {
      var o := Do(s, script[0]);
      DoFollows(s, script[0]);
      DoLooks(s, script[0]);
      RunLooks(o.s, script[1..]);
      LooksThen(s, o, Run(o.s, script[1..]));
    }
  }

  lemma {:induction false} DoLooks(s: State, a: Action)
    requires WellFormed(s)
    ensures LooksAtListed(s, Do(s, a))
    decreases a, 0, 0
  {
    if a.Nested? { LoopLooks(s, 0, a.pass); }
  }

  /** An event that is not in the list never fires again and never returns, whatever happens to its timer. */
  lemma {:induction false} LeftForGood(s: State, turns: seq<Turn>, x: Id)
    requires WellFormed(s) && x < |s.store| && x !in s.list
    ensures x !in Fire(s, turns).t.fired && x !in Fire(s, turns).s.list
  {
    FireFollows(s, turns);
    LoopLooks(s, 0, turns);
    ListAfter(s, Fire(s, turns), x);
  }

  /** The same over any run. */
  lemma {:induction false} LeftForEver(s: State, script: seq<Action>, x: Id)
    requires WellFormed(s) && x < |s.store| && x !in s.list
    ensures x !in Run(s, script).t.fired && x !in Run(s, script).s.list
  {
    RunFollows(s, script);
    RunLooks(s, script);
    ListAfter(s, Run(s, script), x);
  }

  // ----- what a callback does to its own event -----

  /** A visit to a due event ends with the state that the callback leaves, and the event in the list. */
  lemma {:induction false} VisitCalls(s: State, i: nat, turns: seq<Turn>) returns (r: Outcome)
    requires WellFormed(s) && i < |s.list| && Due(At(Reading(s, turns), s.list[i]), Reading(s, turns).clock)
    ensures var id := s.list[i];
      && r == Callback(Enter(Reading(s, turns), id), turns) && VisitAt(s, i, turns).s == Leave(r.s, id)
      && id < |r.s.store| && id in r.s.list
  {
    var s0, id := Reading(s, turns), s.list[i];
    assert id in s.list;
    WaitFollows(s, s0.clock);
    EnterWellFormed(s0, id);
    assert Enter(s0, id).stack[|s.stack|] == id;
    r := CallbackFollows(Enter(s0, id), turns);
  }

  lemma {:induction false} LeaveArms(s: State, id: Id)
    requires id < |s.store|
    ensures var e := At(Leave(s, id), id);
      !e.lock && (e.timer.started <==> At(s, id).timer.started && !OneShot(At(s, id)))
  {
  }

  /** After its callback an event is unlocked, and goes on exactly if it was left started and is not one-shot. */
  lemma {:induction false} AfterItsCallback(s: State, i: nat, turns: seq<Turn>)
    requires WellFormed(s) && i < |s.list| && Due(At(Reading(s, turns), s.list[i]), Reading(s, turns).clock)
    ensures var id := s.list[i];
      var left, e := At(Callback(Enter(Reading(s, turns), id), turns).s, id), At(VisitAt(s, i, turns).s, id);
      !e.lock && (e.timer.started <==> left.timer.started && !OneShot(left))
  {
    var r := VisitCalls(s, i, turns);
    LeaveArms(r.s, s.list[i]);
  }

  predicate Arms(a: Action, id: Id) {
    Sets(a) && a.id == id
  }

  lemma {:induction false} ArmedLast(s: State, script: seq<Action>, a: Action, id: Id)
    requires Arms(a, id) && id < |Run(s, script + [a]).s.store|
    ensures var left := At(Run(s, script + [a]).s, id); left.timer.started && (OneShot(left) <==> !a.SetInterval?)
  {
    RunLast(s, script, a);
    ArmsIt(Run(s, script).s, a, id);
  }

  lemma {:induction false} ArmsIt(s: State, a: Action, id: Id)
    requires Arms(a, id) && id < |Do(s, a).s.store|
    ensures var e := At(Do(s, a).s, id); e.timer.started && (OneShot(e) <==> !a.SetInterval?)
  {
  }

  /** So when a callback ends by arming its own event again, that counts only if it does so with set_interval: an event
      armed with set_time or set_interval_once is stopped, and the next purge removes it. */
  lemma {:induction false} RearmingCountsIff(s: State, i: nat, turns: seq<Turn>, script: seq<Action>, a: Action)
    requires WellFormed(s) && i < |s.list| && Due(At(Reading(s, turns), s.list[i]), Reading(s, turns).clock)
    requires turns != [] && turns[0].script == script + [a] && Arms(a, s.list[i])
    ensures var o := VisitAt(s, i, turns);
      && (At(o.s, a.id).timer.started <==> a.SetInterval?)
      && (a.id in Purge(o.s).s.list <==> a.SetInterval?)
  {
    var id := s.list[i];
    var r := VisitCalls(s, i, turns);
    ArmedLast(Enter(Reading(s, turns), id), script, a, id);
    LeaveArms(r.s, id);
    PurgedIff(Leave(r.s, id), id);
  }

  /** And one that it resets at its end is stopped for good, be it repeating or not. */
  lemma {:induction false} ResetInCallbackEnds(s: State, i: nat, turns: seq<Turn>, script: seq<Action>)
    requires WellFormed(s) && i < |s.list| && Due(At(Reading(s, turns), s.list[i]), Reading(s, turns).clock)
    requires turns != [] && turns[0].script == script + [Reset(s.list[i])]
    ensures var o := VisitAt(s, i, turns);
      !At(o.s, s.list[i]).timer.started && s.list[i] !in Purge(o.s).s.list
  {
    var id, s1 := s.list[i], Enter(Reading(s, turns), s.list[i]);
    var r := VisitCalls(s, i, turns);
    RunLast(s1, script, Reset(id));
    ResetStops(Run(s1, script).s, id);
    LeaveArms(r.s, id);
    PurgedIff(Leave(r.s, id), id);
  }

  lemma {:induction false} PurgedIff(s: State, id: Id)
    requires id in s.list && !At(s, id).lock
    ensures id in Purge(s).s.list <==> At(s, id).timer.started
  {
    WithoutMember(s.list, Stopped(s), id);
  }

  // ----- what is done to an event that has left -----

  /** Whether the last thing done to x since it left the list was to set it going: `on` says so of what came before. */
  function OnAfterDo(s: State, a: Action, x: Id, on: bool): bool
    decreases a, 0, 0
  {
    if a.Nested? then OnAfterLoop(s, 0, a.pass, x, on)
    else if x >= |s.store| || x in s.list then on
    else
      match a
      case SetTime(id, _) => on || id == x
      case SetInterval(id, _) => on || id == x
      case SetIntervalOnce(id, _) => on || id == x
      case Reset(id) => on && id != x
      case _ => on
  }

  function OnAfterRun(s: State, script: seq<Action>, x: Id, on: bool): bool
    decreases script, 0, 0
  {
    if script == [] then on
    else OnAfterRun(Do(s, script[0]).s, script[1..], x, OnAfterDo(s, script[0], x, on))
  }

  function OnAfterVisit(s: State, i: nat, turns: seq<Turn>, x: Id, on: bool): bool
    requires i < |s.list|
    decreases turns, |s.list| - i, 0
  {
    var s0 := Reading(s, turns);
    var id := s.list[i];
    if turns == [] || !Due(At(s0, id), s0.clock) then on
    else OnAfterRun(Enter(s0, id), turns[0].script, x, on)
  }

  function OnAfterLoop(s: State, i: nat, turns: seq<Turn>, x: Id, on: bool): bool
    decreases turns, if i < |s.list| then |s.list| - i else 0, 1
  {
    if i >= |s.list| then on
    else OnAfterLoop(VisitAt(s, i, turns).s, Next(s, i), Rest(turns), x, OnAfterVisit(s, i, turns, x, on))
  }

  /** The event was created, and is not in the list any more. */
  predicate Out(s: State, x: Id) {
    x < |s.store| && x !in s.list
  }

  /** `on` is what the timer of an event out of the list says. */
  predicate Tracks(s: State, x: Id, on: bool) {
    if Out(s, x) then !s.store[x].lock && (s.store[x].timer.started <==> on) else !on
  }

  lemma {:induction false} SimpleTracks(s: State, a: Action, x: Id, on: bool)
    requires WellFormed(s) && !a.Nested? && Tracks(s, x, on)
    ensures Tracks(Simple(s, a).s, x, OnAfterDo(s, a, x, on))
  {
  }

  lemma {:induction false} PurgeTracks(s: State, x: Id, on: bool)
    requires WellFormed(s) && Tracks(s, x, on)
    ensures Tracks(Purge(s).s, x, on)
  {
    WithoutMember(s.list, Stopped(s), x);
  }

  /** A visit that removes a stopped event. */
  lemma {:induction false} DropTracks(s: State, i: nat, x: Id, on: bool)
    requires WellFormed(s) && i < |s.list| && Drops(At(s, s.list[i])) && Tracks(s, x, on)
    ensures Tracks(s.(list := s.list[..i] + s.list[i + 1..]), x, on)
  {
    assert s.list[i] in s.list;
    WithoutOne(s.list, i);
    WithoutMember(s.list, {s.list[i]}, x);
  }

  /** The callback of `id`, which is in the list while it runs. */
  lemma {:induction false} CallTracks(s: State, id: Id, r: Outcome, x: Id, on: bool)
    requires WellFormed(s) && id in s.list && Follows(Enter(s, id), r) && Tracks(r.s, x, on)
    ensures Tracks(Leave(r.s, id), x, on)
  {
    assert Enter(s, id).stack[|s.stack|] == id;
  }

  lemma {:induction false} VisitTracks(s: State, i: nat, turns: seq<Turn>, x: Id, on: bool)
    requires WellFormed(s) && i < |s.list| && Tracks(s, x, on)
    ensures Tracks(VisitAt(s, i, turns).s, x, OnAfterVisit(s, i, turns, x, on))
    decreases turns, |s.list| - i, 0
  {
    var s0 := Reading(s, turns);
    var id := s.list[i];
    WaitFollows(s, s0.clock);
    if Drops(At(s0, id)) {
      DropTracks(s0, i, x, on);
    } else if Due(At(s0, id), s0.clock) {
      EnterWellFormed(s0, id);
      var r := CallbackFollows(Enter(s0, id), turns);
      if turns != [] { RunTracks(Enter(s0, id), turns[0].script, x, on); }
      CallTracks(s0, id, r, x, OnAfterVisit(s, i, turns, x, on));
    }
  }

  lemma {:induction false} LoopTracks(s: State, i: nat, turns: seq<Turn>, x: Id, on: bool)
    requires WellFormed(s) && Tracks(s, x, on)
    ensures Tracks(Loop(s, i, turns).s, x, OnAfterLoop(s, i, turns, x, on))
    decreases turns, if i < |s.list| then |s.list| - i else 0, 1
  {
    if i < |s.list| {
      VisitFollows(s, i, turns);
      VisitTracks(s, i, turns, x, on);
      LoopTracks(VisitAt(s, i, turns).s, Next(s, i), Rest(turns), x, OnAfterVisit(s, i, turns, x, on));
    }
  }

  lemma {:induction false} RunTracks(s: State, script: seq<Action>, x: Id, on: bool)
    requires WellFormed(s) && Tracks(s, x, on)
    ensures Tracks(Run(s, script).s, x, OnAfterRun(s, script, x, on))
    decreases script, 0, 0
  {
    if script != [] {
      DoFollows(s, script[0]);
      DoTracks(s, script[0], x, on);
      RunTracks(Do(s, script[0]).s, script[1..], x, OnAfterDo(s, script[0], x, on));
    }
  }

  lemma {:induction false} DoTracks(s: State, a: Action, x: Id, on: bool)
    requires WellFormed(s) && Tracks(s, x, on)
    ensures Tracks(Do(s, a).s, x, OnAfterDo(s, a, x, on))
    decreases a, 0, 0
  {
    if a.Nested? {
      LoopFollows(s, 0, a.pass);
      LoopTracks(s, 0, a.pass, x, on);
      PurgeTracks(Loop(s, 0, a.pass).s, x, OnAfterLoop(s, 0, a.pass, x, on));
    } else {
      SimpleTracks(s, a, x, on);
    }
  }

  // ----- what the list holds after a pass -----

  /** Whether the last thing the callbacks of a pass do to x, once it is out of the list, is to set it going. */
  predicate SetGoingOutside(s: State, turns: seq<Turn>, x: Id) {
    OnAfterLoop(s, 0, turns, x, false)
  }

  /** After an outermost pass an event is in the list exactly when it is started, unless the callbacks set it going when
      it was out of the list already, and left it so: then, and only then, it is started and will never fire. */
  lemma {:induction false} ListedIffStarted(s: State, turns: seq<Turn>, x: Id)
    requires WellFormed(s) && s.stack == [] && (x in s.list || |s.store| <= x) && x < |Fire(s, turns).s.store|
    ensures (x in Fire(s, turns).s.list <==> Fire(s, turns).s.store[x].timer.started) <==> !SetGoingOutside(s, turns, x)
    ensures SetGoingOutside(s, turns, x) ==> x !in Fire(s, turns).s.list
  {
    OutermostPass(s, turns);
    LoopFollows(s, 0, turns);
    LoopTracks(s, 0, turns, x, false);
    PurgeTracks(Loop(s, 0, turns).s, x, SetGoingOutside(s, turns, x));
  }

  lemma {:induction false} DoUntouched(s: State, a: Action, x: Id, on: bool)
    requires x !in Do(s, a).t.touched
    ensures OnAfterDo(s, a, x, on) ==> on
    decreases a, 0, 0
  {
    if a.Nested? { LoopUntouched(s, 0, a.pass, x, on); }
  }

  lemma {:induction false} RunUntouched(s: State, script: seq<Action>, x: Id, on: bool)
    requires x !in Run(s, script).t.touched
    ensures OnAfterRun(s, script, x, on) ==> on
    decreases script, 0, 0
  {
    if script != [] {
      DoUntouched(s, script[0], x, on);
      RunUntouched(Do(s, script[0]).s, script[1..], x, OnAfterDo(s, script[0], x, on));
    }
  }

  lemma {:induction false} VisitUntouched(s: State, i: nat, turns: seq<Turn>, x: Id, on: bool)
    requires i < |s.list| && x !in VisitAt(s, i, turns).t.touched
    ensures OnAfterVisit(s, i, turns, x, on) ==> on
    decreases turns, |s.list| - i, 0
  {
    var s0 := Reading(s, turns);
    var id := s.list[i];
    if turns != [] && Due(At(s0, id), s0.clock) { RunUntouched(Enter(s0, id), turns[0].script, x, on); }
  }

  lemma {:induction false} LoopUntouched(s: State, i: nat, turns: seq<Turn>, x: Id, on: bool)
    requires x !in Loop(s, i, turns).t.touched
    ensures OnAfterLoop(s, i, turns, x, on) ==> on
    decreases turns, if i < |s.list| then |s.list| - i else 0, 1
  {
    if i < |s.list| {
      VisitUntouched(s, i, turns, x, on);
      LoopUntouched(VisitAt(s, i, turns).s, Next(s, i), Rest(turns), x, OnAfterVisit(s, i, turns, x, on));
    }
  }

  /** In particular it holds exactly the started ones of the events that no callback of the pass changed. */
  lemma {:induction false} ExactlyStarted(s: State, turns: seq<Turn>, x: Id)
    requires WellFormed(s) && s.stack == [] && (x in s.list || |s.store| <= x)
    requires x < |Fire(s, turns).s.store| && x !in Fire(s, turns).t.touched
    ensures x in Fire(s, turns).s.list <==> Fire(s, turns).s.store[x].timer.started
  {
    LoopUntouched(s, 0, turns, x, false);
    ListedIffStarted(s, turns, x);
  }

  /** One that a callback started after it had left is started outside the list, where it never fires: of two events
      the first is reset, a pass drops it, and the callback of the second sets it going again. */
  lemma {:induction false} StartedTooLate(now: Clock)
    ensures var s := Run(State([], [], [], now), [AddInterval(0), AddInterval(0), Reset(0)]).s;
      var o := Fire(s, [Turn(now, []), Turn(now, [SetInterval(0, 7)])]);
      && s.list == [0, 1] && s.stack == []
      && |o.s.store| == 2 && o.s.store[0].timer.started && !o.s.store[0].lock && o.s.list == [1]
  {
    var s := OneIsReset(now);
    var e, turn := s.store[1], Turn(now, [SetInterval(0, 7)]);
    assert Later(now, now) == now;
    var dropped := VisitAt(s, 0, [Turn(now, []), turn]).s;
    assert dropped == s.(list := [1]);
    assert [Turn(now, []), turn][1..] == [turn];
    var served := CallbackStartsIt(dropped, turn);
    assert Loop(dropped, 0, [turn]).s == served;
    assert Stopped(served) == {};
    assert Without([1], {}) == [1];
  }

  lemma {:induction false} OneIsReset(now: Clock) returns (s: State)
    ensures s == Run(State([], [], [], now), [AddInterval(0), AddInterval(0), Reset(0)]).s
    ensures var e := WithInterval(NEW_EVENT, 0, now); s == State([WithReset(e), e], [0, 1], [], now)
  {
    var e := WithInterval(NEW_EVENT, 0, now);
    var s0, s1, s2 := State([], [], [], now), State([e], [0], [], now), State([e, e], [0, 1], [], now);
    s := State([WithReset(e), e], [0, 1], [], now);
    assert Run(s2, [Reset(0)]).s == s;
    assert [AddInterval(0), Reset(0)][1..] == [Reset(0)];
    assert Do(s1, AddInterval(0)).s == s2;
    assert Run(s1, [AddInterval(0), Reset(0)]).s == s;
    assert [AddInterval(0), AddInterval(0), Reset(0)][1..] == [AddInterval(0), Reset(0)];
    assert Do(s0, AddInterval(0)).s == s1;
  }

  lemma {:induction false} CallbackStartsIt(s: State, turn: Turn) returns (served: State)
    requires turn == Turn(s.clock, [SetInterval(0, 7)]) && |s.store| == 2 && s.list == [1] && s.stack == []
    requires !s.store[0].lock && s.store[1] == WithInterval(NEW_EVENT, 0, s.clock)
    ensures served == VisitAt(s, 0, [turn]).s
    ensures |served.store| == 2 && served.list == [1] && served.store[1] == s.store[1]
    ensures served.store[0].timer.started && !served.store[0].lock
  {
    served := VisitAt(s, 0, [turn]).s;
    var e := s.store[1];
    assert Later(s.clock, s.clock) == s.clock && Due(e, s.clock);
    var entered := Enter(s, 1);
    assert Run(entered, turn.script).s == Simple(entered, SetInterval(0, 7)).s;
  }
}
