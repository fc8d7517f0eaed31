/** What every run of the scheduler keeps, whatever the callbacks do and however deeply passes nest. */
module SchedulerInvariants {
  import opened Timers
  import opened IdLists
  import opened Scheduler

  /** The list holds distinct events, and an event is locked exactly while its callback is on the stack;
      a locked event is never out of the list. */
  ghost predicate WellFormed(s: State) {
    && Distinct(s.list)
    && (forall id :: id in s.list ==> id < |s.store|)
    && Distinct(s.stack)
    && (forall id :: id in s.stack ==> id in s.list)
    && (forall id :: 0 <= id < |s.store| ==> s.store[id].timer.Valid() && (s.store[id].lock <==> id in s.stack))
  }

  /** The list afterwards is the list before, then the events created, minus those removed. */
  ghost predicate Conserved(s: State, o: Outcome) {
    && |s.store| <= |o.s.store|
    && o.s.list == Without(s.list + Range(|s.store|, |o.s.store|), o.t.gone.Keys)
  }

  /** Only events of the list leave it, and only when they are stopped and not locked. */
  ghost predicate LeavesStopped(s: State, o: Outcome) {
    forall id :: id in o.t.gone ==>
      && id < |o.s.store| && (id in s.list || |s.store| <= id)
      && !o.t.gone[id].lock && !o.t.gone[id].timer.started
  }

  /** An event neither fired nor changed by a callback is as it was. */
  ghost predicate Framed(s: State, o: Outcome) {
    forall id :: 0 <= id < |s.store| && id < |o.s.store| && id !in o.t.fired && id !in o.t.touched ==>
      o.s.store[id] == s.store[id]
  }

  /** An event neither fired nor changed by a callback leaves the list as it was at the start. */
  ghost predicate GoneAsBefore(s: State, o: Outcome) {
    forall id :: id in o.t.gone && id < |s.store| && id !in o.t.fired && id !in o.t.touched ==>
      o.t.gone[id] == s.store[id]
  }

  /** No event whose callback is already running is fired again. */
  ghost predicate NotReentered(s: State, o: Outcome) {
    && (forall id :: id in o.t.fired ==> id !in s.stack && id < |o.s.store| && id in o.t.examined)
    && (forall m :: m in o.t.marks ==> m.id in o.t.fired)
  }

  ghost predicate Follows(s: State, o: Outcome) {
    && WellFormed(o.s)
    && o.s.stack == s.stack
    && s.clock.NotAfter(o.s.clock)
    && Conserved(s, o)
    && LeavesStopped(s, o)
    && Framed(s, o)
    && GoneAsBefore(s, o)
    && NotReentered(s, o)
  }

  lemma {:induction false} ListAfter(s: State, o: Outcome, id: Id)
    requires Conserved(s, o)
    ensures id in o.s.list <==> (id in s.list || |s.store| <= id < |o.s.store|) && id !in o.t.gone
  {
    var made := Range(|s.store|, |o.s.store|);
    WithoutMember(s.list + made, o.t.gone.Keys, id);
    if |s.store| <= id < |o.s.store| {
      assert made[id - |s.store|] == id;
    }
  }

  lemma {:induction false} SameList(s: State, o: Outcome)
    requires o.s.list == s.list && |o.s.store| == |s.store| && o.t.gone == map[]
    ensures Conserved(s, o)
  {
    assert s.list + Range(|s.store|, |s.store|) == s.list;
    WithoutNothing(s.list, {});
    assert o.t.gone.Keys == {};
  }

  lemma {:induction false} ConservedThen(s: State, a: Outcome, b: Outcome)
    requires WellFormed(s) && Follows(s, a) && Follows(a.s, b)
    ensures Conserved(s, Then(a.t, b))
  {
    var g1, g2 := a.t.gone.Keys, b.t.gone.Keys;
    var made1, made2 := Range(|s.store|, |a.s.store|), Range(|a.s.store|, |b.s.store|);
    calc {
      b.s.list;
      Without(Without(s.list + made1, g1) + made2, g2);
      { WithoutNothing(made2, g1); }
      Without(Without(s.list + made1, g1) + Without(made2, g1), g2);
      { WithoutConcat(s.list + made1, made2, g1); }
      Without(Without((s.list + made1) + made2, g1), g2);
      { WithoutUnion((s.list + made1) + made2, g1, g2); }
      Without((s.list + made1) + made2, g1 + g2);
      { RangeSplit(|s.store|, |a.s.store|, |b.s.store|);
        assert (s.list + made1) + made2 == s.list + Range(|s.store|, |b.s.store|); }
      Without(s.list + Range(|s.store|, |b.s.store|), g1 + g2);
    }
    assert Then(a.t, b).t.gone.Keys == g1 + g2;
  }

  lemma {:induction false} FollowsThen(s: State, a: Outcome, b: Outcome)
    requires WellFormed(s) && Follows(s, a) && Follows(a.s, b)
    ensures Follows(s, Then(a.t, b))
  {
    ConservedThen(s, a, b);
    var o := Then(a.t, b);
    forall id | id in o.t.gone
      ensures id < |o.s.store| && (id in s.list || |s.store| <= id)
      ensures !o.t.gone[id].lock && !o.t.gone[id].timer.started
    {
      ListAfter(s, a, id);
    }
  }

  /** Nothing happens, or time passes. */
  lemma {:induction false} WaitFollows(s: State, now: Clock)
    requires WellFormed(s)
    ensures Follows(s, Outcome(s.(clock := Later(s.clock, now)), QUIET))
    ensures Follows(s, Outcome(s, QUIET))
  {
    SameList(s, Outcome(s.(clock := Later(s.clock, now)), QUIET));
    SameList(s, Outcome(s, QUIET));
  }

  lemma {:induction false} AddWellFormed(s: State, e: Event)
    requires WellFormed(s) && e.timer.Valid() && !e.lock
    ensures WellFormed(Add(s, e))
  {
    var n, list := |s.store|, Add(s, e).list;
    assert forall k :: 0 <= k < |s.list| ==> s.list[k] in s.list;
    assert forall id :: id in list <==> id in s.list || id == n;
  }

  lemma {:induction false} AddConserves(s: State, o: Outcome)
    requires |o.s.store| == |s.store| + 1 && o.s.list == s.list + [|s.store|] && o.t.gone == map[]
    ensures Conserved(s, o)
  {
    var n := |s.store|;
    assert Range(n, n + 1) == [n];
    WithoutNothing(s.list + [n], {});
    assert o.t.gone.Keys == {};
  }

  lemma {:induction false} AddFollows(s: State, e: Event)
    requires WellFormed(s) && e.timer.Valid() && !e.lock
    ensures Follows(s, Outcome(Add(s, e), QUIET))
  {
    AddWellFormed(s, e);
    AddConserves(s, Outcome(Add(s, e), QUIET));
  }

  lemma {:induction false} TouchFollows(s: State, id: Id, e: Event)
    requires WellFormed(s) && e.timer.Valid() && e.lock == At(s, id).lock
    ensures Follows(s, Touch(s, id, e))
  {
    SameList(s, Touch(s, id, e));
  }

  lemma {:induction false} SimpleFollows(s: State, a: Action)
    requires WellFormed(s) && !a.Nested?
    ensures Follows(s, Simple(s, a))
  {
    match a {
      case Wait(until) => WaitFollows(s, until);
      case AddTime(time) => AddFollows(s, WithTime(NEW_EVENT, time, s.clock));
      case AddInterval(interval) => AddFollows(s, WithInterval(NEW_EVENT, interval, s.clock));
      case AddOnce(interval) => AddFollows(s, WithIntervalOnce(NEW_EVENT, interval, s.clock));
      case Reset(id) =>
        WaitFollows(s, s.clock);
        if At(s, id).timer.started { TouchFollows(s, id, WithReset(At(s, id))); }
      case SetTime(id, time) => TouchFollows(s, id, WithTime(At(s, id), time, s.clock));
      case SetInterval(id, interval) => TouchFollows(s, id, WithInterval(At(s, id), interval, s.clock));
      case SetIntervalOnce(id, interval) => TouchFollows(s, id, WithIntervalOnce(At(s, id), interval, s.clock));
    }
  }

  lemma {:induction false} PurgeFollows(s: State)
    requires WellFormed(s)
    ensures Follows(s, Purge(s))
  {
    var dead := Stopped(s);
    assert s.list + [] == s.list;
    assert (map id | id in dead :: At(s, id)).Keys == dead;
    WithoutDistinct(s.list, dead);
    forall id ensures id in Without(s.list, dead) <==> id in s.list && id !in dead { WithoutMember(s.list, dead, id); }
  }

  /** A visit that fires nothing, on an event that stays. */
  lemma {:induction false} LookFollows(s: State, look: Trace)
    requires WellFormed(s) && look.fired == {} && look.marks == [] && look.touched == {} && look.gone == map[]
    ensures Follows(s, Outcome(s, look))
  {
    SameList(s, Outcome(s, look));
  }

  /** A visit that removes a stopped event. */
  lemma {:induction false} DropFollows(s: State, i: nat, look: Trace)
    requires WellFormed(s) && i < |s.list| && look.fired == {} && look.marks == [] && look.touched == {}
    requires !At(s, s.list[i]).lock && !At(s, s.list[i]).timer.started
    requires look.gone == map[s.list[i] := At(s, s.list[i])]
    ensures Follows(s, Outcome(s.(list := s.list[..i] + s.list[i + 1..]), look))
  {
    var id := s.list[i];
    assert s.list + [] == s.list;
    WithoutOne(s.list, i);
    WithoutDistinct(s.list, {id});
    forall x ensures x in Without(s.list, {id}) <==> x in s.list && x != id { WithoutMember(s.list, {id}, x); }
    assert look.gone.Keys == {id};
    assert id in s.list;
    assert s.list + Range(|s.store|, |s.store|) == s.list;
  }

  lemma {:induction false} EnterWellFormed(s: State, id: Id)
    requires WellFormed(s) && id in s.list && !At(s, id).lock
    ensures WellFormed(Enter(s, id))
  {
    var s1 := Enter(s, id);
    assert forall x :: x in s1.stack <==> x in s.stack || x == id;
  }

  /** A whole call, after `look`: the callback between Enter and Leave did r. */
  function Called(s: State, id: Id, r: Outcome, look: Trace): Outcome {
    Outcome(Leave(r.s, id), Join(look, Bracket(id, s.clock.mono, r)))
  }

  predicate Looks(look: Trace, id: Id) {
    look.fired == {} && look.marks == [] && look.touched == {} && look.gone == map[] && look.examined == {id}
  }

  lemma {:induction false} CallNotReentered(s: State, id: Id, r: Outcome, look: Trace)
    requires WellFormed(s) && id in s.list && !At(s, id).lock && Follows(Enter(s, id), r) && Looks(look, id)
    ensures NotReentered(s, Called(s, id, r, look))
  {
    assert Enter(s, id).stack[|s.stack|] == id;
  }

  lemma {:induction false} CallIsSeen(s: State, id: Id, r: Outcome, look: Trace)
    requires Looks(look, id)
    ensures var o := Called(s, id, r, look);
      && o.t.gone == r.t.gone && o.t.fired == r.t.fired + {id} && o.t.touched == r.t.touched
      && o.s.list == r.s.list && |o.s.store| == |r.s.store|
      && forall x :: 0 <= x < |r.s.store| && x != id ==> o.s.store[x] == r.s.store[x]
  {
  }

  lemma {:induction false} CallLeavesStopped(s: State, id: Id, r: Outcome, o: Outcome)
    requires LeavesStopped(Enter(s, id), r) && o.t.gone == r.t.gone && |o.s.store| == |r.s.store|
    ensures LeavesStopped(s, o)
  {
  }

  lemma {:induction false} CallFramed(s: State, id: Id, r: Outcome, o: Outcome)
    requires Framed(Enter(s, id), r) && GoneAsBefore(Enter(s, id), r)
    requires o.t.gone == r.t.gone && o.t.fired == r.t.fired + {id} && o.t.touched == r.t.touched
    requires |o.s.store| == |r.s.store| && forall x :: 0 <= x < |r.s.store| && x != id ==> o.s.store[x] == r.s.store[x]
    ensures Framed(s, o) && GoneAsBefore(s, o)
  {
    assert forall x :: 0 <= x < |s.store| && x != id ==> Enter(s, id).store[x] == s.store[x];
  }

  /** The callback of a due event: whatever it does between Enter and Leave. */
  lemma {:induction false} CallFollows(s: State, id: Id, r: Outcome, look: Trace)
    requires WellFormed(s) && id in s.list && !At(s, id).lock && Follows(Enter(s, id), r) && Looks(look, id)
    ensures Follows(s, Called(s, id, r, look))
  {
    var o := Called(s, id, r, look);
    CallIsSeen(s, id, r, look);
    CallNotReentered(s, id, r, look);
    CallLeavesStopped(s, id, r, o);
    CallFramed(s, id, r, o);
    LeaveWellFormed(s.stack, r.s, id);
  }

  lemma {:induction false} LeaveWellFormed(stack: seq<Id>, s: State, id: Id)
    requires WellFormed(s) && s.stack == stack + [id]
    ensures WellFormed(Leave(s, id)) && Leave(s, id).stack == stack
    ensures Leave(s, id).list == s.list && |Leave(s, id).store| == |s.store|
  {
    var s2 := Leave(s, id);
    assert s.stack[|stack|] == id;
    assert s2.stack == stack;
    assert forall x :: x in s.stack <==> x in stack || x == id;
    assert forall k :: 0 <= k < |stack| ==> stack[k] == s.stack[k];
    assert id !in stack;
  }

  /** Letting time pass first changes nothing of this. */
  lemma {:induction false} ReadingFollows(s: State, now: Clock, o: Outcome)
    requires s.clock.NotAfter(now) && Follows(s.(clock := now), o)
    ensures Follows(s, o)
  {
    assert Conserved(s.(clock := now), o);
  }

  lemma {:induction false} VisitFollows(s: State, i: nat, turns: seq<Turn>)
    requires WellFormed(s) && i < |s.list|
    ensures Follows(s, VisitAt(s, i, turns))
    decreases turns, |s.list| - i, 0
  {
    var s0 := Reading(s, turns);
    WaitFollows(s, s0.clock);
    var id := s.list[i];
    var e := At(s0, id);
    if Drops(e) {
      DropFollows(s0, i, VisitAt(s, i, turns).t);
    } else if !Due(e, s0.clock) {
      LookFollows(s0, Look(s0, id));
    } else {
      EnterWellFormed(s0, id);
      var r := CallbackFollows(Enter(s0, id), turns);
      CallFollows(s0, id, r, Look(s0, id));
    }
    ReadingFollows(s, s0.clock, VisitAt(s, i, turns));
  }

  lemma {:induction false} CallbackFollows(s: State, turns: seq<Turn>) returns (r: Outcome)
    requires WellFormed(s)
    ensures r == Callback(s, turns) && Follows(s, r)
    decreases turns, 0, 0
  {
    r := Callback(s, turns);
    if turns == [] { WaitFollows(s, s.clock); } else { RunFollows(s, turns[0].script); }
  }

  /** Every pass, from any position, keeps the invariant and the laws of Follows. */
  lemma {:induction false} LoopFollows(s: State, i: nat, turns: seq<Turn>)
    requires WellFormed(s)
    ensures Follows(s, Loop(s, i, turns))
    decreases turns, if i < |s.list| then |s.list| - i else 0, 1
  {
    if i >= |s.list| {
      WaitFollows(s, s.clock);
    } else {
      VisitFollows(s, i, turns);
      var step := VisitAt(s, i, turns);
      var tail := Loop(step.s, Next(s, i), Rest(turns));
      LoopFollows(step.s, Next(s, i), Rest(turns));
      FollowsThen(s, step, tail);
    }
  }

  lemma {:induction false} RunFollows(s: State, script: seq<Action>)
    requires WellFormed(s)
    ensures Follows(s, Run(s, script))
    decreases script, 0, 0
  {
    if script == [] {
      WaitFollows(s, s.clock);
    } else {
      DoFollows(s, script[0]);
      var first := Do(s, script[0]);
      RunFollows(first.s, script[1..]);
      FollowsThen(s, first, Run(first.s, script[1..]));
    }
  }

  lemma {:induction false} DoFollows(s: State, a: Action)
    requires WellFormed(s)
    ensures Follows(s, Do(s, a))
    decreases a, 0, 0
  {
    if a.Nested? {
      LoopFollows(s, 0, a.pass);
      FinishFollows(s, Loop(s, 0, a.pass));
    } else {
      SimpleFollows(s, a);
    }
  }

  lemma {:induction false} FinishFollows(s: State, o: Outcome)
    requires WellFormed(s) && Follows(s, o)
    ensures Follows(s, Finish(o))
  {
    PurgeFollows(o.s);
    FollowsThen(s, o, Purge(o.s));
  }

  /** The same for a whole pass of event_list:fire. */
  lemma {:induction false} FireFollows(s: State, turns: seq<Turn>)
    requires WellFormed(s)
    ensures Follows(s, Fire(s, turns))
  {
    LoopFollows(s, 0, turns);
    FinishFollows(s, Loop(s, 0, turns));
  }
}
