/** time_event and event_list of src/lua/lzmq/impl/loop.lua as they are written: objects changed in place,
    an index loop over a list that callbacks change under it.  Each method does what Scheduler says. */
module EventLoop {
  import opened Timers
  import opened IdLists
  import opened Scheduler
  import opened SchedulerInvariants
  import opened SchedulerTiming

  class TimeEvent {
    var timer: Timer
    var lock: bool
    var once: bool
    ghost const id: Id

    ghost function Value(): Event
      reads this
    {
      Event(timer, lock, once)
    }

    constructor (ghost id: Id)
      ensures Value() == NEW_EVENT && this.id == id
    {
      timer, lock, once := NEW_MONOTONIC, false, false;
      this.id := id;
    }

    method SetTime(time: Stamp, now: Clock)
      modifies this
      ensures Value() == WithTime(old(Value()), time, now)
      ensures timer.Valid() && timer.started && forall c: Clock :: timer.Rest(c) == 0 <==> c.utc >= time
    {
      if !timer.absolute { timer := NEW_ABSOLUTE; }
      timer := timer.StartWith(now, time);
    }

    method SetInterval(interval: int, now: Clock)
      modifies this
      ensures Value() == WithInterval(old(Value()), interval, now)
      ensures timer.Valid() && timer.started && forall c: Clock :: timer.Rest(c) == 0 <==> c.mono - now.mono >= interval
    {
      if timer.absolute { timer := NEW_MONOTONIC; }
      once := false;
      timer := timer.StartWith(now, interval);
    }

    method SetIntervalOnce(interval: int, now: Clock)
      modifies this
      ensures Value() == WithIntervalOnce(old(Value()), interval, now)
      ensures timer.Valid() && timer.started && forall c: Clock :: timer.Rest(c) == 0 <==> c.mono - now.mono >= interval
    {
      SetInterval(interval, now);
      once := true;
    }

    method Reset()
      requires timer.started
      modifies this
      ensures Value() == WithReset(old(Value()))
    {
      timer := timer.Stop();
    }

    method Restart(now: Clock) returns (armed: bool)
      modifies this
      ensures Value() == Restarted(old(Value()), now)
      ensures armed <==> !OneShot(old(Value()))
      ensures timer.started <==> armed
    {
      if once || timer.absolute {
        if timer.started { timer := timer.Stop(); }
        return false;
      }
      timer := timer.Start(now);
      return true;
    }
  }

  class EventList {
    /** private_.events */
    var events: seq<TimeEvent>
    /** The handles that callbacks may hold: every event ever created. */
    var handles: seq<TimeEvent>
    /** The two clocks; only the environment moves them. */
    var clock: Clock
    /** The events whose callbacks are running. */
    ghost var stack: seq<Id>

    ghost function Model(): State
      reads this, handles
    {
      State(seq(|handles|, k requires 0 <= k < |handles| reads this, handles => handles[k].Value()),
            IdsOf(events), stack, clock)
    }

    static ghost function IdsOf(evs: seq<TimeEvent>): (r: seq<Id>)
      ensures |r| == |evs|
      ensures forall k :: 0 <= k < |r| ==> r[k] == evs[k].id
    {
      seq(|evs|, k requires 0 <= k < |evs| => evs[k].id)
    }

    ghost predicate Valid()
      reads this, handles
    {
      && (forall k :: 0 <= k < |handles| ==> handles[k].id == k)
      && (forall k :: 0 <= k < |events| ==> events[k] in handles)
      && WellFormed(Model())
    }

    /** Old handles stay, new ones are new objects. */
    twostate predicate Grows()
      reads this
    {
      && old(handles) <= handles
      && (forall k :: |old(handles)| <= k < |handles| ==> fresh(handles[k]))
    }

    constructor (now: Clock)
      ensures Valid() && Model() == State([], [], [], now)
    {
      events, handles, clock, stack := [], [], now, [];
    }

    lemma {:induction false} HandleAt(k: nat)
      requires Valid() && k < |events|
      ensures events[k].id < |handles| && handles[events[k].id] == events[k]
      ensures Model().list[k] == events[k].id
    {
      assert events[k] in handles;
      var j :| 0 <= j < |handles| && handles[j] == events[k];
    }

    /** event_list:add */
    method Add(ev: TimeEvent)
      requires Valid() && ev !in handles && ev.id == |handles| && ev.timer.Valid() && !ev.lock
      modifies this
      ensures Valid() && handles == old(handles) + [ev]
      ensures Model() == Scheduler.Add(old(Model()), ev.Value())
    {
      ghost var before := Model();
      AddFollows(before, ev.Value());
      handles := handles + [ev];
      events := events + [ev];
      assert Model().store == before.store + [ev.Value()];
      assert Model().list == before.list + [|before.store|];
      assert handles[|handles| - 1] == ev;
    }

    /** Time passes. */
    method Tick(now: Clock)
      requires Valid()
      modifies this`clock
      ensures Valid() && Model() == old(Model()).(clock := Later(old(clock), now))
    {
      ghost var before := Model();
      clock := Later(clock, now);
      WaitFollows(before, now);
      assert Model().store == before.store;
    }

    /** event_list:sleep_interval; the clock is read anew for each event. */
    method SleepInterval(limit: int, readings: seq<Clock>) returns (wait: int)
      requires Valid()
      modifies this`clock
      ensures Valid() && Model() == Scanned(old(Model()), readings)
      ensures IsShortestWait(old(Model()), readings, limit, wait)
    {
      ghost var s := Model();
      wait := limit;
      var i := 0;
      while i < |events|
        invariant i <= |events| && Valid() && Model() == s.(clock := ClockAt(s.clock, readings, i))
        invariant ShortestSoFar(s, readings, limit, wait, i)
      {
        ghost var before := wait;
        wait := Ask(i, readings, wait, s);
        AskedNext(s, readings, limit, before, i, wait);
        i := i + 1;
      }
    }

    /** One iteration of the loop. */
    method Ask(i: nat, readings: seq<Clock>, wait: int, ghost s: State) returns (now: int)
      requires Valid() && i < |events| && Model() == s.(clock := ClockAt(s.clock, readings, i))
      modifies this`clock
      ensures Valid() && Model() == s.(clock := ClockAt(s.clock, readings, i + 1))
      ensures now == if Armed(s, i) && Left(s, readings, i) < wait then Left(s, readings, i) else wait
    {
      if i < |readings| { Tick(readings[i]); }
      var ev := events[i];
      HandleAt(i);
      assert At(s, s.list[i]) == ev.Value();
      now := wait;
      if !ev.lock && ev.timer.started {
        var rest := ev.timer.Rest(clock);
        if now > rest { now := rest; }
      }
    }

    /** IsShortestWait for the first i events of the list. */
    static ghost predicate ShortestSoFar(s: State, readings: seq<Clock>, limit: int, wait: int, i: nat) {
      && wait <= limit
      && (forall k :: 0 <= k < i && Armed(s, k) ==> wait <= Left(s, readings, k))
      && (wait == limit || exists k :: 0 <= k < i && Limits(s, readings, k, wait))
    }

    static lemma {:induction false} AskedNext(s: State, readings: seq<Clock>, limit: int, wait: int, i: nat, now: int)
      requires ShortestSoFar(s, readings, limit, wait, i)
      requires now == if Armed(s, i) && Left(s, readings, i) < wait then Left(s, readings, i) else wait
      ensures ShortestSoFar(s, readings, limit, now, i + 1)
    {
      if now != wait { assert Limits(s, readings, i, now); }
    }

    lemma {:induction false} StoppedAt(k: nat)
      requires Valid() && k < |events|
      ensures events[k] in handles
      ensures events[k].id in Stopped(Model()) <==> !events[k].lock && !events[k].timer.started
    {
      HandleAt(k);
      assert Model().store[events[k].id] == events[k].Value();
      assert Model().list[k] in Model().list;
    }

    static lemma {:induction false} IdsCons(ev: TimeEvent, rest: seq<TimeEvent>)
      ensures IdsOf([ev] + rest) == [ev.id] + IdsOf(rest)
    {
    }

    static lemma {:induction false} PurgeStep(all: seq<TimeEvent>, i: nat, tail: seq<TimeEvent>, dead: set<Id>)
      requires i < |all| && IdsOf(tail) == Without(IdsOf(all[i + 1..]), dead)
      ensures Without(IdsOf(all[i..]), dead) == if all[i].id in dead then IdsOf(tail) else IdsOf([all[i]] + tail)
    {
      assert all[i..] == [all[i]] + all[i + 1..];
      IdsCons(all[i], all[i + 1..]);
      WithoutCons(all[i].id, IdsOf(all[i + 1..]), dead);
      IdsCons(all[i], tail);
    }

    static lemma {:induction false} SliceStep(all: seq<TimeEvent>, i: nat, tail: seq<TimeEvent>)
      requires i < |all|
      ensures var events := all[..i + 1] + tail;
        && events[i] == all[i]
        && events[..i] + events[i + 1..] == all[..i] + tail
        && events == all[..i] + ([all[i]] + tail)
    {
    }

    /** event_list:purge */
    method Purge()
      requires Valid()
      modifies this`events
      ensures Valid()
      ensures Model() == Scheduler.Purge(old(Model())).s
    {
      ghost var before := Model();
      ghost var all := events;
      ghost var dead := Stopped(before);
      ghost var tail := [];
      forall k | 0 <= k < |all|
        ensures all[k] in handles
        ensures all[k].id in dead <==> !all[k].lock && !all[k].timer.started
      {
        StoppedAt(k);
      }
      var i := |events|;
      while i > 0
        invariant 0 <= i <= |all|
        invariant events == all[..i] + tail
        invariant forall ev :: ev in tail ==> ev in handles
        invariant IdsOf(tail) == Without(IdsOf(all[i..]), dead)
      {
        i := i - 1;
        tail := PurgeAt(i, all, tail, dead);
      }
      assert all[0..] == all;
      Purged(before);
    }

    /** One iteration: position i goes, if it holds one of the dead. */
    method PurgeAt(i: nat, ghost all: seq<TimeEvent>, ghost tail: seq<TimeEvent>, ghost dead: set<Id>)
      returns (ghost rest: seq<TimeEvent>)
      requires i < |all| && events == all[..i + 1] + tail && IdsOf(tail) == Without(IdsOf(all[i + 1..]), dead)
      requires all[i].id in dead <==> !all[i].lock && !all[i].timer.started
      modifies this`events
      ensures events == all[..i] + rest && (rest == tail || rest == [all[i]] + tail)
      ensures IdsOf(rest) == Without(IdsOf(all[i..]), dead)
    {
      SliceStep(all, i, tail);
      PurgeStep(all, i, tail, dead);
      var ev := events[i];
      if !ev.lock && !ev.timer.started {
        events := events[..i] + events[i + 1..];
        rest := tail;
      } else {
        rest := [ev] + tail;
      }
    }

    twostate lemma Purged(before: State)
      requires old(Valid()) && before == old(Model())
      requires handles == old(handles) && stack == old(stack) && clock == old(clock)
      requires forall h :: h in handles ==> h.Value() == old(h.Value())
      requires forall ev :: ev in events ==> ev in handles
      requires IdsOf(events) == Without(before.list, Stopped(before))
      ensures Valid() && Model() == Scheduler.Purge(before).s
    {
      assert Model().store == before.store;
      PurgeFollows(before);
    }

    /** Only the event behind handle k has changed, and its lock has not. */
    twostate lemma Touched(k: nat)
      requires old(Valid()) && k < |handles|
      requires handles == old(handles) && events == old(events) && stack == old(stack) && clock == old(clock)
      requires forall j :: 0 <= j < |handles| && j != k ==> handles[j].Value() == old(handles[j].Value())
      requires handles[k].timer.Valid() && handles[k].lock == old(handles[k].lock)
      ensures Valid() && Model() == Put(old(Model()), k, handles[k].Value())
    {
      TouchFollows(old(Model()), k, handles[k].Value());
      assert Model().store == old(Model()).store[k := handles[k].Value()];
    }

    /** The timer of an event is armed, and runs out when the clocks are like this. */
    static ghost predicate IsDueWhen(ev: TimeEvent, when: Clock -> bool)
      reads ev
    {
      ev.timer.Valid() && ev.timer.started && forall c: Clock :: ev.timer.Rest(c) == 0 <==> when(c)
    }

    /** zmq_loop:add_time */
    method AddTime(time: Stamp)
      requires Valid()
      modifies this
      ensures Valid() && Grows()
      ensures Model() == Scheduler.Add(old(Model()), WithTime(NEW_EVENT, time, old(clock)))
      ensures |handles| == |old(handles)| + 1
      ensures IsDueWhen(handles[|old(handles)|], (c: Clock) => c.utc >= time)
    {
      var ev := new TimeEvent(|handles|);
      ev.SetTime(time, clock);
      Fresh();
      Add(ev);
    }

    /** zmq_loop:add_interval */
    method AddInterval(interval: int)
      requires Valid()
      modifies this
      ensures Valid() && Grows()
      ensures Model() == Scheduler.Add(old(Model()), WithInterval(NEW_EVENT, interval, old(clock)))
      ensures |handles| == |old(handles)| + 1
      ensures IsDueWhen(handles[|old(handles)|], (c: Clock) => c.mono - old(clock).mono >= interval)
    {
      var ev := new TimeEvent(|handles|);
      ev.SetInterval(interval, clock);
      Fresh();
      Add(ev);
    }

    /** zmq_loop:add_once */
    method AddOnce(interval: int)
      requires Valid()
      modifies this
      ensures Valid() && Grows()
      ensures Model() == Scheduler.Add(old(Model()), WithIntervalOnce(NEW_EVENT, interval, old(clock)))
      ensures |handles| == |old(handles)| + 1
      ensures IsDueWhen(handles[|old(handles)|], (c: Clock) => c.mono - old(clock).mono >= interval)
    {
      var ev := new TimeEvent(|handles|);
      ev.SetIntervalOnce(interval, clock);
      Fresh();
      Add(ev);
    }

    /** Making a new object changes nothing here. */
    twostate lemma Fresh()
      requires old(Valid()) && unchanged(this)
      requires forall h :: h in handles ==> h.Value() == old(h.Value())
      ensures Valid() && Model() == old(Model())
    {
      assert Model().store == old(Model()).store;
    }

    /** A callback changes the event behind handle `id`, if there is one. */
    method Change(id: Id, a: Action)
      requires Valid() && id < |handles|
      requires a.Reset? || a.SetTime? || a.SetInterval? || a.SetIntervalOnce?
      requires a.id == id
      modifies handles[id]
      ensures Valid()
      ensures Model() == Scheduler.Simple(old(Model()), a).s
    {
      var ev := handles[id];
      assert Model().store[id] == ev.Value();
      match a {
        case Reset(_) => if ev.timer.started { ev.Reset(); }
        case SetTime(_, time) => ev.SetTime(time, clock);
        case SetInterval(_, interval) => ev.SetInterval(interval, clock);
        case SetIntervalOnce(_, interval) => ev.SetIntervalOnce(interval, clock);
      }
      assert ev.lock == old(ev.lock) && ev.timer.Valid();
      Touched(id);
      assert Model().store == Scheduler.Simple(old(Model()), a).s.store;
    }

    /** One action of a callback; a nested pass is a call of Fire. */
    method Perform(a: Action) returns (ghost t: Trace)
      requires Valid()
      modifies this, handles
      ensures Valid() && Grows()
      ensures Outcome(Model(), t) == Do(old(Model()), a)
      decreases a, 0
    {
      t := Do(Model(), a).t;
      match a {
        case Nested(pass) =>
          ghost var cnt, inner := Fire(pass);
        case Wait(until) =>
          WaitFollows(Model(), until);
          clock := Later(clock, until);
          assert Model().store == old(Model()).store;
        case AddTime(time) => AddTime(time);
        case AddInterval(interval) => AddInterval(interval);
        case AddOnce(interval) => AddOnce(interval);
        case _ =>
          if a.id < |handles| { Change(a.id, a); } else { assert At(Model(), a.id) == NEW_EVENT; }
      }
    }

    /** A callback. */
    method RunScript(script: seq<Action>) returns (ghost t: Trace)
      requires Valid()
      modifies this, handles
      ensures Valid() && Grows()
      ensures Outcome(Model(), t) == Run(old(Model()), script)
      decreases script, 0
    {
      t := QUIET;
      if script != [] {
        ghost var first := Perform(script[0]);
        ghost var rest := RunScript(script[1..]);
        t := Join(first, rest);
      }
    }

    /** Calls the callback of a due event, with the event locked, and arms the event again. */
    method Invoke(ev: TimeEvent, turns: seq<Turn>) returns (ghost r: Outcome)
      requires Valid() && ev in events && ev.id < |handles| && handles[ev.id] == ev && !ev.lock
      modifies this, handles
      ensures Valid() && Grows()
      ensures r == Callback(Enter(old(Model()), ev.id), turns)
      ensures Model() == Leave(r.s, ev.id)
      decreases turns, 0
    {
      InvokeFollows(Model(), ev, turns);
      Hold(ev);
      ghost var t := QUIET;
      if turns != [] { t := RunScript(turns[0].script); }
      r := Outcome(Model(), t);
      Release(ev);
    }

    /** Before the callback. */
    method Hold(ev: TimeEvent)
      requires Valid() && ev in events && ev.id < |handles| && handles[ev.id] == ev && !ev.lock
      modifies this`stack, ev
      ensures Valid() && Model() == Enter(old(Model()), ev.id)
    {
      ghost var before := Model();
      Locked(ev);
      EnterWellFormed(before, ev.id);
      stack := stack + [ev.id];
      ev.lock := true;
      assert Model().store == Enter(before, ev.id).store;
    }

    /** After the callback: unlock, restart; both assertions of the source hold whatever the callback did. */
    method Release(ev: TimeEvent)
      requires Valid() && ev.id < |handles| && handles[ev.id] == ev && stack != []
      requires WellFormed(Leave(Model(), ev.id))
      modifies this`stack, ev
      ensures Valid() && Model() == Leave(old(Model()), ev.id)
    {
      ghost var before := Model();
      assert before.store[ev.id] == ev.Value();
      ev.lock, stack := false, stack[..|stack| - 1];
      var armed := false;
      if ev.timer.started { armed := ev.Restart(clock); }
      if armed { assert ev.timer.started; } else { assert !ev.timer.started; }
      assert Model().store == Leave(before, ev.id).store;
    }

    lemma {:induction false} Locked(ev: TimeEvent)
      requires Valid() && ev in events && ev.id < |handles| && handles[ev.id] == ev
      ensures ev.id in Model().list && At(Model(), ev.id) == ev.Value()
    {
      var k :| 0 <= k < |events| && events[k] == ev;
      assert Model().list[k] == ev.id;
    }

    lemma {:induction false} InvokeFollows(s: State, ev: TimeEvent, turns: seq<Turn>)
      requires Valid() && s == Model()
      requires ev in events && ev.id < |handles| && handles[ev.id] == ev && !ev.lock
      ensures var id := ev.id; var r := Callback(Enter(s, id), turns);
        && r.s.stack == s.stack + [id]
        && WellFormed(Leave(r.s, id))
    {
      var id := ev.id;
      Locked(ev);
      EnterWellFormed(s, id);
      WaitFollows(Enter(s, id), s.clock);
      if turns != [] { RunFollows(Enter(s, id), turns[0].script); }
      var r := Callback(Enter(s, id), turns);
      CallFollows(s, id, r, Look(s, id));
    }

    /** Time may pass before an event is looked at. */
    method Observe(turns: seq<Turn>)
      requires Valid()
      modifies this`clock
      ensures Valid() && Model() == Reading(old(Model()), turns)
    {
      if turns != [] { Tick(turns[0].now); }
    }

    /** table.remove of a stopped event that nobody is running. */
    method Remove(i: nat)
      requires Valid() && i < |events| && !events[i].lock && !events[i].timer.started
      modifies this`events
      ensures Valid()
      ensures Model() == old(Model()).(list := old(Model()).list[..i] + old(Model()).list[i + 1..])
    {
      ghost var before := Model();
      HandleAt(i);
      assert before.store[events[i].id] == events[i].Value();
      DropFollows(before, i, Look(before, events[i].id).(gone := map[events[i].id := events[i].Value()]));
      events := events[..i] + events[i + 1..];
      assert Model().store == before.store;
      assert Model().list == before.list[..i] + before.list[i + 1..];
    }

    /** One iteration of the loop of event_list:fire. */
    method Visit(i: nat, turns: seq<Turn>) returns (next: nat, fired: bool, ghost t: Trace)
      requires Valid() && i < |events|
      modifies this, handles
      ensures Valid() && Grows()
      ensures Outcome(Model(), t) == VisitAt(old(Model()), i, turns)
      ensures next == Next(old(Model()), i) && |t.visits| == 1 && fired == t.visits[0].fired
      ensures turns == [] ==> |events| - next < |old(events)| - i
      decreases turns, 1
    {
      t := VisitAt(Model(), i, turns).t;
      Observe(turns);
      var ev := events[i];
      HandleAt(i);
      assert At(Model(), ev.id) == ev.Value();
      next, fired := i + 1, false;
      if !ev.lock {
        if ev.timer.started {
          var rest := ev.timer.Rest(clock);
          if rest == 0 {
            ghost var r := Invoke(ev, turns);
            fired := true;
          }
        } else {
          Remove(i);
          next := i;
        }
      }
    }

    /** The loop of event_list:fire: calls every due event, in the order of a list the callbacks change. */
    method Scan(turns: seq<Turn>) returns (cnt: nat, ghost t: Trace)
      requires Valid()
      modifies this, handles
      ensures Valid() && Grows()
      ensures Outcome(Model(), t) == Loop(old(Model()), 0, turns)
      ensures cnt == Count(t.visits)
      decreases turns, 2
    {
      ghost var before := Model();
      cnt, t := 0, QUIET;
      var i: nat, k: nat := 0, 0;
      ReachesStart(before, turns);
      while i < |events|
        invariant Valid() && Grows() && k <= |turns|
        invariant Reaches(before, turns, cnt, t, Model(), i, turns[k..])
        decreases |turns| - k, |events| - i
      {
        ghost var m, at := Model(), i;
        var fired: bool;
        ghost var step: Trace;
        i, fired, step := Visit(i, turns[k..]);
        ReachesNext(before, turns, cnt, t, m, at, turns[k..]);
        t := Join(t, step);
        if fired { cnt := cnt + 1; }
        if k < |turns| { k := k + 1; }
      }
      ReachesEnd(before, turns, cnt, t, Model(), i, turns[k..]);
    }

    /** event_list:fire */
    method Fire(turns: seq<Turn>) returns (cnt: nat, ghost t: Trace)
      requires Valid()
      modifies this, handles
      ensures Valid() && Grows()
      ensures Outcome(Model(), t) == Scheduler.Fire(old(Model()), turns)
      ensures cnt == Count(t.visits)
      decreases turns, 3
    {
      cnt, t := Scan(turns);
      assert t.visits + [] == t.visits;
      t := Join(t, Scheduler.Purge(Model()).t);
      Purge();
    }

    /** The pass that started in `before` has seen `t` so far and goes on from `s`. */
    static ghost predicate Reaches(before: State, turns: seq<Turn>, cnt: nat, t: Trace,
                                   s: State, i: nat, rest: seq<Turn>)
    {
      Loop(before, 0, turns) == Then(t, Loop(s, i, rest)) && cnt == Count(t.visits)
    }

    static lemma {:induction false} ReachesStart(before: State, turns: seq<Turn>)
      ensures Reaches(before, turns, 0, QUIET, before, 0, turns[0..])
    {
      var o := Loop(before, 0, turns);
      assert turns[0..] == turns;
      assert [] + o.t.visits == o.t.visits && [] + o.t.marks == o.t.marks && map[] + o.t.gone == o.t.gone;
    }

    static lemma {:induction false} ReachesNext(before: State, turns: seq<Turn>, cnt: nat, t: Trace,
                             s: State, i: nat, rest: seq<Turn>)
      requires Reaches(before, turns, cnt, t, s, i, rest) && i < |s.list|
      ensures var step := VisitAt(s, i, rest);
        && |step.t.visits| == 1
        && Reaches(before, turns, if step.t.visits[0].fired then cnt + 1 else cnt, Join(t, step.t),
                   step.s, Next(s, i), Scheduler.Rest(rest))
    {
      var step := VisitAt(s, i, rest);
      ThenThen(t, step.t, Loop(step.s, Next(s, i), Scheduler.Rest(rest)));
      CountJoin(t.visits, step.t.visits);
    }

    static lemma {:induction false} ReachesEnd(before: State, turns: seq<Turn>, cnt: nat, t: Trace,
                            s: State, i: nat, rest: seq<Turn>)
      requires Reaches(before, turns, cnt, t, s, i, rest) && i >= |s.list|
      ensures Outcome(s, t) == Loop(before, 0, turns) && cnt == Count(t.visits)
    {
      assert Then(t, Outcome(s, QUIET)) == Outcome(s, t);
    }

    static lemma {:induction false} ThenThen(a: Trace, b: Trace, o: Outcome)
      ensures Then(a, Then(b, o)) == Then(Join(a, b), o)
    {
      assert a.visits + (b.visits + o.t.visits) == (a.visits + b.visits) + o.t.visits;
      assert a.marks + (b.marks + o.t.marks) == (a.marks + b.marks) + o.t.marks;
      assert a.gone + (b.gone + o.t.gone) == (a.gone + b.gone) + o.t.gone;
    }

    static lemma {:induction false} CountJoin(a: seq<Scheduler.Visit>, b: seq<Scheduler.Visit>)
      ensures Count(a + b) == Count(a) + Count(b)
    {
      if a == [] {
        assert a + b == b;
      } else {
        assert (a + b)[1..] == a[1..] + b;
        CountJoin(a[1..], b);
      }
    }
  }
}
