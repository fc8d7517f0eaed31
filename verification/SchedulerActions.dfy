/** What single actions of a callback do, and what the record of a run may be trusted to say. */
module SchedulerActions {
  import opened Options
  import opened Timers
  import opened Scheduler
  import opened SchedulerInvariants
  import opened SchedulerTheorems

  // ----- when an event is due -----

  /** An event armed with a time is due from that time on, whenever it was armed. */
  lemma {:induction false} TimeIsDue(e: Event, time: Stamp, now: Clock, c: Clock)
    ensures var timer := WithTime(e, time, now).timer;
      && timer.Valid() && timer.started && timer.absolute
      && (timer.Rest(c) == 0 <==> c.utc >= time) && (c.utc < time ==> timer.Rest(c) == time - c.utc)
  {
  }

  /** One armed with an interval is due when that has passed since it was armed. */
  lemma {:induction false} IntervalIsDue(e: Event, interval: int, now: Clock, c: Clock)
    ensures var timer := WithInterval(e, interval, now).timer;
      && timer.Valid() && timer.started && !timer.absolute && timer == WithIntervalOnce(e, interval, now).timer
      && (timer.Rest(c) == 0 <==> c.mono - now.mono >= interval)
      && (c.mono - now.mono < interval ==> timer.Rest(c) == interval - (c.mono - now.mono))
  {
  }

  /** Nothing but the event `id` differs, and that not in its lock. */
  predicate OnlyDiffersAt(s: State, r: State, id: Id) {
    && |r.store| == |s.store| && r.list == s.list && r.stack == s.stack && r.clock == s.clock
    && (forall x :: 0 <= x < |s.store| && x != id ==> r.store[x] == s.store[x])
    && (id < |s.store| ==> r.store[id].lock == s.store[id].lock)
  }

  predicate Adds(a: Action) {
    a.AddTime? || a.AddInterval? || a.AddOnce?
  }

  /** The adding actions append one started event, due at the time or when the interval has passed. */
  lemma {:induction false} AddedIsDue(s: State, a: Action, c: Clock)
    requires Adds(a)
    ensures var r, n := Do(s, a).s, |s.store|;
      && |r.store| == n + 1 && r.store[..n] == s.store && r.list == s.list + [n]
      && r.stack == s.stack && r.clock == s.clock
      && var e := r.store[n];
         && e.timer.Valid() && e.timer.started && !e.lock
         && (e.once <==> a.AddOnce?) && (e.timer.absolute <==> a.AddTime?)
         && (e.timer.Rest(c) == 0 <==>
               if a.AddTime? then c.utc >= a.time else c.mono - s.clock.mono >= a.interval)
  {
    if a.AddTime? {
      TimeIsDue(NEW_EVENT, a.time, s.clock, c);
    } else {
      IntervalIsDue(NEW_EVENT, a.interval, s.clock, c);
    }
  }

  predicate Sets(a: Action) {
    a.SetTime? || a.SetInterval? || a.SetIntervalOnce?
  }

  /** And the setting actions start their event anew. */
  lemma {:induction false} SetIsDue(s: State, a: Action, c: Clock)
    requires Sets(a)
    ensures OnlyDiffersAt(s, Do(s, a).s, a.id)
    ensures a.id < |s.store| ==>
              var e := Do(s, a).s.store[a.id];
              && e.timer.Valid() && e.timer.started && (e.timer.absolute <==> a.SetTime?)
              && e.once == (if a.SetTime? then s.store[a.id].once else a.SetIntervalOnce?)
              && (e.timer.Rest(c) == 0 <==>
                    if a.SetTime? then c.utc >= a.time else c.mono - s.clock.mono >= a.interval)
  {
    if a.SetTime? {
      TimeIsDue(At(s, a.id), a.time, s.clock, c);
    } else {
      IntervalIsDue(At(s, a.id), a.interval, s.clock, c);
    }
  }

  /** A reset stops its event and leaves the rest of it, and everything else. */
  lemma {:induction false} ResetStops(s: State, id: Id)
    ensures OnlyDiffersAt(s, Do(s, Reset(id)).s, id)
    ensures id < |s.store| ==>
              var was, e := s.store[id], Do(s, Reset(id)).s.store[id];
              e == was.(timer := was.timer.(started := false))
  {
  }

  function Max(a: Stamp, b: Stamp): Stamp {
    if a < b then b else a
  }

  lemma {:induction false} WaitPasses(s: State, until: Clock)
    ensures Do(s, Wait(until)).s
      == s.(clock := Clock(Max(s.clock.mono, until.mono), Max(s.clock.utc, until.utc)))
  {
  }

  // ----- nested passes -----

  /** A pass that a callback starts is a pass like any other: it serves what is due, and it purges. */
  lemma {:induction false} NestedIsFire(s: State, pass: seq<Turn>)
    ensures Do(s, Nested(pass)).s == Fire(s, pass).s
    ensures Do(s, Nested(pass)).t == Fire(s, pass).t.(visits := [])
  {
  }

  /** So when it ends, the list holds started events and those whose callbacks are running. */
  lemma {:induction false} NestedPurges(s: State, pass: seq<Turn>, x: Id)
    requires WellFormed(s) && x in Do(s, Nested(pass)).s.list
    ensures At(Do(s, Nested(pass)).s, x).timer.started || x in s.stack
  {
    EventsAreConserved(s, pass);
  }

  lemma {:induction false} RunLast(s: State, script: seq<Action>, a: Action)
    ensures Run(s, script + [a]).s == Do(Run(s, script).s, a).s
    decreases |script|
  {
    if script == [] {
      assert [] + [a] == [a];
    } else {
      assert (script + [a])[1..] == script[1..] + [a];
      RunLast(Do(s, script[0]).s, script[1..], a);
    }
  }

  lemma {:induction false} LastPassPurges(s: State, script: seq<Action>, pass: seq<Turn>, x: Id)
    requires WellFormed(s) && x in Run(s, script + [Nested(pass)]).s.list
    ensures At(Run(s, script + [Nested(pass)]).s, x).timer.started || x in s.stack
  {
    RunLast(s, script, Nested(pass));
    RunFollows(s, script);
    NestedPurges(Run(s, script).s, pass, x);
  }

  // ----- which events fire -----

  /** A visit fires its event if and only if it is unlocked, started and due at the reading made for the visit. */
  lemma {:induction false} VisitFiresIff(s: State, i: nat, turns: seq<Turn>)
    requires WellFormed(s) && i < |s.list| && (turns != [] ==> s.clock.NotAfter(turns[0].now))
    ensures var e, now := At(s, s.list[i]), if turns == [] then s.clock else turns[0].now;
      var o := VisitAt(s, i, turns);
      && (s.list[i] in o.t.fired <==> !e.lock && e.timer.started && e.timer.Rest(now) == 0)
      && o.t.visits == [Visit(s.list[i], e, now, s.list[i] in o.t.fired)]
  {
    assert s.list[i] in s.list;
    if turns != [] { assert Later(s.clock, turns[0].now) == turns[0].now; }
  }

  lemma {:induction false} CountLast(visits: seq<Visit>, v: Visit)
    ensures Count(visits + [v]) == Count(visits) + if v.fired then 1 else 0
    decreases |visits|
  {
    if visits == [] {
      assert [] + [v] == [v] && [v][1..] == [];
    } else {
      assert (visits + [v])[1..] == visits[1..] + [v];
      CountLast(visits[1..], v);
    }
  }

  /** What the pass returns is the number of its visits that fired. */
  lemma {:induction false} CountIsNumber(visits: seq<Visit>)
    ensures Count(visits) == |set k | 0 <= k < |visits| && visits[k].fired|
    decreases |visits|
  {
    if visits != [] {
      var n := |visits| - 1;
      var first := visits[..n];
      CountIsNumber(first);
      CountLast(first, visits[n]);
      assert visits == first + [visits[n]];
      var all, some := set k | 0 <= k < |visits| && visits[k].fired, set k | 0 <= k < n && first[k].fired;
      assert all == if visits[n].fired then some + {n} else some;
    }
  }

  // ----- what the record says -----

  /** What a run records as changed was named by one of its actions. */
  predicate ActionNames(a: Action, x: Id)
    decreases a
  {
    match a
    case Reset(id) => id == x
    case SetTime(id, _) => id == x
    case SetInterval(id, _) => id == x
    case SetIntervalOnce(id, _) => id == x
    case Nested(pass) => PassNames(pass, x)
    case _ => false
  }

  predicate ScriptNames(script: seq<Action>, x: Id)
    decreases script
  {
    exists k :: 0 <= k < |script| && ActionNames(script[k], x)
  }

  predicate PassNames(turns: seq<Turn>, x: Id)
    decreases turns
  {
    exists k :: 0 <= k < |turns| && ScriptNames(turns[k].script, x)
  }

  lemma {:induction false} VisitNames(s: State, i: nat, turns: seq<Turn>, x: Id)
    requires i < |s.list| && x in VisitAt(s, i, turns).t.touched
    ensures PassNames(turns, x)
    decreases turns, |s.list| - i, 0
  {
    var s0 := Reading(s, turns);
    if turns != [] && Due(At(s0, s.list[i]), s0.clock) { RunNames(Enter(s0, s.list[i]), turns[0].script, x); }
  }

  lemma {:induction false} LoopNames(s: State, i: nat, turns: seq<Turn>, x: Id)
    requires x in Loop(s, i, turns).t.touched
    ensures PassNames(turns, x)
    decreases turns, if i < |s.list| then |s.list| - i else 0, 1
  {
    if i < |s.list| {
      var o := VisitAt(s, i, turns);
      if x in o.t.touched {
        VisitNames(s, i, turns, x);
      } else {
        LoopNames(o.s, Next(s, i), Rest(turns), x);
        var k :| 0 <= k < |Rest(turns)| && ScriptNames(Rest(turns)[k].script, x);
        assert ScriptNames(turns[k + 1].script, x);
      }
    }
  }

  lemma {:induction false} RunNames(s: State, script: seq<Action>, x: Id)
    requires x in Run(s, script).t.touched
    ensures ScriptNames(script, x)
    decreases script, 0, 0
  {
    if script != [] {
      var first := Do(s, script[0]);
      if x in first.t.touched {
        DoNames(s, script[0], x);
      } else {
        RunNames(first.s, script[1..], x);
        var k :| 0 <= k < |script[1..]| && ActionNames(script[1..][k], x);
        assert ActionNames(script[k + 1], x);
      }
    }
  }

  lemma {:induction false} DoNames(s: State, a: Action, x: Id)
    requires x in Do(s, a).t.touched
    ensures ActionNames(a, x)
    decreases a, 0, 0
  {
    if a.Nested? { LoopNames(s, 0, a.pass, x); }
  }

  /** So an event that is due when a pass starts fires unless a callback names it in an action. */
  lemma {:induction false} UnnamedEventsFire(s: State, turns: seq<Turn>, x: Id)
    requires WellFormed(s) && Waiting(s, x) && !PassNames(turns, x)
    ensures x in Fire(s, turns).t.fired
  {
    DueEventsFire(s, turns, x);
    if x in Fire(s, turns).t.touched { LoopNames(s, 0, turns, x); }
  }

  // ----- callbacks nest -----

  /** The callbacks running after these marks, innermost last, when `running` were before them; nothing if a callback
      begins again while it runs, or ends that is not the innermost. */
  function Unwound(marks: seq<Mark>, running: seq<Id>): (r: Option<seq<Id>>)
    decreases |marks|
  {
    if marks == [] then Some(running)
    else
      match marks[0]
      case Began(id, _) => if id in running then None else Unwound(marks[1..], running + [id])
      case Ended(id, _) =>
        if running == [] || running[|running| - 1] != id then None
        else Unwound(marks[1..], running[..|running| - 1])
  }

  lemma {:induction false} UnwoundJoin(a: seq<Mark>, b: seq<Mark>, running: seq<Id>)
    ensures Unwound(a + b, running) == match Unwound(a, running) case None => None case Some(r) => Unwound(b, r)
    decreases |a|
  {
    if a == [] {
      assert a + b == b;
    } else {
      assert (a + b)[1..] == a[1..] + b;
      match a[0]
      case Began(id, _) => if id !in running { UnwoundJoin(a[1..], b, running + [id]); }
      case Ended(id, _) =>
        if running != [] && running[|running| - 1] == id { UnwoundJoin(a[1..], b, running[..|running| - 1]); }
    }
  }

  /** The readings of the marks lie between these, and do not go back. */
  predicate Timely(marks: seq<Mark>, from: Stamp, to: Stamp)
    decreases |marks|
  {
    if marks == [] then from <= to else from <= marks[0].at && Timely(marks[1..], marks[0].at, to)
  }

  lemma {:induction false} TimelyJoin(a: seq<Mark>, b: seq<Mark>, from: Stamp, mid: Stamp, to: Stamp)
    requires Timely(a, from, mid) && Timely(b, mid, to)
    ensures Timely(a + b, from, to)
    decreases |a|
  {
    if a == [] {
      assert a + b == b;
      TimelyFrom(b, from, mid, to);
    } else {
      assert (a + b)[1..] == a[1..] + b;
      TimelyJoin(a[1..], b, a[0].at, mid, to);
    }
  }

  lemma {:induction false} TimelyFrom(marks: seq<Mark>, from: Stamp, mid: Stamp, to: Stamp)
    requires from <= mid && Timely(marks, mid, to)
    ensures Timely(marks, from, to)
  {
  }

  ghost predicate Nests(s: State, o: Outcome) {
    && Unwound(o.t.marks, s.stack) == Some(s.stack) && Timely(o.t.marks, s.clock.mono, o.s.clock.mono)
    && forall x :: x in o.t.fired ==> HasBegun(o.t.marks, x)
  }

  predicate HasBegun(marks: seq<Mark>, x: Id) {
    exists k :: 0 <= k < |marks| && marks[k].Began? && marks[k].id == x
  }

  lemma {:induction false} HasBegunJoin(a: seq<Mark>, b: seq<Mark>, x: Id)
    ensures HasBegun(a + b, x) <==> HasBegun(a, x) || HasBegun(b, x)
  {
    if HasBegun(a, x) {
      var k :| 0 <= k < |a| && a[k].Began? && a[k].id == x;
      assert (a + b)[k] == a[k];
    }
    if HasBegun(b, x) {
      var k :| 0 <= k < |b| && b[k].Began? && b[k].id == x;
      assert (a + b)[|a| + k] == b[k];
    }
  }

  lemma {:induction false} NestsThen(s: State, a: Outcome, b: Outcome)
    requires Nests(s, a) && a.s.stack == s.stack && Nests(a.s, b)
    ensures Nests(s, Then(a.t, b))
  {
    UnwoundJoin(a.t.marks, b.t.marks, s.stack);
    TimelyJoin(a.t.marks, b.t.marks, s.clock.mono, a.s.clock.mono, b.s.clock.mono);
    forall x | x in a.t.fired + b.t.fired
      ensures HasBegun(a.t.marks + b.t.marks, x)
    {
      HasBegunJoin(a.t.marks, b.t.marks, x);
    }
  }

  lemma {:induction false} CallNests(s: State, id: Id, r: Outcome)
    requires WellFormed(s) && id in s.list && !At(s, id).lock && Nests(Enter(s, id), r)
    ensures Nests(s, Called(s, id, r, Look(s, id)))
  {
    var s1, o := Enter(s, id), Called(s, id, r, Look(s, id));
    var from, to := [Began(id, s.clock.mono)], [Ended(id, r.s.clock.mono)];
    assert o.t.marks == from + (r.t.marks + to);
    assert id !in s.stack;
    assert Unwound(from, s.stack) == Some(s1.stack) by { assert from[1..] == []; }
    assert s1.stack[..|s1.stack| - 1] == s.stack;
    assert Unwound(to, s1.stack) == Some(s.stack) by { assert to[1..] == []; }
    UnwoundJoin(r.t.marks, to, s1.stack);
    UnwoundJoin(from, r.t.marks + to, s.stack);
    assert Timely(to, r.s.clock.mono, r.s.clock.mono) by { assert to[1..] == []; }
    TimelyJoin(r.t.marks, to, s.clock.mono, r.s.clock.mono, r.s.clock.mono);
    assert Timely(from, s.clock.mono, s.clock.mono) by { assert from[1..] == []; }
    TimelyJoin(from, r.t.marks + to, s.clock.mono, s.clock.mono, r.s.clock.mono);
    forall x | x in r.t.fired + {id}
      ensures HasBegun(from + (r.t.marks + to), x)
    {
      HasBegunJoin(r.t.marks, to, x);
      HasBegunJoin(from, r.t.marks + to, x);
      assert from[0].id == id;
    }
  }

  lemma {:induction false} VisitNests(s: State, i: nat, turns: seq<Turn>)
    requires WellFormed(s) && i < |s.list|
    ensures Nests(s, VisitAt(s, i, turns))
    decreases turns, |s.list| - i, 0
  {
    var s0 := Reading(s, turns);
    var id := s.list[i];
    WaitFollows(s, s0.clock);
    assert id in s.list;
    if Due(At(s0, id), s0.clock) {
      EnterWellFormed(s0, id);
      var r := Callback(Enter(s0, id), turns);
      if turns != [] { RunNests(Enter(s0, id), turns[0].script); }
      CallNests(s0, id, r);
      TimelyFrom(VisitAt(s, i, turns).t.marks, s.clock.mono, s0.clock.mono, VisitAt(s, i, turns).s.clock.mono);
    }
  }

  lemma {:induction false} LoopNests(s: State, i: nat, turns: seq<Turn>)
    requires WellFormed(s)
    ensures Nests(s, Loop(s, i, turns))
    decreases turns, if i < |s.list| then |s.list| - i else 0, 1
  {
    if i < |s.list| {
      var o := VisitAt(s, i, turns);
      VisitFollows(s, i, turns);
      VisitNests(s, i, turns);
      LoopNests(o.s, Next(s, i), Rest(turns));
      NestsThen(s, o, Loop(o.s, Next(s, i), Rest(turns)));
    }
  }

  lemma {:induction false} RunNests(s: State, script: seq<Action>)
    requires WellFormed(s)
    ensures Nests(s, Run(s, script))
    decreases script, 0, 0
  {
    if script != [] {
      var o := Do(s, script[0]);
      DoFollows(s, script[0]);
      DoNests(s, script[0]);
      RunNests(o.s, script[1..]);
      NestsThen(s, o, Run(o.s, script[1..]));
    }
  }

  lemma {:induction false} DoNests(s: State, a: Action)
    requires WellFormed(s)
    ensures Nests(s, Do(s, a))
    decreases a, 0, 0
  {
    if a.Nested? {
      LoopNests(s, 0, a.pass);
      assert Loop(s, 0, a.pass).t.marks + [] == Loop(s, 0, a.pass).t.marks;
    } else {
      SimpleFollows(s, a);
    }
  }

  /** In any run the callbacks nest: none begins again while it runs, each ends before the one it interrupted goes on,
      and all of them have ended when the run has; the events recorded as fired are those whose callback began. */
  lemma {:induction false} CallbacksNest(now: Clock, program: seq<Action>)
    ensures var o := Run(State([], [], [], now), program);
      && Unwound(o.t.marks, []) == Some([]) && Timely(o.t.marks, now.mono, o.s.clock.mono)
      && forall x :: x in o.t.fired <==> HasBegun(o.t.marks, x)
  {
    RunNests(State([], [], [], now), program);
    RunFollows(State([], [], [], now), program);
  }
}
