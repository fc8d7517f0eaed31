/** Deadlines: how long poll may wait, and how far apart the callbacks of a repeating event are. */
module SchedulerTiming {
  import opened Timers
  import opened Scheduler
  import opened SchedulerInvariants
  import opened SchedulerTheorems

  // ----- event_list:sleep_interval -----

  /** The clock when k events have been looked at; each one looks at it again. */
  function ClockAt(now: Clock, readings: seq<Clock>, k: nat): (c: Clock)
    ensures now.NotAfter(c)
  {
    if k == 0 then now
    else
      var before := ClockAt(now, readings, k - 1);
      if k <= |readings| then Later(before, readings[k - 1]) else before
  }

  lemma {:induction false} ClockMovesOn(now: Clock, readings: seq<Clock>, j: nat, k: nat)
    requires j <= k
    ensures ClockAt(now, readings, j).NotAfter(ClockAt(now, readings, k))
  {
    if j < k { ClockMovesOn(now, readings, j, k - 1); }
  }

  /** When the k-th event of the list is looked at, and when the last one has been. */
  function ReadAt(s: State, readings: seq<Clock>, k: nat): Clock {
    ClockAt(s.clock, readings, k + 1)
  }

  function Scanned(s: State, readings: seq<Clock>): State {
    s.(clock := ClockAt(s.clock, readings, |s.list|))
  }

  /** The k-th event of the list can end a wait. */
  predicate Armed(s: State, k: nat) {
    k < |s.list| && var e := At(s, s.list[k]); e.timer.Valid() && !e.lock && e.timer.started
  }

  function Left(s: State, readings: seq<Clock>, k: nat): int
    requires Armed(s, k)
  {
    At(s, s.list[k]).timer.Rest(ReadAt(s, readings, k))
  }

  /** `wait` is the least of `limit` and of what is left for every unlocked, started event of the list, each at the
      time it is looked at. */
  ghost predicate IsShortestWait(s: State, readings: seq<Clock>, limit: int, wait: int) {
    && wait <= limit
    && (forall k :: 0 <= k < |s.list| && Armed(s, k) ==> wait <= Left(s, readings, k))
    && (wait == limit || exists k :: 0 <= k < |s.list| && Limits(s, readings, k, wait))
  }

  predicate Limits(s: State, readings: seq<Clock>, k: nat, wait: int) {
    Armed(s, k) && wait == Left(s, readings, k)
  }

  ghost predicate Elapsed(from: Clock, to: Clock, ms: nat) {
    to.mono - from.mono == ms && to.utc - from.utc == ms
  }

  /** How long ago, on its own clock, the k-th event was looked at when the scan ends. */
  function Since(s: State, readings: seq<Clock>, k: nat): int
    requires k < |s.list|
  {
    var timer := At(s, s.list[k]).timer;
    timer.Reads(Scanned(s, readings).clock) - timer.Reads(ReadAt(s, readings, k))
  }

  /** No event is due before `wait` has passed since the scan began. */
  lemma {:induction false} DeadlinesAreKept(s: State, readings: seq<Clock>, limit: int, wait: int, k: nat)
    requires WellFormed(s) && IsShortestWait(s, readings, limit, wait) && wait > 0 && k < |s.list| && Armed(s, k)
    ensures var timer := At(s, s.list[k]).timer; timer.Deadline() >= timer.Reads(s.clock) + wait
  {
    assert wait <= Left(s, readings, k);
    ClockMovesOn(s.clock, readings, 0, k + 1);
  }

  /** A wait of no more than that, begun when the scan is over, ends no later after a deadline than the scan went on
      after the event was looked at. */
  lemma {:induction false} LateByTheScan(s: State, readings: seq<Clock>, limit: int, wait: int, k: nat, later: Clock,
                                         ms: nat)
    requires WellFormed(s) && IsShortestWait(s, readings, limit, wait) && wait > 0 && k < |s.list| && Armed(s, k)
    requires Elapsed(Scanned(s, readings).clock, later, ms) && ms <= wait
    ensures var timer := At(s, s.list[k]).timer;
      && timer.Reads(later) - timer.Deadline() <= Since(s, readings, k)
      && 0 <= Since(s, readings, k) <= timer.Reads(Scanned(s, readings).clock) - timer.Reads(s.clock)
  {
    assert wait <= Left(s, readings, k);
    ClockMovesOn(s.clock, readings, 0, k + 1);
    ClockMovesOn(s.clock, readings, k + 1, |s.list|);
  }

  /** Exactly when nothing is due `ms` after the scan: when every event had more left than that and than the rest of
      the scan took. */
  lemma {:induction false} WaitIsExact(s: State, readings: seq<Clock>, later: Clock, ms: nat)
    requires WellFormed(s) && Elapsed(Scanned(s, readings).clock, later, ms)
    ensures (forall k :: 0 <= k < |s.list| ==> !Due(At(s, s.list[k]), later)) <==>
      forall k :: 0 <= k < |s.list| && Armed(s, k) ==> ms + Since(s, readings, k) < Left(s, readings, k)
  {
    forall k | 0 <= k < |s.list|
      ensures Due(At(s, s.list[k]), later) <==> Armed(s, k) && Left(s, readings, k) <= ms + Since(s, readings, k)
    {
      DueAfter(s, readings, k, later, ms);
    }
  }

  lemma {:induction false} DueAfter(s: State, readings: seq<Clock>, k: nat, later: Clock, ms: nat)
    requires WellFormed(s) && k < |s.list| && Elapsed(Scanned(s, readings).clock, later, ms)
    ensures Due(At(s, s.list[k]), later) <==> Armed(s, k) && Left(s, readings, k) <= ms + Since(s, readings, k)
  {
    ClockMovesOn(s.clock, readings, k + 1, |s.list|);
  }

  /** So a wait shorter than the computed interval reaches no deadline if the clocks do not move during the scan ... */
  lemma {:induction false} ShortWaitReachesNothing(s: State, readings: seq<Clock>, limit: int, wait: int, later: Clock,
                                                   ms: nat)
    requires WellFormed(s) && IsShortestWait(s, readings, limit, wait)
    requires Scanned(s, readings).clock == s.clock && Elapsed(s.clock, later, ms) && ms < wait
    ensures forall id :: id in s.list ==> !Due(At(s, id), later)
  {
    forall k | 0 <= k < |s.list| && Armed(s, k)
      ensures ms + Since(s, readings, k) < Left(s, readings, k)
    {
      assert wait <= Left(s, readings, k);
      ClockMovesOn(s.clock, readings, 0, k + 1);
      ClockMovesOn(s.clock, readings, k + 1, |s.list|);
    }
    WaitIsExact(s, readings, later, ms);
  }

  /** An event due `limit` after time 0. */
  function Alarm(limit: nat): Event {
    Event(Timer(false, 0, limit, true, true), false, false)
  }

  /** ... and may reach one if they do, by however little: an event has `wait` left when it is looked at, the scan takes
      another `tick`, and less than `wait` later the event is due. */
  lemma {:induction false} TickDuringScan(tick: nat, wait: nat)
    requires tick > 0 && wait > 0 && tick + wait < 0x20_0000_0000_0000
    ensures var s := State([Alarm(wait), Alarm(wait + tick)], [0, 1], [], Clock(0, 0));
      var readings, later := [Clock(0, 0), Clock(tick, tick)], Clock(tick + wait - 1, tick + wait - 1);
      && WellFormed(s) && IsShortestWait(s, readings, wait + 1, wait)
      && Elapsed(Scanned(s, readings).clock, later, wait - 1) && Due(s.store[0], later)
  {
    var s := State([Alarm(wait), Alarm(wait + tick)], [0, 1], [], Clock(0, 0));
    var readings := [Clock(0, 0), Clock(tick, tick)];
    assert ClockAt(s.clock, readings, 1) == Clock(0, 0);
    assert ClockAt(s.clock, readings, 2) == Clock(tick, tick);
    assert Left(s, readings, 0) == wait && Left(s, readings, 1) == wait;
    assert Limits(s, readings, 0, wait);
  }

  /** A poll that waits as long as sleep_interval allowed fires the event that limited it, in the pass that
      follows the wait, unless a callback changes that event first. */
  lemma {:induction false} FullWaitFires(s: State, readings: seq<Clock>, limit: int, wait: int, later: Clock, ms: nat,
                                         turns: seq<Turn>)
    requires WellFormed(s) && IsShortestWait(s, readings, limit, wait)
    requires Elapsed(Scanned(s, readings).clock, later, ms) && ms >= wait && wait < limit
    ensures exists k :: 0 <= k < |s.list| && Limits(s, readings, k, wait)
                        && Served(Fire(s.(clock := later), turns).t, s.list[k])
  {
    var k :| 0 <= k < |s.list| && Limits(s, readings, k, wait);
    ClockMovesOn(s.clock, readings, k + 1, |s.list|);
    DueAfter(s, readings, k, later, ms);
    WaitFollows(s, later);
    assert s.list[k] in s.list && Waiting(s.(clock := later), s.list[k]);
    DueEventsFire(s.(clock := later), turns, s.list[k]);
  }

  // ----- the distance between callbacks -----

  /** Every callback of `id` in `marks` begins at least `interval` after `last`, the end of the one before. */
  ghost predicate Spaced(marks: seq<Mark>, id: Id, interval: int, last: Stamp)
    decreases |marks|
  {
    marks == [] ||
    if marks[0].id != id then Spaced(marks[1..], id, interval, last)
    else if marks[0].Began? then marks[0].at >= last + interval && Spaced(marks[1..], id, interval, last)
    else Spaced(marks[1..], id, interval, marks[0].at)
  }

  ghost function LastEnd(marks: seq<Mark>, id: Id, last: Stamp): Stamp
    decreases |marks|
  {
    if marks == [] then last
    else LastEnd(marks[1..], id, if marks[0].Ended? && marks[0].id == id then marks[0].at else last)
  }

  lemma {:induction false} SpacedJoin(a: seq<Mark>, b: seq<Mark>, id: Id, interval: int, last: Stamp)
    ensures Spaced(a + b, id, interval, last) <==>
            Spaced(a, id, interval, last) && Spaced(b, id, interval, LastEnd(a, id, last))
    ensures LastEnd(a + b, id, last) == LastEnd(b, id, LastEnd(a, id, last))
    decreases |a|
  {
    if a == [] {
      assert a + b == b;
    } else {
      assert (a + b)[1..] == a[1..] + b;
      SpacedJoin(a[1..], b, id, interval, if a[0].Ended? && a[0].id == id then a[0].at else last);
    }
  }

  lemma {:induction false} SpacedWithout(marks: seq<Mark>, id: Id, interval: int, last: Stamp)
    requires forall m :: m in marks ==> m.id != id
    ensures Spaced(marks, id, interval, last) && LastEnd(marks, id, last) == last
    decreases |marks|
  {
    if marks != [] {
      assert marks[0] in marks;
      SpacedWithout(marks[1..], id, interval, last);
    }
  }

  ghost predicate Repeating(s: State, id: Id) {
    id < |s.store| && !OneShot(s.store[id]) && s.store[id].timer.started
  }

  /** The callbacks of `id` in the run are an interval apart, and the timer counts from the end of the last. */
  ghost predicate KeepsPace(s: State, id: Id, o: Outcome)
    requires Repeating(s, id)
  {
    var e := s.store[id];
    && id < |o.s.store|
    && Spaced(o.t.marks, id, e.timer.limit, e.timer.start)
    && o.s.store[id] == e.(timer := e.timer.(start := LastEnd(o.t.marks, id, e.timer.start)))
  }

  lemma {:induction false} KeepsPaceThen(s: State, id: Id, a: Outcome, b: Outcome)
    requires Repeating(s, id) && KeepsPace(s, id, a) && KeepsPace(a.s, id, b)
    ensures KeepsPace(s, id, Then(a.t, b))
  {
    var timer := s.store[id].timer;
    SpacedJoin(a.t.marks, b.t.marks, id, timer.limit, timer.start);
  }

  lemma {:induction false} QuietKeepsPace(s: State, id: Id, o: Outcome)
    requires Repeating(s, id) && Framed(s, o) && id < |o.s.store| && id !in o.t.fired && id !in o.t.touched
    requires forall m :: m in o.t.marks ==> m.id in o.t.fired
    ensures KeepsPace(s, id, o)
  {
    SpacedWithout(o.t.marks, id, s.store[id].timer.limit, s.store[id].timer.start);
  }

  /** The callback of a repeating event: it begins when the event is due, and arms the event when it ends. */
  lemma {:induction false} CallKeepsPace(s: State, id: Id, r: Outcome)
    requires WellFormed(s) && Repeating(s, id) && id in s.list && Due(s.store[id], s.clock)
    requires Follows(Enter(s, id), r) && id !in r.t.touched
    ensures KeepsPace(s, id, Outcome(Leave(r.s, id), Join(Look(s, id), Bracket(id, s.clock.mono, r))))
  {
    var timer := s.store[id].timer;
    var s1 := Enter(s, id);
    assert id in s1.stack by { assert s1.stack[|s.stack|] == id; }
    var from, to := [Began(id, s.clock.mono)], [Ended(id, r.s.clock.mono)];
    SpacedWithout(r.t.marks, id, timer.limit, timer.start);
    SpacedJoin(r.t.marks, to, id, timer.limit, timer.start);
    SpacedJoin(from, r.t.marks + to, id, timer.limit, timer.start);
    assert from + (r.t.marks + to) == from + r.t.marks + to;
    var o := Outcome(Leave(r.s, id), Join(Look(s, id), Bracket(id, s.clock.mono, r)));
    assert o.t.marks == from + r.t.marks + to;
    assert Spaced(to, id, timer.limit, timer.start) && LastEnd(to, id, timer.start) == r.s.clock.mono;
    assert Spaced(from, id, timer.limit, timer.start) && LastEnd(from, id, timer.start) == timer.start;
    assert s1.store[id] == s.store[id].(lock := true);
    assert r.s.store[id] == s1.store[id];
  }

  lemma {:induction false} VisitKeepsPace(s: State, i: nat, turns: seq<Turn>, id: Id)
    requires WellFormed(s) && i < |s.list| && Repeating(s, id) && id !in VisitAt(s, i, turns).t.touched
    ensures KeepsPace(s, id, VisitAt(s, i, turns))
    decreases turns, |s.list| - i, 0
  {
    var s0 := Reading(s, turns);
    var at := s.list[i];
    WaitFollows(s, s0.clock);
    if Drops(At(s0, at)) || !Due(At(s0, at), s0.clock) {
      VisitFollows(s, i, turns);
      QuietKeepsPace(s, id, VisitAt(s, i, turns));
    } else {
      CallbackKeepsPace(s0, at, turns, id);
    }
  }

  /** The callback of a due event, be it this one or another. */
  lemma {:induction false} CallbackKeepsPace(s: State, at: Id, turns: seq<Turn>, id: Id)
    requires WellFormed(s) && at in s.list && Due(At(s, at), s.clock) && Repeating(s, id)
    requires id !in Callback(Enter(s, at), turns).t.touched
    ensures KeepsPace(s, id, Called(s, at, Callback(Enter(s, at), turns), Look(s, at)))
    decreases turns, 0, 0
  {
    var s1 := Enter(s, at);
    EnterWellFormed(s, at);
    var r := CallbackFollows(s1, turns);
    if at == id {
      CallKeepsPace(s, id, r);
    } else {
      if turns == [] { QuietKeepsPace(s1, id, r); } else { RunKeepsPace(s1, turns[0].script, id); }
      OtherCallKeepsPace(s, id, at, r);
    }
  }

  /** The callback of another event. */
  lemma {:induction false} OtherCallKeepsPace(s: State, id: Id, other: Id, r: Outcome)
    requires WellFormed(s) && Repeating(s, id) && other in s.list && other != id
    requires KeepsPace(Enter(s, other), id, r)
    ensures KeepsPace(s, id, Outcome(Leave(r.s, other), Join(Look(s, other), Bracket(other, s.clock.mono, r))))
  {
    var timer := s.store[id].timer;
    var from, to := [Began(other, s.clock.mono)], [Ended(other, r.s.clock.mono)];
    SpacedWithout(from, id, timer.limit, timer.start);
    SpacedWithout(to, id, timer.limit, LastEnd(r.t.marks, id, timer.start));
    SpacedJoin(r.t.marks, to, id, timer.limit, timer.start);
    SpacedJoin(from, r.t.marks + to, id, timer.limit, timer.start);
    assert from + (r.t.marks + to) == from + r.t.marks + to;
    assert Join(Look(s, other), Bracket(other, s.clock.mono, r)).marks == from + r.t.marks + to;
  }

  lemma {:induction false} LoopKeepsPace(s: State, i: nat, turns: seq<Turn>, id: Id)
    requires WellFormed(s) && Repeating(s, id) && id !in Loop(s, i, turns).t.touched
    ensures KeepsPace(s, id, Loop(s, i, turns))
    decreases turns, if i < |s.list| then |s.list| - i else 0, 1
  {
    if i < |s.list| {
      var step := VisitAt(s, i, turns);
      VisitFollows(s, i, turns);
      VisitKeepsPace(s, i, turns, id);
      LoopKeepsPace(step.s, Next(s, i), Rest(turns), id);
      KeepsPaceThen(s, id, step, Loop(step.s, Next(s, i), Rest(turns)));
    }
  }

  lemma {:induction false} RunKeepsPace(s: State, script: seq<Action>, id: Id)
    requires WellFormed(s) && Repeating(s, id) && id !in Run(s, script).t.touched
    ensures KeepsPace(s, id, Run(s, script))
    decreases script, 0, 0
  {
    if script != [] {
      var first := Do(s, script[0]);
      DoFollows(s, script[0]);
      DoKeepsPace(s, script[0], id);
      RunKeepsPace(first.s, script[1..], id);
      KeepsPaceThen(s, id, first, Run(first.s, script[1..]));
    }
  }

  lemma {:induction false} DoKeepsPace(s: State, a: Action, id: Id)
    requires WellFormed(s) && Repeating(s, id) && id !in Do(s, a).t.touched
    ensures KeepsPace(s, id, Do(s, a))
    decreases a, 0, 0
  {
    if a.Nested? {
      var loop := Loop(s, 0, a.pass);
      LoopKeepsPace(s, 0, a.pass, id);
      FinishKeepsPace(s, loop, id);
    } else {
      SimpleFollows(s, a);
      QuietKeepsPace(s, id, Simple(s, a));
    }
  }

  lemma {:induction false} FinishKeepsPace(s: State, o: Outcome, id: Id)
    requires Repeating(s, id) && KeepsPace(s, id, o)
    ensures KeepsPace(s, id, Finish(o))
  {
    assert Purge(o.s).t.marks == [];
    assert o.t.marks + [] == o.t.marks;
  }

  /** In any pass, at any depth, the callbacks of a repeating event that no callback changes begin at least
      one interval after the event was armed or its previous callback ended. */
  lemma {:induction false} RepeatingEventsKeepTheirDistance(s: State, turns: seq<Turn>, id: Id)
    requires WellFormed(s) && Repeating(s, id) && id !in Fire(s, turns).t.touched
    ensures KeepsPace(s, id, Fire(s, turns))
  {
    LoopKeepsPace(s, 0, turns, id);
    FinishKeepsPace(s, Loop(s, 0, turns), id);
  }
}
