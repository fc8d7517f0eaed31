/** What event_list:fire promises its users: nothing is starved, nothing fires twice in a pass, nothing is
    lost, and repeating events keep their distance. */
module SchedulerTheorems {
  import opened Timers
  import opened IdLists
  import opened Scheduler
  import opened SchedulerInvariants

  function Ids(visits: seq<Visit>): (r: seq<Id>)
    ensures |r| == |visits|
    ensures forall k :: 0 <= k < |r| ==> r[k] == visits[k].id
  {
    seq(|visits|, k requires 0 <= k < |visits| => visits[k].id)
  }

  lemma {:induction false} VisitIsOne(s: State, i: nat, turns: seq<Turn>)
    requires i < |s.list|
    ensures |VisitAt(s, i, turns).t.visits| == 1
    ensures Ids(VisitAt(s, i, turns).t.visits) == [s.list[i]]
    ensures s.list[i] in VisitAt(s, i, turns).t.examined
  {
  }

  lemma {:induction false} LoopVisits(s: State, i: nat, turns: seq<Turn>)
    requires i < |s.list|
    ensures var step := VisitAt(s, i, turns);
            Ids(Loop(s, i, turns).t.visits) == [s.list[i]] + Ids(Loop(step.s, Next(s, i), Rest(turns)).t.visits)
  {
    VisitIsOne(s, i, turns);
  }

  // ----- at most once -----

  /** The events in `past` stand before position i, or are out of the list. */
  ghost predicate Behind(s: State, i: nat, past: set<Id>) {
    forall x :: x in past ==> x < |s.store| && (x in s.list ==> x in if i <= |s.list| then s.list[..i] else s.list)
  }

  lemma {:induction false} StaysBehind(s: State, i: nat, past: set<Id>, o: Outcome)
    requires WellFormed(s) && Follows(s, o) && i <= |s.list| && Behind(s, i, past)
    ensures Behind(o.s, i, past)
  {
    forall x | x in past && x in o.s.list
      ensures x in if i <= |o.s.list| then o.s.list[..i] else o.s.list
    {
      ListAfter(s, o, x);
      PrefixStays(s.list, Range(|s.store|, |o.s.store|), o.t.gone.Keys, i, x);
    }
  }

  /** The event at position i is behind position i when it left the list ... */
  lemma {:induction false} DroppedIsBehind(s: State, i: nat, past: set<Id>, o: Outcome)
    requires WellFormed(s) && Follows(s, o) && i < |s.list| && Behind(s, i, past) && s.list[i] in o.t.gone
    ensures Behind(o.s, i, past + {s.list[i]})
  {
    StaysBehind(s, i, past, o);
    ListAfter(s, o, s.list[i]);
  }

  /** ... and behind the next position in any case. */
  lemma {:induction false} PassedIsBehind(s: State, i: nat, past: set<Id>, o: Outcome)
    requires WellFormed(s) && Follows(s, o) && i < |s.list| && Behind(s, i, past)
    ensures Behind(o.s, i + 1, past + {s.list[i]})
  {
    var id := s.list[i];
    assert id in s.list && s.list[..i + 1] == s.list[..i] + [id];
    forall x | x in past + {id}
      ensures x < |s.store| && (x in s.list ==> x in s.list[..i + 1])
    {
    }
    StaysBehind(s, i + 1, past + {id}, o);
  }

  lemma {:induction false} VisitMovesOn(s: State, i: nat, turns: seq<Turn>, past: set<Id>)
    requires WellFormed(s) && i < |s.list| && Behind(s, i, past)
    ensures Behind(VisitAt(s, i, turns).s, Next(s, i), past + {s.list[i]})
  {
    VisitFollows(s, i, turns);
    if Drops(At(s, s.list[i])) {
      DroppedIsBehind(s, i, past, VisitAt(s, i, turns));
    } else {
      PassedIsBehind(s, i, past, VisitAt(s, i, turns));
    }
  }

  lemma {:induction false} LoopVisitsOnce(s: State, i: nat, turns: seq<Turn>, past: set<Id>)
    requires WellFormed(s) && Behind(s, i, past)
    ensures Distinct(Ids(Loop(s, i, turns).t.visits))
    ensures forall x :: x in past ==> x !in Ids(Loop(s, i, turns).t.visits)
    decreases turns, if i < |s.list| then |s.list| - i else 0
  {
    if i < |s.list| {
      var id := s.list[i];
      VisitMovesOn(s, i, turns, past);
      VisitFollows(s, i, turns);
      LoopVisits(s, i, turns);
      LoopVisitsOnce(VisitAt(s, i, turns).s, Next(s, i), Rest(turns), past + {id});
    }
  }

  /** One pass looks at each event at most once, hence fires it at most once, although nested passes remove
      entries below its index and callbacks append. */
  lemma {:induction false} AtMostOncePerPass(s: State, turns: seq<Turn>)
    requires WellFormed(s)
    ensures Distinct(Ids(Fire(s, turns).t.visits))
  {
    LoopVisitsOnce(s, 0, turns, {});
    assert Fire(s, turns).t.visits == Loop(s, 0, turns).t.visits;
  }

  // ----- a pass ends -----

  /** Whatever its callback does, an iteration gets closer to the end of the list, but for the events it creates. */
  lemma {:induction false} VisitAdvances(s: State, i: nat, turns: seq<Turn>)
    requires WellFormed(s) && i < |s.list|
    ensures var o := VisitAt(s, i, turns);
      |o.s.list| - Next(s, i) < |s.list| - i + (|o.s.store| - |s.store|)
  {
    VisitFollows(s, i, turns);
  }

  lemma {:induction false} LoopEnds(s: State, i: nat, turns: seq<Turn>)
    requires WellFormed(s)
    ensures var o := Loop(s, i, turns);
      |o.t.visits| <= (if i < |s.list| then |s.list| - i else 0) + (|o.s.store| - |s.store|)
    decreases turns, if i < |s.list| then |s.list| - i else 0
  {
    if i < |s.list| {
      var o := VisitAt(s, i, turns);
      VisitFollows(s, i, turns);
      LoopFollows(o.s, Next(s, i), Rest(turns));
      VisitAdvances(s, i, turns);
      VisitIsOne(s, i, turns);
      LoopEnds(o.s, Next(s, i), Rest(turns));
    }
  }

  /** A pass takes no more iterations than there are events in the list when it starts and events created while it
      runs, nested passes included. */
  lemma {:induction false} PassEnds(s: State, turns: seq<Turn>)
    requires WellFormed(s)
    ensures var o := Fire(s, turns); |o.t.visits| <= |s.list| + (|o.s.store| - |s.store|)
  {
    LoopEnds(s, 0, turns);
  }

  // ----- no starvation -----

  /** Events that are in the list before and after were in it in between. */
  lemma {:induction false} NeverReturns(s: State, a: Outcome, b: Outcome, x: Id)
    requires WellFormed(s) && Follows(s, a) && Follows(a.s, b)
    requires x in s.list && x in b.s.list
    ensures x in a.s.list
  {
    ListAfter(a.s, b, x);
  }

  lemma {:induction false} LoopExamines(s: State, i: nat, turns: seq<Turn>, x: Id)
    requires WellFormed(s) && i <= |s.list| && x in s.list[i..] && x in Loop(s, i, turns).s.list
    ensures x in Loop(s, i, turns).t.examined
    decreases turns, |s.list| - i, 1
  {
    var o := VisitAt(s, i, turns);
    var j, rest := Next(s, i), Rest(turns);
    var tail := Loop(o.s, j, rest);
    VisitFollows(s, i, turns);
    LoopFollows(o.s, j, rest);
    NeverReturns(s, o, tail, x);
    if x != s.list[i] && x !in o.t.examined {
      VisitExamines(s, i, turns, x);
      LoopExamines(o.s, j, rest, x);
    }
  }

  /** What stands behind position i in a list, and still does when that position is taken out ... */
  lemma {:induction false} LaterAfterDrop(list: seq<Id>, i: nat, x: Id)
    requires i < |list| && x in list[i..] && x != list[i]
    ensures x in (list[..i] + list[i + 1..])[i..]
  {
    var k :| i <= k < |list| && list[k] == x;
    assert (list[..i] + list[i + 1..])[i..] == list[i + 1..];
    assert list[i + 1..][k - (i + 1)] == x;
  }

  /** ... or the list was appended to. */
  lemma {:induction false} LaterAfterAppend(list: seq<Id>, i: nat, x: Id, now: seq<Id>)
    requires i < |list| && x in list[i..] && x != list[i] && list <= now
    ensures x in now[i + 1..]
  {
    var k :| i <= k < |list| && list[k] == x;
    assert now[i + 1..][k - (i + 1)] == x;
  }

  /** After one iteration an event that stood behind the index was examined, or still stands behind it. */
  lemma {:induction false} VisitExamines(s: State, i: nat, turns: seq<Turn>, x: Id)
    requires WellFormed(s) && i < |s.list| && x in s.list[i..] && x != s.list[i]
    requires x in VisitAt(s, i, turns).s.list && x !in VisitAt(s, i, turns).t.examined
    ensures Next(s, i) <= |VisitAt(s, i, turns).s.list| && x in VisitAt(s, i, turns).s.list[Next(s, i)..]
    decreases turns, |s.list| - i, 0
  {
    var s0 := Reading(s, turns);
    var id := s.list[i];
    var e := At(s0, id);
    if Drops(e) {
      LaterAfterDrop(s.list, i, x);
    } else {
      if Due(e, s0.clock) && turns != [] {
        WaitFollows(s, s0.clock);
        EnterWellFormed(s0, id);
        RunExamines(Enter(s0, id), turns[0].script, x);
      }
      LaterAfterAppend(s.list, i, x, VisitAt(s, i, turns).s.list);
    }
  }

  /** A script either leaves the list in place, apart from appending to it, or examines what stays. */
  lemma {:induction false} RunExamines(s: State, script: seq<Action>, x: Id)
    requires WellFormed(s) && x in s.list && x in Run(s, script).s.list
    ensures s.list <= Run(s, script).s.list || x in Run(s, script).t.examined
    decreases script, 0, 0
  {
    if script != [] {
      var first := Do(s, script[0]);
      var tail := Run(first.s, script[1..]);
      DoFollows(s, script[0]);
      RunFollows(first.s, script[1..]);
      NeverReturns(s, first, tail, x);
      DoExamines(s, script[0], x);
      RunExamines(first.s, script[1..], x);
    }
  }

  lemma {:induction false} DoExamines(s: State, a: Action, x: Id)
    requires WellFormed(s) && x in s.list && x in Do(s, a).s.list
    ensures s.list <= Do(s, a).s.list || x in Do(s, a).t.examined
    decreases a, 0, 0
  {
    if a.Nested? {
      var loop := Loop(s, 0, a.pass);
      WithoutMember(loop.s.list, Stopped(loop.s), x);
      LoopExamines(s, 0, a.pass, x);
    }
  }

  /** An event in the list when a pass starts and still there when it ends was examined, by the pass itself
      or by a pass nested inside it, for any callbacks and any depth of nesting. */
  lemma {:induction false} NothingSkipped(s: State, turns: seq<Turn>, x: Id)
    requires WellFormed(s) && x in s.list && x in Fire(s, turns).s.list
    ensures x in Fire(s, turns).t.examined
  {
    var loop := Loop(s, 0, turns);
    WithoutMember(loop.s.list, Stopped(loop.s), x);
    LoopExamines(s, 0, turns, x);
  }

  // ----- due events fire -----

  ghost predicate Waiting(s: State, x: Id) {
    x in s.list && x < |s.store| && Due(s.store[x], s.clock)
  }

  ghost predicate Served(t: Trace, x: Id) {
    x in t.fired || x in t.touched
  }

  /** A due event stays due while nobody fires or changes it. */
  lemma {:induction false} StillWaiting(s: State, o: Outcome, x: Id)
    requires WellFormed(s) && Follows(s, o) && Waiting(s, x) && !Served(o.t, x)
    ensures Waiting(o.s, x)
  {
    ListAfter(s, o, x);
  }

  lemma {:induction false} LoopServes(s: State, i: nat, turns: seq<Turn>, x: Id)
    requires WellFormed(s) && i <= |s.list| && x in s.list[i..] && Waiting(s, x)
    ensures Served(Loop(s, i, turns).t, x)
    decreases turns, |s.list| - i, 1
  {
    var o := VisitAt(s, i, turns);
    VisitFollows(s, i, turns);
    if !Served(o.t, x) {
      VisitServes(s, i, turns, x);
      StillWaiting(s, o, x);
      LoopServes(o.s, Next(s, i), Rest(turns), x);
    }
  }

  lemma {:induction false} VisitServes(s: State, i: nat, turns: seq<Turn>, x: Id)
    requires WellFormed(s) && i < |s.list| && x in s.list[i..] && Waiting(s, x)
    requires !Served(VisitAt(s, i, turns).t, x)
    ensures Next(s, i) <= |VisitAt(s, i, turns).s.list| && x in VisitAt(s, i, turns).s.list[Next(s, i)..]
    decreases turns, |s.list| - i, 0
  {
    var s0 := Reading(s, turns);
    var id := s.list[i];
    var e := At(s0, id);
    WaitFollows(s, s0.clock);
    assert x != id;
    if Drops(e) {
      LaterAfterDrop(s.list, i, x);
    } else {
      if Due(e, s0.clock) && turns != [] {
        EnterWellFormed(s0, id);
        RunServes(Enter(s0, id), turns[0].script, x);
      }
      LaterAfterAppend(s.list, i, x, VisitAt(s, i, turns).s.list);
    }
  }

  lemma {:induction false} RunServes(s: State, script: seq<Action>, x: Id)
    requires WellFormed(s) && Waiting(s, x)
    ensures s.list <= Run(s, script).s.list || Served(Run(s, script).t, x)
    decreases script, 0, 0
  {
    if script != [] {
      var first := Do(s, script[0]);
      DoServes(s, script[0], x);
      if !Served(first.t, x) {
        DoFollows(s, script[0]);
        StillWaiting(s, first, x);
        RunServes(first.s, script[1..], x);
      }
    }
  }

  lemma {:induction false} DoServes(s: State, a: Action, x: Id)
    requires WellFormed(s) && Waiting(s, x)
    ensures s.list <= Do(s, a).s.list || Served(Do(s, a).t, x)
    decreases a, 0, 0
  {
    if a.Nested? {
      LoopServes(s, 0, a.pass, x);
    }
  }

  /** An event that is unlocked, started and due when a pass starts is fired before the pass ends, unless a
      callback changed it. */
  lemma {:induction false} DueEventsFire(s: State, turns: seq<Turn>, x: Id)
    requires WellFormed(s) && Waiting(s, x)
    ensures x in Fire(s, turns).t.fired || x in Fire(s, turns).t.touched
  {
    LoopServes(s, 0, turns, x);
  }

  // ----- conservation -----

  /** After a pass the list holds started events and those whose callbacks are still running; what left it
      was stopped and unlocked when it did, and everything else is there in its old order. */
  lemma {:induction false} EventsAreConserved(s: State, turns: seq<Turn>)
    requires WellFormed(s)
    ensures |s.store| <= |Fire(s, turns).s.store|
    ensures var o := Fire(s, turns);
      && o.s.list == Without(s.list + Range(|s.store|, |o.s.store|), o.t.gone.Keys)
      && (forall x :: x in o.t.gone ==> !o.t.gone[x].lock && !o.t.gone[x].timer.started)
      && (forall x :: x in o.s.list ==> At(o.s, x).timer.started || x in s.stack)
  {
    FireFollows(s, turns);
    var loop := Loop(s, 0, turns);
    LoopFollows(s, 0, turns);
    forall x | x in Fire(s, turns).s.list
      ensures At(loop.s, x).timer.started || x in s.stack
    {
      WithoutMember(loop.s.list, Stopped(loop.s), x);
    }
  }

  /** After an outermost pass nothing is locked, and the list holds started events only. */
  lemma {:induction false} OutermostPass(s: State, turns: seq<Turn>)
    requires WellFormed(s) && s.stack == []
    ensures var o := Fire(s, turns);
      && (forall x :: 0 <= x < |o.s.store| ==> !o.s.store[x].lock)
      && (forall x :: x in o.s.list ==> At(o.s, x).timer.started)
      && (forall x :: x in s.list && x !in o.s.list ==>
           x in o.t.gone && (x in o.t.fired || x in o.t.touched || !At(s, x).timer.started))
  {
    FireFollows(s, turns);
    EventsAreConserved(s, turns);
    forall x | x in s.list && x !in Fire(s, turns).s.list
      ensures x in Fire(s, turns).t.gone
    {
      ListAfter(s, Fire(s, turns), x);
    }
  }

  /** The lock discipline over whole runs.  A program is a script that starts without events: when it has run,
      nothing is locked, every event ever created is in the list in the order of creation or has left it, and
      it left it stopped and unlocked. */
  lemma {:induction false} EveryRun(now: Clock, program: seq<Action>)
    ensures var o := Run(State([], [], [], now), program);
      && WellFormed(o.s) && o.s.stack == []
      && (forall x :: 0 <= x < |o.s.store| ==> !o.s.store[x].lock)
      && o.s.list == Without(Range(0, |o.s.store|), o.t.gone.Keys)
      && (forall x :: x in o.t.gone ==> !o.t.gone[x].lock && !o.t.gone[x].timer.started)
  {
    var s := State([], [], [], now);
    RunFollows(s, program);
    assert s.list + Range(0, |Run(s, program).s.store|) == Range(0, |Run(s, program).s.store|);
  }

  // ----- callbacks that start no pass -----

  predicate Plain(turns: seq<Turn>) {
    forall k, a :: 0 <= k < |turns| && a in turns[k].script ==> !a.Nested?
  }

  lemma {:induction false} SimpleIsQuiet(s: State, a: Action)
    requires !a.Nested?
    ensures Simple(s, a).t.gone == map[] && Simple(s, a).t.fired == {} && Simple(s, a).t.examined == {}
  {
  }

  lemma {:induction false} QuietJoin(a: Trace, b: Trace)
    requires a.gone == map[] && a.fired == {} && a.examined == {}
    requires b.gone == map[] && b.fired == {} && b.examined == {}
    ensures Join(a, b).gone == map[] && Join(a, b).fired == {} && Join(a, b).examined == {}
  {
  }

  lemma {:induction false} PlainRun(s: State, script: seq<Action>)
    requires WellFormed(s) && forall a :: a in script ==> !a.Nested?
    ensures Run(s, script).t.gone == map[] && Run(s, script).t.fired == {} && Run(s, script).t.examined == {}
    decreases script
  {
    if script != [] {
      assert script[0] in script;
      var first := Simple(s, script[0]);
      SimpleFollows(s, script[0]);
      SimpleIsQuiet(s, script[0]);
      PlainRun(first.s, script[1..]);
      QuietJoin(first.t, Run(first.s, script[1..]).t);
    }
  }

  lemma {:induction false} PlainVisitKeepsAll(s: State, i: nat, turns: seq<Turn>)
    requires WellFormed(s) && i < |s.list| && Plain(turns)
    ensures var o := VisitAt(s, i, turns);
      && (if Drops(At(s, s.list[i])) then o.t.gone.Keys == {s.list[i]} else o.t.gone.Keys == {})
      && |o.t.visits| == 1 && o.t.visits[0].id == s.list[i] && o.t.examined == {s.list[i]}
      && (o.t.visits[0].fired <==> Due(o.t.visits[0].seen, o.t.visits[0].now))
      && o.t.fired == (if o.t.visits[0].fired then {s.list[i]} else {})
  {
    var s0 := Reading(s, turns);
    WaitFollows(s, s0.clock);
    if !Drops(At(s0, s.list[i])) && Due(At(s0, s.list[i]), s0.clock) && turns != [] {
      EnterWellFormed(s0, s.list[i]);
      PlainRun(Enter(s0, s.list[i]), turns[0].script);
    }
  }

  /** What stands behind position i when nothing, or just that position, left the list. */
  lemma {:induction false} StandsBehind(list: seq<Id>, made: seq<Id>, i: nat, after: seq<Id>)
    requires i < |list|
    ensures after == Without(list + made, {}) ==> i < |after| && after[i + 1..] == list[i + 1..] + made
    ensures made == [] && after == list[..i] + list[i + 1..] ==> i <= |after| && after[i..] == list[i + 1..] + made
  {
    WithoutNothing(list + made, {});
  }

  lemma {:induction false} PlainVisit(s: State, i: nat, turns: seq<Turn>)
    requires WellFormed(s) && i < |s.list| && Plain(turns)
    ensures |s.store| <= |VisitAt(s, i, turns).s.store|
    ensures var o := VisitAt(s, i, turns);
      Next(s, i) <= |o.s.list| && o.s.list[Next(s, i)..] == s.list[i + 1..] + Range(|s.store|, |o.s.store|)
  {
    VisitFollows(s, i, turns);
    var o := VisitAt(s, i, turns);
    PlainVisitKeepsAll(s, i, turns);
    StandsBehind(s.list, Range(|s.store|, |o.s.store|), i, o.s.list);
  }

  lemma {:induction false} LoopFiredVisited(s: State, i: nat, turns: seq<Turn>)
    requires WellFormed(s) && i <= |s.list| && Plain(turns)
    ensures forall x :: x in Loop(s, i, turns).t.fired ==> x in Ids(Loop(s, i, turns).t.visits)
    decreases turns, |s.list| - i
  {
    if i < |s.list| {
      VisitFollows(s, i, turns);
      PlainVisit(s, i, turns);
      PlainVisitKeepsAll(s, i, turns);
      LoopVisits(s, i, turns);
      LoopFiredVisited(VisitAt(s, i, turns).s, Next(s, i), Rest(turns));
    }
  }

  lemma {:induction false} LoopExaminesVisited(s: State, i: nat, turns: seq<Turn>)
    requires WellFormed(s) && i <= |s.list| && Plain(turns)
    ensures forall x :: x in Loop(s, i, turns).t.examined ==> x in Ids(Loop(s, i, turns).t.visits)
    decreases turns, |s.list| - i
  {
    if i < |s.list| {
      VisitFollows(s, i, turns);
      PlainVisit(s, i, turns);
      PlainVisitKeepsAll(s, i, turns);
      LoopVisits(s, i, turns);
      LoopExaminesVisited(VisitAt(s, i, turns).s, Next(s, i), Rest(turns));
    }
  }

  lemma {:induction false} InOrder(list: seq<Id>, i: nat, lo: nat, mid: nat, hi: nat)
    requires i < |list| && lo <= mid <= hi
    ensures [list[i]] + ((list[i + 1..] + Range(lo, mid)) + Range(mid, hi)) == list[i..] + Range(lo, hi)
  {
    RangeSplit(lo, mid, hi);
    assert list[i..] == [list[i]] + list[i + 1..];
  }

  lemma {:induction false} LoopInOrder(s: State, i: nat, turns: seq<Turn>)
    requires WellFormed(s) && i <= |s.list| && Plain(turns)
    ensures |s.store| <= |Loop(s, i, turns).s.store|
    ensures Ids(Loop(s, i, turns).t.visits) == s.list[i..] + Range(|s.store|, |Loop(s, i, turns).s.store|)
    decreases turns, |s.list| - i
  {
    if i < |s.list| {
      var step := VisitAt(s, i, turns);
      var tail := Loop(step.s, Next(s, i), Rest(turns));
      VisitFollows(s, i, turns);
      PlainVisit(s, i, turns);
      LoopVisits(s, i, turns);
      LoopInOrder(step.s, Next(s, i), Rest(turns));
      assert tail.s == Loop(s, i, turns).s;
      InOrder(s.list, i, |s.store|, |step.s.store|, |tail.s.store|);
    } else {
      assert Range(|s.store|, |s.store|) == [];
    }
  }

  ghost predicate FiredWhenDue(v: Visit, t: Trace) {
    (v.fired <==> Due(v.seen, v.now)) && (v.fired <==> v.id in t.fired)
  }

  lemma {:induction false} LoopFiresTheDue(s: State, i: nat, turns: seq<Turn>)
    requires WellFormed(s) && i <= |s.list| && Plain(turns)
    ensures forall v :: v in Loop(s, i, turns).t.visits ==> FiredWhenDue(v, Loop(s, i, turns).t)
    decreases turns, |s.list| - i
  {
    if i < |s.list| {
      var step := VisitAt(s, i, turns);
      VisitFollows(s, i, turns);
      PlainVisit(s, i, turns);
      LoopFiresTheDue(step.s, Next(s, i), Rest(turns));
      PlainVisitKeepsAll(s, i, turns);
      VisitMovesOn(s, i, turns, {});
      LoopVisitsOnce(step.s, Next(s, i), Rest(turns), {s.list[i]});
      LoopFiredVisited(step.s, Next(s, i), Rest(turns));
      FiredWhenDueJoin(step.t, Loop(step.s, Next(s, i), Rest(turns)).t);
    }
  }

  lemma {:induction false} FiredWhenDueJoin(first: Trace, rest: Trace)
    requires |first.visits| == 1
    requires first.visits[0].fired <==> Due(first.visits[0].seen, first.visits[0].now)
    requires first.fired == (if first.visits[0].fired then {first.visits[0].id} else {})
    requires forall v :: v in rest.visits ==> FiredWhenDue(v, rest)
    requires forall x :: x in rest.fired ==> x in Ids(rest.visits)
    requires first.visits[0].id !in Ids(rest.visits)
    ensures forall v :: v in Join(first, rest).visits ==> FiredWhenDue(v, Join(first, rest))
  {
    forall v | v in rest.visits
      ensures v.id != first.visits[0].id
    {
      var k :| 0 <= k < |rest.visits| && rest.visits[k] == v;
      assert Ids(rest.visits)[k] == v.id;
    }
  }

  /** When no callback starts a pass, a pass visits the entries of the list in order, then those its callbacks
      append, each exactly once, examines no others, and fires exactly those that are unlocked, started and due when
      visited. */
  lemma {:induction false} PlainPassIsExact(s: State, turns: seq<Turn>)
    requires WellFormed(s) && Plain(turns)
    ensures |s.store| <= |Fire(s, turns).s.store|
    ensures Ids(Fire(s, turns).t.visits) == s.list + Range(|s.store|, |Fire(s, turns).s.store|)
    ensures forall v :: v in Fire(s, turns).t.visits ==> FiredWhenDue(v, Fire(s, turns).t)
    ensures forall x :: x in Fire(s, turns).t.examined ==> x in Ids(Fire(s, turns).t.visits)
  {
    LoopInOrder(s, 0, turns);
    LoopExaminesVisited(s, 0, turns);
    LoopFiresTheDue(s, 0, turns);
    assert s.list[0..] == s.list;
    assert Fire(s, turns).t.visits == Loop(s, 0, turns).t.visits;
  }
}
