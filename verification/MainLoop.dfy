/** One turn of zmq_loop of src/lua/lzmq/impl/loop.lua: wait for sockets no longer than until the next event is
    due, then fire the events. */
module MainLoop {
  import opened Options
  import opened Timers
  import opened Scheduler
  import opened SchedulerInvariants
  import opened SchedulerTheorems
  import opened SchedulerActions
  import opened SchedulerTiming
  import opened EventLoop

  /** One call of zmq_loop:poll, as its environment sees it: the clock readings while the interval is computed, what
      happens while it waits (time passes, socket callbacks act), what the poller replies, whether a socket callback
      interrupts the loop, the pass that follows, and whether a timer callback interrupts it. */
  datatype Round = Round(scan: seq<Clock>, meanwhile: seq<Action>, io: Option<nat>, stopped: bool, pass: seq<Turn>,
                         stoppedLater: bool)

  /** A round that is not cut short: the poller replies and nobody interrupts before the events are fired. */
  predicate Completes(round: Round) {
    round.io.Some? && !round.stopped
  }

  /** What follows the question how long to wait. */
  function Polled(s: State, round: Round): Outcome {
    var waited := Run(s, round.meanwhile);
    if Completes(round) then Then(waited.t, Fire(waited.s, round.pass)) else waited
  }

  /** What poll returns: how many sockets and events were served, or nothing. */
  function Reply(s: State, round: Round): Option<nat> {
    if Completes(round) then Some(round.io.value + Count(Fire(Run(s, round.meanwhile).s, round.pass).t.visits))
    else None
  }

  lemma {:induction false} RoundCompletes(s: State, round: Round, waited: Outcome, fired: Outcome, n: nat)
    requires Completes(round) && waited == Run(s, round.meanwhile) && fired == Fire(waited.s, round.pass)
    requires n == Count(fired.t.visits)
    ensures Polled(s, round) == Outcome(fired.s, Join(waited.t, fired.t))
    ensures Reply(s, round) == Some(round.io.value + n)
  {
  }

  lemma {:induction false} RoundIsCut(s: State, round: Round, waited: Outcome)
    requires !Completes(round) && waited == Run(s, round.meanwhile)
    ensures Polled(s, round) == waited && Reply(s, round) == None
  {
  }

  /** When a round serves sockets and events, and what it leaves; one that is cut short is what happened while it waited
      and no more. */
  lemma {:induction false} RoundServesIff(s: State, round: Round)
    ensures var waited := Run(s, round.meanwhile);
      && (Reply(s, round).Some? <==> round.io.Some? && !round.stopped)
      && (Reply(s, round).None? ==> Polled(s, round) == waited)
      && (Reply(s, round).Some? ==>
            var fired := Fire(waited.s, round.pass);
            && Polled(s, round) == Outcome(fired.s, Join(waited.t, fired.t))
            && Reply(s, round).value == round.io.value + |set k | 0 <= k < |fired.t.visits| && fired.t.visits[k].fired|)
  {
    CountIsNumber(Fire(Run(s, round.meanwhile).s, round.pass).t.visits);
  }

  /** An event that is due when the wait is over is served by the round, unless it was changed meanwhile. */
  lemma {:induction false} RoundServesTheDue(s: State, round: Round, x: Id)
    requires WellFormed(s) && Completes(round) && Waiting(Run(Scanned(s, round.scan), round.meanwhile).s, x)
    ensures var o := Polled(Scanned(s, round.scan), round); Served(o.t, x) && Follows(s, o)
  {
    var s0 := Scanned(s, round.scan);
    var waited := Run(s0, round.meanwhile);
    WaitFollows(s, s0.clock);
    RunFollows(s0, round.meanwhile);
    DueEventsFire(waited.s, round.pass, x);
    FireFollows(waited.s, round.pass);
    FollowsThen(s0, waited, Fire(waited.s, round.pass));
    ReadingFollows(s, s0.clock, Polled(s0, round));
  }

  class ZmqLoop {
    const list: EventList
    /** private_.interrupt, or a poller that is not running. */
    var interrupted: bool

    constructor (list: EventList)
      ensures this.list == list && !interrupted
    {
      this.list, interrupted := list, false;
    }

    /** zmq_loop:poll; `asked` is how long it asks the poller to wait. */
    method Poll(limit: int, round: Round) returns (r: Option<nat>, ghost asked: int, ghost t: Trace)
      requires list.Valid()
      modifies this, list, list.handles
      ensures list.Valid() && list.Grows()
      ensures old(interrupted) ==>
        r.None? && interrupted && Outcome(list.Model(), t) == Outcome(old(list.Model()), QUIET)
      ensures !old(interrupted) ==> IsShortestWait(old(list.Model()), round.scan, limit, asked)
      ensures !old(interrupted) ==> Outcome(list.Model(), t) == Polled(Scanned(old(list.Model()), round.scan), round)
      ensures !old(interrupted) ==> interrupted == (round.io.None? || round.stopped || round.stoppedLater)
      ensures !old(interrupted) ==> r == Reply(Scanned(old(list.Model()), round.scan), round)
      ensures r.Some? <==> !old(interrupted) && round.io.Some? && !round.stopped
      ensures !old(interrupted) && r.None? ==>
        Outcome(list.Model(), t) == Run(Scanned(old(list.Model()), round.scan), round.meanwhile)
    {
      asked, t := limit, QUIET;
      if interrupted { return None, asked, t; }
      var interval := list.SleepInterval(limit, round.scan);
      asked := interval;
      r, t := Serve(round);
    }

    /** What follows the question how long to wait. */
    method Serve(round: Round) returns (r: Option<nat>, ghost t: Trace)
      requires list.Valid() && !interrupted
      modifies this, list, list.handles
      ensures list.Valid() && list.Grows()
      ensures Outcome(list.Model(), t) == Polled(old(list.Model()), round)
      ensures interrupted == (!Completes(round) || round.stoppedLater)
      ensures r == Reply(old(list.Model()), round)
    {
      ghost var s := list.Model();
      ghost var waited := Wait(round);
      ghost var m := list.Model();
      if interrupted {
        RoundIsCut(s, round, Outcome(m, waited));
        return None, waited;
      }
      var fired: nat;
      ghost var pass: Trace;
      fired, pass := FireEvents(round);
      RoundCompletes(s, round, Outcome(m, waited), Outcome(list.Model(), pass), fired);
      return Some(round.io.value + fired), Join(waited, pass);
    }

    /** The pass that follows; a timer callback may interrupt the loop. */
    method FireEvents(round: Round) returns (fired: nat, ghost t: Trace)
      requires list.Valid() && !interrupted
      modifies this, list, list.handles
      ensures list.Valid() && list.Grows() && interrupted == round.stoppedLater
      ensures Outcome(list.Model(), t) == Fire(old(list.Model()), round.pass) && fired == Count(t.visits)
    {
      fired, t := list.Fire(round.pass);
      if round.stoppedLater { interrupted := true; }
    }

    /** The call of the poller: an error interrupts the loop. */
    method Wait(round: Round) returns (ghost t: Trace)
      requires list.Valid() && !interrupted
      modifies this, list, list.handles
      ensures list.Valid() && list.Grows()
      ensures Outcome(list.Model(), t) == Run(old(list.Model()), round.meanwhile)
      ensures interrupted == !Completes(round)
    {
      t := list.RunScript(round.meanwhile);
      if round.stopped { interrupted := true; }
      if round.io.None? { interrupted := true; }
    }
  }
}
