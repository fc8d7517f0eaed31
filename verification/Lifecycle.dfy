/** A context and its sockets, on values: counting, closing on failed construction, autoclose on destroy
    (src/zcontext.c, src/zsocket.c). */
module Lifecycle {
  import opened Options

  /** A socket: whether it is closed, its on_close callback given by the sockets that it closes, and how often
      one was run. */
  datatype Sock = Sock(closed: bool, hook: Option<seq<nat>>, runs: nat)

  /** A context and every socket it ever made.  `table` holds the keys of the autoclose table; sockets that are
      closed may stay in it.  A context that is not owned is not terminated. */
  datatype Ctx = Ctx(socks: seq<Sock>, count: int, closed: bool, down: bool, table: Option<set<nat>>, owned: bool)

  datatype Reply = Passed | Failed | Raised

  datatype Result = Result(ctx: Ctx, reply: Reply)

  function Ids(n: nat): (r: set<nat>)
    ensures forall i: nat :: i in r <==> i < n
  {
    if n == 0 then {} else Ids(n - 1) + {n - 1}
  }

  // ----- closing -----

  /** close of a socket, while the closes in `busy` are under way: the callback first, then the count and the flag.
      A callback that keeps to the rules does not close a socket whose close is under way. */
  function Close(c: Ctx, s: nat, busy: set<nat>): (r: Ctx)
    ensures |r.socks| == |c.socks|
    decreases Ids(|c.socks|) - busy, 0
  {
    if s >= |c.socks| || c.socks[s].closed || s in busy then c
    else Ended(BeforeClose(c, s, busy), s)
  }

  function BeforeClose(c: Ctx, s: nat, busy: set<nat>): (r: Ctx)
    requires s < |c.socks| && s !in busy
    ensures |r.socks| == |c.socks|
    decreases Ids(|c.socks|) - (busy + {s}), |if c.socks[s].hook.Some? then c.socks[s].hook.value else []| + 2
  {
    if c.socks[s].hook.None? then c
    else Ran(CloseAll(c, c.socks[s].hook.value, 0, busy + {s}), s)
  }

  function CloseAll(c: Ctx, list: seq<nat>, k: nat, busy: set<nat>): (r: Ctx)
    requires k <= |list|
    ensures |r.socks| == |c.socks|
    decreases Ids(|c.socks|) - busy, |list| - k + 1
  {
    if k == |list| then c else CloseAll(Close(c, list[k], busy), list, k + 1, busy)
  }

  function Ran(c: Ctx, s: nat): Ctx
    requires s < |c.socks|
  {
    c.(socks := c.socks[s := c.socks[s].(hook := None, runs := c.socks[s].runs + 1)])
  }

  function Ended(c: Ctx, s: nat): Ctx
    requires s < |c.socks|
  {
    c.(socks := c.socks[s := c.socks[s].(closed := true)], count := c.count - 1)
  }

  /** A traversal of the autoclose table, which may come in any order. */
  predicate Traverses(c: Ctx, order: seq<nat>) {
    c.table.Some? ==> (set s | s in order) == c.table.value
  }

  /** Every socket in the autoclose table, and then the table is dropped. */
  function CloseSockets(c: Ctx, order: seq<nat>): Ctx {
    if c.table.None? then c else CloseAll(c, order, 0, {}).(table := None)
  }

  // ----- the operations -----

  /** Setting an option, binding or connecting: nothing to do, done, or refused. */
  datatype Setting = Absent | Applied | Refused

  function Created(c: Ctx): Ctx {
    c.(socks := c.socks + [Sock(false, None, 0)], count := c.count + 1)
  }

  function Listed(c: Ctx, s: nat): Ctx {
    c.(table := Some((if c.table.Some? then c.table.value else {}) + {s}))
  }

  function Create(c: Ctx, made: bool, settings: seq<Setting>): Result {
    if c.closed || c.down then Result(c, Raised)
    else if !made then Result(c, Failed)
    else if Refused in settings then Result(Close(Created(c), |c.socks|, {}), Failed)
    else Result(Listed(Created(c), |c.socks|), Passed)
  }

  function OnClose(c: Ctx, s: nat, hook: Option<seq<nat>>): Result {
    if s >= |c.socks| || c.socks[s].closed then Result(c, Raised)
    else Result(c.(socks := c.socks[s := c.socks[s].(hook := hook)]), Passed)
  }

  function Shutdown(c: Ctx, ok: bool, order: seq<nat>): Result {
    if c.closed || c.down then Result(c, Raised)
    else if c.owned && !ok then Result(CloseSockets(c, order), Failed)
    else Result(CloseSockets(c, order).(down := true), Passed)
  }

  function Destroy(c: Ctx, ok: bool, order: seq<nat>): Result {
    if c.closed then Result(c, Passed)
    else if c.owned && !ok then Result(CloseSockets(c, order), Failed)
    else Result(CloseSockets(c, order).(closed := true), Passed)
  }

  // ----- what closing does -----

  /** How many of the first k sockets are open. */
  function OpenCount(socks: seq<Sock>, k: nat): nat
    requires k <= |socks|
  {
    if k == 0 then 0 else OpenCount(socks, k - 1) + if socks[k - 1].closed then 0 else 1
  }

  /** A socket after its close: its callback ran if it had one, once, and is gone. */
  function AfterClose(s: Sock): Sock {
    Sock(true, None, if s.hook.Some? then s.runs + 1 else s.runs)
  }

  /** From c to r some open sockets, none of them in `busy`, were closed, each with its callback run once if it had
      one; nothing else changed, and the count went down by their number. */
  ghost predicate Closes(c: Ctx, r: Ctx, busy: set<nat>) {
    && |r.socks| == |c.socks| && r == c.(socks := r.socks, count := r.count)
    && (forall t: nat :: t < |c.socks| && r.socks[t] != c.socks[t] ==>
          t !in busy && !c.socks[t].closed && r.socks[t] == AfterClose(c.socks[t]))
    && c.count - r.count == OpenCount(c.socks, |c.socks|) - OpenCount(r.socks, |r.socks|)
  }

  lemma {:induction false} ClosesThen(a: Ctx, b: Ctx, c: Ctx, busy: set<nat>)
    requires Closes(a, b, busy) && Closes(b, c, busy)
    ensures Closes(a, c, busy)
  {
  }

  lemma {:induction false} OpenCountUpdate(socks: seq<Sock>, k: nat, s: nat, x: Sock)
    requires k <= |socks| && s < |socks|
    ensures OpenCount(socks[s := x], k) == OpenCount(socks, k)
      + (if s < k && socks[s].closed && !x.closed then 1 else if s < k && !socks[s].closed && x.closed then -1 else 0)
  {
    if k > 0 { OpenCountUpdate(socks, k - 1, s, x); }
  }

  lemma {:induction false} RanOpen(m: Ctx, s: nat)
    requires s < |m.socks|
    ensures OpenCount(Ran(m, s).socks, |m.socks|) == OpenCount(m.socks, |m.socks|)
  {
    OpenCountUpdate(m.socks, |m.socks|, s, Ran(m, s).socks[s]);
  }

  lemma {:induction false} EndedOpen(b: Ctx, s: nat)
    requires s < |b.socks| && !b.socks[s].closed
    ensures OpenCount(Ended(b, s).socks, |b.socks|) == OpenCount(b.socks, |b.socks|) - 1
  {
    OpenCountUpdate(b.socks, |b.socks|, s, Ended(b, s).socks[s]);
  }

  lemma {:induction false} EndingCloses(c: Ctx, s: nat, m: Ctx, b: Ctx, busy: set<nat>)
    requires s < |c.socks| && s !in busy && !c.socks[s].closed && Closes(c, m, busy + {s})
    requires b == if c.socks[s].hook.Some? then Ran(m, s) else m
    ensures Closes(c, Ended(b, s), busy) && Ended(b, s).socks[s].closed
  {
    assert m.socks[s] == c.socks[s];
    RanOpen(m, s);
    EndedOpen(b, s);
  }

  /** Whatever the callbacks close in turn, and theirs. */
  lemma {:induction false} CloseCloses(c: Ctx, s: nat, busy: set<nat>)
    ensures Closes(c, Close(c, s, busy), busy)
    ensures s < |c.socks| && s !in busy ==> Close(c, s, busy).socks[s].closed
    decreases Ids(|c.socks|) - busy, 0
  {
    if s < |c.socks| && !c.socks[s].closed && s !in busy {
      var m := c;
      if c.socks[s].hook.Some? {
        m := CloseAll(c, c.socks[s].hook.value, 0, busy + {s});
        CloseAllCloses(c, c.socks[s].hook.value, 0, busy + {s});
      }
      EndingCloses(c, s, m, BeforeClose(c, s, busy), busy);
    }
  }

  lemma {:induction false} CloseAllCloses(c: Ctx, list: seq<nat>, k: nat, busy: set<nat>)
    requires k <= |list|
    ensures Closes(c, CloseAll(c, list, k, busy), busy)
    ensures forall j :: k <= j < |list| && list[j] < |c.socks| && list[j] !in busy ==>
              CloseAll(c, list, k, busy).socks[list[j]].closed
    decreases Ids(|c.socks|) - busy, |list| - k + 1
  {
    if k < |list| {
      var next := Close(c, list[k], busy);
      CloseCloses(c, list[k], busy);
      CloseAllCloses(next, list, k + 1, busy);
      ClosesThen(c, next, CloseAll(next, list, k + 1, busy), busy);
    }
  }

  // ----- which sockets a close closes -----

  /** With an open socket the set holds all that its callback closes. */
  ghost predicate ClosedUnder(c: Ctx, set0: set<nat>) {
    forall t: nat, u: nat :: t in set0 && HookNames(c, t, u) ==> u in set0
  }

  /** Socket t is open, and its callback closes socket u. */
  predicate HookNames(c: Ctx, t: nat, u: nat) {
    t < |c.socks| && !c.socks[t].closed && c.socks[t].hook.Some? && u in c.socks[t].hook.value && u < |c.socks|
  }

  predicate Shut(c: Ctx, r: Ctx, t: nat) {
    t < |c.socks| && t < |r.socks| && !c.socks[t].closed && r.socks[t].closed
  }

  /** With every socket that was closed from c to r, all that its callback closes is closed, or on the way to be. */
  ghost predicate Follows(c: Ctx, r: Ctx, busy: set<nat>) {
    forall t: nat, u: nat :: Shut(c, r, t) && HookNames(c, t, u) ==> IsClosed(r, u) || u in busy
  }

  predicate IsClosed(c: Ctx, t: nat) {
    t < |c.socks| && c.socks[t].closed
  }

  lemma {:induction false} FollowsThen(a: Ctx, b: Ctx, c: Ctx, busy: set<nat>)
    requires Closes(a, b, busy) && Closes(b, c, busy) && Follows(a, b, busy) && Follows(b, c, busy)
    ensures Follows(a, c, busy)
  {
    forall t: nat, u: nat | Shut(a, c, t) && HookNames(a, t, u)
      ensures IsClosed(c, u) || u in busy
    {
      if !b.socks[t].closed { assert Shut(b, c, t) && HookNames(b, t, u); }
    }
  }

  lemma {:induction false} CloseFollows(c: Ctx, s: nat, busy: set<nat>)
    ensures Follows(c, Close(c, s, busy), busy)
    decreases Ids(|c.socks|) - busy, 0
  {
    CloseCloses(c, s, busy);
    if s < |c.socks| && !c.socks[s].closed && s !in busy && c.socks[s].hook.Some? {
      var list, r := c.socks[s].hook.value, Close(c, s, busy);
      var m := CloseAll(c, list, 0, busy + {s});
      CloseAllCloses(c, list, 0, busy + {s});
      CloseAllFollows(c, list, 0, busy + {s});
      forall t: nat, u: nat | Shut(c, r, t) && HookNames(c, t, u)
        ensures IsClosed(r, u) || u in busy
      {
        if t != s { assert Shut(c, m, t); }
      }
    }
  }

  lemma {:induction false} CloseAllFollows(c: Ctx, list: seq<nat>, k: nat, busy: set<nat>)
    requires k <= |list|
    ensures Follows(c, CloseAll(c, list, k, busy), busy)
    decreases Ids(|c.socks|) - busy, |list| - k + 1
  {
    if k < |list| {
      var next := Close(c, list[k], busy);
      CloseCloses(c, list[k], busy);
      CloseFollows(c, list[k], busy);
      CloseAllCloses(next, list, k + 1, busy);
      CloseAllFollows(next, list, k + 1, busy);
      FollowsThen(c, next, CloseAll(next, list, k + 1, busy), busy);
    }
  }

  ghost predicate Within(c: Ctx, r: Ctx, set0: set<nat>) {
    forall t: nat :: Shut(c, r, t) ==> t in set0
  }

  lemma {:induction false} StillClosedUnder(c: Ctx, r: Ctx, busy: set<nat>, set0: set<nat>)
    requires Closes(c, r, busy) && ClosedUnder(c, set0)
    ensures ClosedUnder(r, set0)
  {
    forall t: nat, u: nat | t in set0 && HookNames(r, t, u)
      ensures u in set0
    {
      assert HookNames(c, t, u);
    }
  }

  lemma {:induction false} CloseWithin(c: Ctx, s: nat, busy: set<nat>, set0: set<nat>)
    requires ClosedUnder(c, set0) && s in set0
    ensures Within(c, Close(c, s, busy), set0)
    decreases Ids(|c.socks|) - busy, 0
  {
    if s < |c.socks| && !c.socks[s].closed && s !in busy && c.socks[s].hook.Some? {
      var list := c.socks[s].hook.value;
      forall k | 0 <= k < |list| && list[k] < |c.socks|
        ensures list[k] in set0
      {
        assert HookNames(c, s, list[k]);
      }
      CloseAllCloses(c, list, 0, busy + {s});
      CloseAllWithin(c, list, 0, busy + {s}, set0);
      var m := CloseAll(c, list, 0, busy + {s});
      forall t: nat | Shut(c, Close(c, s, busy), t)
        ensures t in set0
      {
        if t != s { assert Shut(c, m, t); }
      }
    }
  }

  lemma {:induction false} CloseAllWithin(c: Ctx, list: seq<nat>, k: nat, busy: set<nat>, set0: set<nat>)
    requires k <= |list| && ClosedUnder(c, set0)
    requires forall j :: 0 <= j < |list| && list[j] < |c.socks| ==> list[j] in set0
    ensures Within(c, CloseAll(c, list, k, busy), set0)
    decreases Ids(|c.socks|) - busy, |list| - k + 1
  {
    if k < |list| {
      var next := Close(c, list[k], busy);
      CloseCloses(c, list[k], busy);
      if list[k] < |c.socks| { CloseWithin(c, list[k], busy, set0); }
      StillClosedUnder(c, next, busy, set0);
      CloseAllWithin(next, list, k + 1, busy, set0);
      forall t: nat | Shut(c, CloseAll(c, list, k, busy), t)
        ensures t in set0
      {
        if !next.socks[t].closed { assert Shut(next, CloseAll(next, list, k + 1, busy), t); }
      }
    }
  }

  /** A close closes exactly what it has to: the least set of sockets that holds the one to be closed and, with every
      open socket, those that its callback closes. */
  lemma {:induction false} CloseIsExact(c: Ctx, s: nat)
    requires s < |c.socks| && !c.socks[s].closed
    ensures var r := Close(c, s, {});
      && Shut(c, r, s)
      && (forall t: nat, u: nat :: Shut(c, r, t) && HookNames(c, t, u) ==> IsClosed(r, u))
      && (forall set0: set<nat> :: ClosedUnder(c, set0) && s in set0 ==> Within(c, r, set0))
  {
    CloseCloses(c, s, {});
    CloseFollows(c, s, {});
    forall set0: set<nat> | ClosedUnder(c, set0) && s in set0
      ensures Within(c, Close(c, s, {}), set0)
    {
      CloseWithin(c, s, {}, set0);
    }
  }

  // ----- runs -----

  datatype Step =
    | MakeSocket(made: bool, settings: seq<Setting>)
    | CloseSocket(s: nat)
    | SetHook(s: nat, hook: Option<seq<nat>>)
    | ShutdownContext(ok: bool, order: seq<nat>)
    | DestroyContext(ok: bool, order: seq<nat>)

  /** A step whose traversal is none of the table does nothing: there is no such step. */
  function Do(c: Ctx, step: Step): Ctx {
    match step
    case MakeSocket(made, settings) => Create(c, made, settings).ctx
    case CloseSocket(s) => Close(c, s, {})
    case SetHook(s, hook) => OnClose(c, s, hook).ctx
    case ShutdownContext(ok, order) => if Traverses(c, order) then Shutdown(c, ok, order).ctx else c
    case DestroyContext(ok, order) => if Traverses(c, order) then Destroy(c, ok, order).ctx else c
  }

  function Run(c: Ctx, steps: seq<Step>, k: nat): Ctx
    requires k <= |steps|
    decreases |steps| - k
  {
    if k == |steps| then c else Run(Do(c, steps[k]), steps, k + 1)
  }

  function Fresh(owned: bool): Ctx {
    Ctx([], 0, false, false, None, owned)
  }

  /** Between calls: the count is that of the open sockets, all of which are in the autoclose table; a callback has
      run at most once, and only on a socket that is closed, which has none any more. */
  ghost predicate Accounted(c: Ctx) {
    && c.count == OpenCount(c.socks, |c.socks|)
    && (forall t :: 0 <= t < |c.socks| ==> SockAccounted(c, t))
    && (c.closed ==> c.table.None?)
  }

  ghost predicate SockAccounted(c: Ctx, t: nat)
    requires t < |c.socks|
  {
    if c.socks[t].closed then c.socks[t].hook.None? && c.socks[t].runs <= 1
    else c.socks[t].runs == 0 && c.table.Some? && t in c.table.value
  }

  lemma {:induction false} ClosingAccounts(c: Ctx, r: Ctx)
    requires Accounted(c) && Closes(c, r, {})
    ensures Accounted(r)
  {
    forall t | 0 <= t < |r.socks|
      ensures SockAccounted(r, t)
    {
      assert SockAccounted(c, t);
    }
  }

  /** Every open socket is closed, its callback run if it has one, and nothing else changes. */
  lemma {:induction false} ClosingSockets(c: Ctx, order: seq<nat>)
    requires Accounted(c) && Traverses(c, order)
    ensures var r := CloseSockets(c, order);
      && Accounted(r) && r.table.None? && r.count == 0 && |r.socks| == |c.socks|
      && r == c.(socks := r.socks, count := 0, table := None)
      && forall t :: 0 <= t < |c.socks| ==>
           r.socks[t] == if c.socks[t].closed then c.socks[t] else AfterClose(c.socks[t])
  {
    var r := CloseSockets(c, order);
    forall t | 0 <= t < |c.socks|
      ensures !c.socks[t].closed ==> c.table.Some? && t in order
    {
      assert SockAccounted(c, t);
    }
    if c.table.Some? {
      CloseAllCloses(c, order, 0, {});
      ClosingAccounts(c, CloseAll(c, order, 0, {}));
    }
    forall t | 0 <= t < |c.socks|
      ensures r.socks[t].closed && SockAccounted(r, t)
    {
      assert SockAccounted(c, t);
    }
    AllClosed(r.socks, |r.socks|);
  }

  lemma {:induction false} AllClosed(socks: seq<Sock>, k: nat)
    requires k <= |socks| && forall t :: 0 <= t < k ==> socks[t].closed
    ensures OpenCount(socks, k) == 0
  {
    if k > 0 { AllClosed(socks, k - 1); }
  }

  lemma {:induction false} CreatedCount(socks: seq<Sock>, k: nat, x: Sock)
    requires k <= |socks|
    ensures OpenCount(socks + [x], k) == OpenCount(socks, k)
  {
    if k > 0 { CreatedCount(socks, k - 1, x); }
  }

  /** A constructor that fails on an option, bind or connect leaves the context as it was, up to a socket that is
      closed: the count is restored. */
  lemma {:induction false} FailedCreateRestores(c: Ctx, made: bool, settings: seq<Setting>)
    requires Create(c, made, settings).reply != Passed
    ensures var r := Create(c, made, settings).ctx;
      r == c || r == c.(socks := c.socks + [Sock(true, None, 0)])
  {
    var s := |c.socks|;
    assert Created(c).socks[s] == Sock(false, None, 0);
    assert Close(Created(c), s, {}) == Ended(Created(c), s);
    assert Created(c).socks[s := Sock(true, None, 0)] == c.socks + [Sock(true, None, 0)];
  }

  /** When a constructor succeeds, and what it leaves. */
  lemma {:induction false} CreatesIff(c: Ctx, made: bool, settings: seq<Setting>)
    ensures var r, n := Create(c, made, settings), |c.socks|;
      && (r.reply == Passed <==> !c.closed && !c.down && made && Refused !in settings)
      && (r.reply == Raised <==> c.closed || c.down)
      && (r.reply == Passed ==>
            && r.ctx.socks == c.socks + [Sock(false, None, 0)] && r.ctx.count == c.count + 1
            && r.ctx.table.Some? && n in r.ctx.table.value
            && (forall t: nat :: t != n ==> (t in r.ctx.table.value <==> c.table.Some? && t in c.table.value)))
      && (r.reply != Passed ==> r.ctx.count == c.count && r.ctx.table == c.table)
      && (r.reply == Failed && made ==> r.ctx.socks == c.socks + [Sock(true, None, 0)])
      && (r.reply == Raised || !made ==> r.ctx == c)
      && r.ctx.closed == c.closed && r.ctx.down == c.down && r.ctx.owned == c.owned
  {
    var s := |c.socks|;
    assert Created(c).socks[s] == Sock(false, None, 0);
    assert Close(Created(c), s, {}) == Ended(Created(c), s);
    assert Created(c).socks[s := Sock(true, None, 0)] == c.socks + [Sock(true, None, 0)];
  }

  /** A new context makes sockets. */
  lemma {:induction false} FreshMakesSockets(owned: bool, settings: seq<Setting>)
    ensures var r := Create(Fresh(owned), true, settings);
      && (r.reply == Passed <==> Refused !in settings) && r.reply != Raised
      && (r.reply == Passed ==> r.ctx == Ctx([Sock(false, None, 0)], 1, false, false, Some({0}), owned))
  {
    var r := Create(Fresh(owned), true, settings);
    CreatesIff(Fresh(owned), true, settings);
    if r.reply == Passed {
      assert [] + [Sock(false, None, 0)] == [Sock(false, None, 0)];
      assert r.ctx.table.value == {0};
    }
  }

  /** The callback of an open socket is then the one given, and nothing else changes; a closed one raises an error. */
  lemma {:induction false} HookIsSet(c: Ctx, s: nat, hook: Option<seq<nat>>)
    ensures var r := OnClose(c, s, hook);
      && (r.reply == Passed <==> s < |c.socks| && !c.socks[s].closed) && (r.reply != Passed ==> r == Result(c, Raised))
      && (r.reply == Passed ==>
            && |r.ctx.socks| == |c.socks| && r.ctx.socks[s] == Sock(false, hook, c.socks[s].runs)
            && (forall t :: 0 <= t < |c.socks| && t != s ==> r.ctx.socks[t] == c.socks[t])
            && r.ctx == c.(socks := r.ctx.socks))
  {
  }

  lemma {:induction false} CreateAccounts(c: Ctx, made: bool, settings: seq<Setting>)
    requires Accounted(c)
    ensures Accounted(Create(c, made, settings).ctx)
  {
    var r := Create(c, made, settings).ctx;
    if Create(c, made, settings).reply != Passed { FailedCreateRestores(c, made, settings); }
    if r != c {
      CreatedCount(c.socks, |c.socks|, r.socks[|c.socks|]);
      forall t | 0 <= t < |r.socks|
        ensures SockAccounted(r, t)
      {
        if t < |c.socks| { assert SockAccounted(c, t); }
      }
    }
  }

  lemma {:induction false} OnCloseAccounts(c: Ctx, s: nat, hook: Option<seq<nat>>)
    requires Accounted(c)
    ensures Accounted(OnClose(c, s, hook).ctx)
  {
    var r := OnClose(c, s, hook).ctx;
    if s < |c.socks| && !c.socks[s].closed {
      OpenCountUpdate(c.socks, |c.socks|, s, r.socks[s]);
      forall t | 0 <= t < |r.socks|
        ensures SockAccounted(r, t)
      {
        assert SockAccounted(c, t);
      }
    }
  }

  lemma {:induction false} StepAccounts(c: Ctx, step: Step)
    requires Accounted(c)
    ensures Accounted(Do(c, step))
  {
    match step
    case MakeSocket(made, settings) => CreateAccounts(c, made, settings);
    case CloseSocket(s) =>
      CloseCloses(c, s, {});
      ClosingAccounts(c, Close(c, s, {}));
    case SetHook(s, hook) => OnCloseAccounts(c, s, hook);
    case ShutdownContext(ok, order) =>
      if Traverses(c, order) && !c.closed && !c.down {
        ClosingSockets(c, order);
        SameSockets(CloseSockets(c, order), Shutdown(c, ok, order).ctx);
      }
    case DestroyContext(ok, order) =>
      if Traverses(c, order) && !c.closed {
        ClosingSockets(c, order);
        SameSockets(CloseSockets(c, order), Destroy(c, ok, order).ctx);
      }
  }

  lemma {:induction false} SameSockets(c: Ctx, r: Ctx)
    requires Accounted(c) && r == c.(closed := r.closed, down := r.down) && (r.closed ==> c.table.None?)
    ensures Accounted(r)
  {
    forall t | 0 <= t < |r.socks|
      ensures SockAccounted(r, t)
    {
      assert SockAccounted(c, t);
    }
  }

  lemma {:induction false} RunAccounts(c: Ctx, steps: seq<Step>, k: nat)
    requires k <= |steps| && Accounted(c)
    ensures Accounted(Run(c, steps, k))
    decreases |steps| - k
  {
    if k < |steps| {
      StepAccounts(c, steps[k]);
      RunAccounts(Do(c, steps[k]), steps, k + 1);
    }
  }

  /** Over every run of a new context the count is the number of open sockets, so never negative, and no callback runs
      twice. */
  lemma {:induction false} EveryRunAccounts(owned: bool, steps: seq<Step>)
    ensures var c := Run(Fresh(owned), steps, 0); Accounted(c) && c.count >= 0
  {
    assert Accounted(Fresh(owned));
    RunAccounts(Fresh(owned), steps, 0);
  }

  /** A closed socket stays as it is: its callback does not run again. */
  lemma {:induction false} StepKeepsClosed(c: Ctx, step: Step, t: nat)
    requires Accounted(c) && t < |c.socks| && c.socks[t].closed
    ensures t < |Do(c, step).socks| && Do(c, step).socks[t] == c.socks[t]
  {
    match step
    case MakeSocket(made, settings) =>
      if Create(c, made, settings).reply != Passed { FailedCreateRestores(c, made, settings); }
    case CloseSocket(s) => CloseCloses(c, s, {});
    case SetHook(s, hook) =>
    case ShutdownContext(ok, order) =>
      if Traverses(c, order) && !c.closed && !c.down { ClosingSockets(c, order); }
    case DestroyContext(ok, order) =>
      if Traverses(c, order) && !c.closed { ClosingSockets(c, order); }
  }

  lemma {:induction false} ClosedForGood(c: Ctx, steps: seq<Step>, k: nat, t: nat)
    requires k <= |steps| && Accounted(c) && t < |c.socks| && c.socks[t].closed
    ensures t < |Run(c, steps, k).socks| && Run(c, steps, k).socks[t] == c.socks[t]
    decreases |steps| - k
  {
    if k < |steps| {
      StepAccounts(c, steps[k]);
      StepKeepsClosed(c, steps[k], t);
      ClosedForGood(Do(c, steps[k]), steps, k + 1, t);
    }
  }

  /** A destroy that succeeds leaves every socket closed and the count 0, with the callback of each socket that was
      open run exactly once, in whatever order the table is traversed; a second one changes nothing.  One that fails
      has closed the sockets all the same, and may be tried again. */
  lemma {:induction false} DestroyClosesEverything(c: Ctx, ok: bool, order: seq<nat>)
    requires Accounted(c) && !c.closed && Traverses(c, order)
    ensures var d := Destroy(c, ok, order);
      && (d.reply == Passed <==> !c.owned || ok) && d.reply != Raised
      && d.ctx == Ctx(d.ctx.socks, 0, d.reply.Passed?, c.down, None, c.owned) && |d.ctx.socks| == |c.socks|
      && (forall t :: 0 <= t < |c.socks| ==>
            d.ctx.socks[t] == if c.socks[t].closed then c.socks[t] else AfterClose(c.socks[t]))
      && (d.reply.Passed? ==> forall again, next :: Destroy(d.ctx, again, next) == d)
      && (d.reply.Failed? ==> forall next :: Destroy(d.ctx, true, next) == Result(d.ctx.(closed := true), Passed))
  {
    ClosingSockets(c, order);
  }

  /** A shutdown closes every socket too, with each callback run once; when it succeeds the context makes no sockets any
      more and a second one raises an error, and when it fails it may be tried again.  A destroy can follow either. */
  lemma {:induction false} ShutdownClosesEverything(c: Ctx, ok: bool, order: seq<nat>)
    requires Accounted(c) && !c.closed && !c.down && Traverses(c, order)
    ensures var d := Shutdown(c, ok, order);
      && (d.reply == Passed <==> !c.owned || ok) && d.reply != Raised
      && d.ctx == Ctx(d.ctx.socks, 0, false, d.reply.Passed?, None, c.owned) && |d.ctx.socks| == |c.socks|
      && (forall t :: 0 <= t < |c.socks| ==>
            d.ctx.socks[t] == if c.socks[t].closed then c.socks[t] else AfterClose(c.socks[t]))
      && (d.reply.Passed? ==> forall again, next :: Shutdown(d.ctx, again, next) == Result(d.ctx, Raised))
      && (d.reply.Passed? ==> forall made, settings :: Create(d.ctx, made, settings) == Result(d.ctx, Raised))
      && (d.reply.Failed? ==> forall next :: Shutdown(d.ctx, true, next) == Result(d.ctx.(down := true), Passed))
      && (forall next :: Destroy(d.ctx, true, next) == Result(d.ctx.(closed := true), Passed))
  {
    ClosingSockets(c, order);
  }
}
