/** Which callbacks the two pollers call: a callback may modify what another one is about to be called for, and the
    two serve in different orders. */
module PollerCallbacks {
  import opened Options
  import opened PollerModel
  import opened PollerDispatch
  import opened FfiModel
  import opened PollerSimulation

  /** A callback called, and which one it was. */
  datatype Invocation = Invocation(key: Key, revents: int, cb: Callback)

  function Invocations(served: seq<Served>): (r: seq<Invocation>)
    ensures |r| == |served|
    ensures forall k {:trigger r[k]} :: 0 <= k < |r| ==> r[k] == Invoked(served[k])
  {
    seq(|served|, k requires 0 <= k < |served| => Invoked(served[k]))
  }

  function Invoked(s: Served): Invocation {
    Invocation(s.key, s.revents, s.cb)
  }

  // ----- the callback of a registration while scripts run -----

  /** Whether the operation gives a registered key a new callback.  The C stack demands more of it. */
  predicate Sets(op: Op, key: Key, ffi: bool) {
    Updates(op) && op.key == key && (ffi || (Acceptable(op) && ToShort(op.events) != 0))
  }

  /** The callback of a registration that had `cb` before these operations. */
  function CbAfter(cb: Callback, ops: seq<Op>, key: Key, ffi: bool): Callback
    decreases |ops|
  {
    if ops == [] then cb
    else CbAfter(if Sets(ops[0], key, ffi) then ops[0].change.value else cb, ops[1..], key, ffi)
  }

  /** And before the first j scripts. */
  function CbAt(cb: Callback, scripts: seq<seq<Op>>, j: nat, key: Key, ffi: bool): Callback {
    if j == 0 then cb else CbAfter(CbAt(cb, scripts, j - 1, key, ffi), ScriptAt(scripts, j - 1), key, ffi)
  }

  lemma {:induction false} ApplyCb(es: seq<Entry>, top: int, op: Op, at: nat)
    requires at <= top < |es| && Allowed(es, top, op) && forall k :: 0 <= k < at ==> es[k].key != es[at].key
    ensures at < |Apply(es, op)|
    ensures Apply(es, op)[at].cb == if Sets(op, es[at].key, false) then op.change.value else es[at].cb
  {
    ApplyKeepsBelow(es, top, op);
    if Updates(op) && op.key == es[at].key { assert Find(es, op.key) == at; }
  }

  lemma {:induction false} ObeyCb(es: seq<Entry>, top: int, ops: seq<Op>, at: nat)
    requires at <= top < |es| && forall k :: 0 <= k < at ==> es[k].key != es[at].key
    ensures at < |Obey(es, top, ops)|
    ensures Obey(es, top, ops)[at].cb == CbAfter(es[at].cb, ops, es[at].key, false)
    decreases |ops|
  {
    if ops != [] {
      if Allowed(es, top, ops[0]) {
        ApplyCb(es, top, ops[0], at);
        ApplyKeepsBelow(es, top, ops[0]);
        ObeyCb(Apply(es, ops[0]), top, ops[1..], at);
      } else {
        ObeyCb(es, top, ops[1..], at);
      }
    }
  }

  lemma {:induction false} FfiApplyCb(es: seq<Entry>, top: int, op: Op, at: nat)
    requires DistinctKeys(es) && at <= top < |es| && FfiAllowed(es, top, op)
    ensures at < |FfiApply(es, op)|
    ensures FfiApply(es, op)[at].cb == if Sets(op, es[at].key, true) then op.change.value else es[at].cb
  {
  }

  lemma {:induction false} FfiObeyCb(es: seq<Entry>, top: int, ops: seq<Op>, at: nat)
    requires DistinctKeys(es) && at <= top < |es|
    ensures at < |FfiObey(es, top, ops)|
    ensures FfiObey(es, top, ops)[at].cb == CbAfter(es[at].cb, ops, es[at].key, true)
    decreases |ops|
  {
    if ops != [] {
      if FfiAllowed(es, top, ops[0]) {
        FfiApplyCb(es, top, ops[0], at);
        FfiApplyKeepsBelow(es, top, ops[0]);
        FfiApplyDistinct(es, ops[0]);
        FfiObeyCb(FfiApply(es, ops[0]), top, ops[1..], at);
      } else {
        FfiObeyCb(es, top, ops[1..], at);
      }
    }
  }

  /** A run of one poller or of the other. */
  ghost predicate Keeps(r: Run, scripts: seq<seq<Op>>, ffi: bool)
    requires r.Valid()
  {
    DistinctKeys(r.Es()) && if ffi then FfiObeys(r, scripts) else Obeys(r, scripts)
  }

  /** What the cursor has not passed keeps its key, and has the callback the scripts so far gave it. */
  lemma {:induction false} CallbackAfter(r: Run, scripts: seq<seq<Op>>, ffi: bool, j: nat, at: nat)
    requires r.Valid() && Keeps(r, scripts, ffi) && j <= |r.served| && at <= r.cursors[j]
    ensures at < |r.Es()| && SameBelow(r.Es(), r.states[j], at)
    ensures r.states[j][at].cb == CbAt(r.Es()[at].cb, scripts, j, r.Es()[at].key, ffi)
    decreases j
  {
    if j > 0 {
      assert r.ServesAt(j - 1);
      CallbackAfter(r, scripts, ffi, j - 1, at);
      var was, top, script := r.states[j - 1], r.cursors[j], ScriptAt(scripts, j - 1);
      assert forall k :: 0 <= k < at ==> was[k].key != was[at].key;
      if ffi {
        FfiKeepsDistinct(r, scripts, j - 1);
        FfiObeyKeepsBelow(was, top, script);
        FfiObeyCb(was, top, script, at);
      } else {
        ObeyKeepsBelow(was, top, script);
        ObeyCb(was, top, script, at);
      }
    }
  }

  // ----- exactly when they are the same -----

  /** The callback that is to be called for the k-th ready entry, when the callbacks before it run their scripts. */
  ghost function ToCall(r: Run, scripts: seq<seq<Op>>, ffi: bool, k: nat): Callback
    requires r.Valid() && k < |r.Ready()|
  {
    var e := r.Es()[r.Ready()[k]];
    CbAt(e.cb, scripts, k, e.key, ffi)
  }

  lemma {:induction false} ServedInPlace(r: Run, k: nat)
    requires r.Valid() && r.SparesPending() && k < |r.served| && |r.served| == |r.Ready()|
    ensures k < |r.Ready()| && r.served[k].at == r.Ready()[k] <= r.cursors[k] && r.served[k].at < |r.Es()|
    ensures r.Es()[r.served[k].at].revents != 0
    ensures r.served[k].key == r.Es()[r.served[k].at].key && r.served[k].revents == r.Es()[r.served[k].at].revents
  {
    assert r.SparesUpTo(k);
    ServesPending(r, k);
    PendingAfter(r, k);
    PositionsAfter(r, k);
    assert r.ServesAt(k);
    ReadyDownIsExact(r.Es(), r.cursors[0]);
  }

  /** And it is the one called. */
  lemma {:induction false} CallsThat(r: Run, scripts: seq<seq<Op>>, ffi: bool, k: nat)
    requires r.Valid() && Keeps(r, scripts, ffi) && k < |r.served| && |r.served| == |r.Ready()|
    ensures Invoked(r.served[k]) ==
      Invocation(r.Es()[r.Ready()[k]].key, r.Es()[r.Ready()[k]].revents, ToCall(r, scripts, ffi, k))
  {
    if ffi { FfiObeyingSparesPending(r, scripts); } else { ObeyingSparesPending(r, scripts); }
    ServedInPlace(r, k);
    CallbackAfter(r, scripts, ffi, k, r.served[k].at);
    assert r.ServesAt(k);
  }

  /** Wherever the two serve the same key, they call the same callback. */
  ghost predicate Agree(a: seq<Served>, b: seq<Served>) {
    forall j, k :: 0 <= j < |a| && 0 <= k < |b| && a[j].key == b[k].key ==> a[j].cb == b[k].cb
  }

  lemma {:induction false} NoInvocationTwice(es: seq<Entry>, served: seq<Served>)
    requires DistinctKeys(es) && ServesReady(es, ReadyDown(es, |es| - 1), served)
    ensures forall j, k :: 0 <= j < k < |served| ==> Invocations(served)[j] != Invocations(served)[k]
  {
    NoCallTwice(es, served);
    forall j, k | 0 <= j < k < |served|
      ensures Invocations(served)[j] != Invocations(served)[k]
    {
      assert Calls(served)[j] != Calls(served)[k];
    }
  }

  lemma {:induction false} SameKeyOnce(es: seq<Entry>, served: seq<Served>, j: nat, k: nat)
    requires DistinctKeys(es) && ServesReady(es, ReadyDown(es, |es| - 1), served)
    requires j < |served| && k < |served| && served[j].key == served[k].key
    ensures j == k
  {
    ReadyDownIsExact(es, |es| - 1);
  }

  lemma {:induction false} SameInvocationsIff(cs: seq<Entry>, fs: seq<Entry>, ready: Key -> int, c: seq<Served>,
                                              f: seq<Served>)
    requires Same(cs, fs) && Answers(cs, ready) && Answers(fs, ready)
    requires ServesReady(cs, ReadyDown(cs, |cs| - 1), c) && ServesReady(fs, ReadyDown(fs, |fs| - 1), f)
    ensures multiset(Invocations(c)) == multiset(Invocations(f)) <==> Agree(c, f)
  {
    if Agree(c, f) {
      DispatchSimulates(cs, fs, ready, c, f);
      InvokedToo(c, f);
      InvokedToo(f, c);
      NoInvocationTwice(cs, c);
      NoInvocationTwice(fs, f);
      SameElements(Invocations(c), Invocations(f));
    }
    if multiset(Invocations(c)) == multiset(Invocations(f)) {
      forall j, k | 0 <= j < |c| && 0 <= k < |f| && c[j].key == f[k].key
        ensures c[j].cb == f[k].cb
      {
        var at := Occurrence(Invocations(c), Invocations(f), j);
        SameKeyOnce(fs, f, at, k);
      }
    }
  }

  lemma {:induction false} Occurrence<T>(a: seq<T>, b: seq<T>, j: nat) returns (k: nat)
    requires multiset(a) == multiset(b) && j < |a|
    ensures k < |b| && b[k] == a[j]
  {
    assert a[j] in multiset(b);
    k :| 0 <= k < |b| && b[k] == a[j];
  }

  lemma {:induction false} InvokedToo(a: seq<Served>, b: seq<Served>)
    requires Agree(a, b) && multiset(Calls(a)) == multiset(Calls(b))
    ensures forall x :: x in Invocations(a) ==> x in Invocations(b)
  {
    forall x | x in Invocations(a)
      ensures x in Invocations(b)
    {
      var j :| 0 <= j < |a| && Invocations(a)[j] == x;
      var k := Occurrence(Calls(a), Calls(b), j);
      assert Calls(b)[k] == Calls(a)[j];
      assert Invocations(b)[k] == x;
    }
  }

  /** With the same registrations and the same readiness, one poll of each calls the same multiset of callbacks, keys
      and revents if and only if, for each key that is ready, the scripts that run before its turn leave it registered
      with the same callback on both sides.  That depends on registrations, readiness and scripts alone. */
  lemma {:induction false} InvocationsAgreeIff(c: Run, f: Run, ready: Key -> int, cScripts: seq<seq<Op>>,
                                               fScripts: seq<seq<Op>>)
    requires c.Valid() && Obeys(c, cScripts) && c.cursors[0] == |c.Es()| - 1 && |c.served| == |c.Ready()|
    requires f.Valid() && FfiObeys(f, fScripts) && f.cursors[0] == |f.Es()| - 1 && |f.served| == |f.Ready()|
    requires Same(c.Es(), f.Es()) && Answers(c.Es(), ready) && Answers(f.Es(), ready)
    ensures multiset(Invocations(c.served)) == multiset(Invocations(f.served)) <==>
      forall j, k :: 0 <= j < |c.Ready()| && 0 <= k < |f.Ready()|
                     && c.Es()[c.Ready()[j]].key == f.Es()[f.Ready()[k]].key ==>
        ToCall(c, cScripts, false, j) == ToCall(f, fScripts, true, k)
  {
    ObeyingSparesPending(c, cScripts);
    FfiObeyingSparesPending(f, fScripts);
    DispatchServesReady(c);
    DispatchServesReady(f);
    SameInvocationsIff(c.Es(), f.Es(), ready, c.served, f.served);
    forall j, k | 0 <= j < |c.Ready()| && 0 <= k < |f.Ready()|
      ensures Invoked(c.served[j]).cb == ToCall(c, cScripts, false, j)
      ensures Invoked(f.served[k]).cb == ToCall(f, fScripts, true, k)
    {
      CallsThat(c, cScripts, false, j);
      CallsThat(f, fScripts, true, k);
    }
  }

  // ----- nothing pending is modified -----

  /** No callback of the run modifies a registration that is still pending when it runs. */
  ghost predicate ModifiesNonePending(r: Run, scripts: seq<seq<Op>>)
    requires r.Valid()
  {
    forall j, at :: 0 <= j < |r.served| && 0 <= at <= r.cursors[j + 1] && at < |r.Es()| && r.Es()[at].revents != 0 ==>
      SparesKey(ScriptAt(scripts, j), r.Es()[at].key)
  }

  predicate SparesKey(ops: seq<Op>, key: Key) {
    forall op :: op in ops && Updates(op) ==> op.key != key
  }

  /** While an earlier callback runs, a later one is pending. */
  lemma {:induction false} PendingBefore(r: Run, j: nat, k: nat)
    requires r.Valid() && r.SparesPending() && j < k < |r.served| && |r.served| == |r.Ready()|
    ensures r.served[k].at <= r.cursors[j + 1]
  {
    assert r.SparesUpTo(j) && r.SparesUpTo(k);
    ServesPending(r, j);
    ServesPending(r, k);
    assert r.ServesAt(j);
    ReadyDownIsExact(r.Es(), r.cursors[0]);
    assert r.Ready()[j] > r.Ready()[k];
  }

  lemma {:induction false} NotModifiedBefore(r: Run, scripts: seq<seq<Op>>, k: nat)
    requires r.Valid() && r.SparesPending() && k < |r.served| && |r.served| == |r.Ready()|
    requires ModifiesNonePending(r, scripts)
    ensures r.served[k].at < |r.Es()| && Unmodified(r.Es()[r.served[k].at].key, scripts, k)
  {
    ServedInPlace(r, k);
    var at := r.served[k].at;
    forall j, op | 0 <= j < k && op in ScriptAt(scripts, j) && Updates(op)
      ensures op.key != r.Es()[at].key
    {
      PendingBefore(r, j, k);
      assert SparesKey(ScriptAt(scripts, j), r.Es()[at].key);
    }
  }

  lemma {:induction false} CbAfterNone(cb: Callback, ops: seq<Op>, key: Key, ffi: bool)
    requires forall op :: op in ops && Updates(op) ==> op.key != key
    ensures CbAfter(cb, ops, key, ffi) == cb
    decreases |ops|
  {
    if ops != [] { CbAfterNone(cb, ops[1..], key, ffi); }
  }

  lemma {:induction false} CbAtUnmodified(cb: Callback, scripts: seq<seq<Op>>, j: nat, key: Key, ffi: bool)
    requires Unmodified(key, scripts, j)
    ensures CbAt(cb, scripts, j, key, ffi) == cb
  {
    if j > 0 {
      CbAtUnmodified(cb, scripts, j - 1, key, ffi);
      CbAfterNone(cb, ScriptAt(scripts, j - 1), key, ffi);
    }
  }

  lemma {:induction false} CallsRegistered(r: Run, scripts: seq<seq<Op>>, ffi: bool, k: nat)
    requires r.Valid() && Keeps(r, scripts, ffi) && k < |r.served| && |r.served| == |r.Ready()|
    requires ModifiesNonePending(r, scripts)
    ensures ToCall(r, scripts, ffi, k) == r.Es()[r.Ready()[k]].cb
  {
    if ffi { FfiObeyingSparesPending(r, scripts); } else { ObeyingSparesPending(r, scripts); }
    NotModifiedBefore(r, scripts, k);
    ServedInPlace(r, k);
    var e := r.Es()[r.Ready()[k]];
    CbAtUnmodified(e.cb, scripts, k, e.key, ffi);
  }

  /** In particular they are the same when no callback modifies what is pending. */
  lemma {:induction false} InvocationsSimulate(c: Run, f: Run, ready: Key -> int, cScripts: seq<seq<Op>>,
                                               fScripts: seq<seq<Op>>)
    requires c.Valid() && Obeys(c, cScripts) && c.cursors[0] == |c.Es()| - 1 && |c.served| == |c.Ready()|
    requires f.Valid() && FfiObeys(f, fScripts) && f.cursors[0] == |f.Es()| - 1 && |f.served| == |f.Ready()|
    requires Same(c.Es(), f.Es()) && Answers(c.Es(), ready) && Answers(f.Es(), ready)
    requires ModifiesNonePending(c, cScripts) && ModifiesNonePending(f, fScripts)
    ensures multiset(Invocations(c.served)) == multiset(Invocations(f.served))
  {
    InvocationsAgreeIff(c, f, ready, cScripts, fScripts);
    forall j, k | 0 <= j < |c.Ready()| && 0 <= k < |f.Ready()|
                  && c.Es()[c.Ready()[j]].key == f.Es()[f.Ready()[k]].key
      ensures ToCall(c, cScripts, false, j) == ToCall(f, fScripts, true, k)
    {
      CallsRegistered(c, cScripts, false, j);
      CallsRegistered(f, fScripts, true, k);
      LookupAt(c.Es(), c.Ready()[j]);
      LookupAt(f.Es(), f.Ready()[k]);
    }
  }

  /** Without that condition they need not be: both keys are ready, the callback of one gives the other a new callback,
      and the two pollers hold them in different order. */
  lemma {:induction false} ModifyingPendingDiffers()
    returns (c: Run, f: Run, cScripts: seq<seq<Op>>, fScripts: seq<seq<Op>>)
    ensures c.Valid() && Obeys(c, cScripts) && c.cursors[0] == |c.Es()| - 1 && |c.served| == |c.Ready()|
    ensures f.Valid() && FfiObeys(f, fScripts) && f.cursors[0] == |f.Es()| - 1 && |f.served| == |f.Ready()|
    ensures Same(c.Es(), f.Es()) && Answers(c.Es(), _ => 1) && Answers(f.Es(), _ => 1)
    ensures multiset(Invocations(c.served)) != multiset(Invocations(f.served))
  {
    var a, b := Entry(Sock(1), 1, 1, Callback(1)), Entry(Sock(2), 1, 1, Callback(1));
    var m := [Op.Modify(Sock(2), 1, Some(Callback(2)))];
    var changed := b.(cb := Callback(2));
    Obeyed([a, b], m, [a, changed]);
    FfiObeyed([b, a], m, [changed, a]);
    c := TwoSteps([a, b], [a, b], [a, changed]);
    f := TwoSteps([b, a], [changed, a], [changed, a]);
    cScripts, fScripts := [[], m], [m, []];
    SwappedPair(a, b);
    OneInvokesIt(c.served, f.served, Invocation(Sock(2), 1, Callback(2)));
  }

  lemma {:induction false} OneInvokesIt(c: seq<Served>, f: seq<Served>, x: Invocation)
    requires |c| == |f| == 2 && Invoked(c[0]) != x && Invoked(c[1]) != x && Invoked(f[1]) == x
    ensures multiset(Invocations(c)) != multiset(Invocations(f))
  {
    assert x == Invocations(f)[1];
    assert x in multiset(Invocations(f)) && x !in multiset(Invocations(c));
  }

  /** A run that serves both of two ready entries. */
  lemma {:induction false} TwoSteps(s0: seq<Entry>, s1: seq<Entry>, s2: seq<Entry>) returns (r: Run)
    requires |s0| == |s1| == |s2| == 2 && s0[0].revents != 0 && s0[1].revents != 0 && s1[0].revents != 0
    ensures r == Run([s0, s1, s2], [1, 0, -1], [Serve(s0, 1), Serve(s1, 0)]) && r.Valid() && |r.Ready()| == 2
  {
    r := Run([s0, s1, s2], [1, 0, -1], [Serve(s0, 1), Serve(s1, 0)]);
    TwoReady(s0);
    assert NextReady(s1, 0) == 0;
    assert r.ServesAt(0) && r.ServesAt(1);
  }

  lemma {:induction false} TwoReady(es: seq<Entry>)
    requires |es| == 2 && es[0].revents != 0 && es[1].revents != 0
    ensures ReadyDown(es, 1) == [1, 0] && NextReady(es, 1) == 1 && NextReady(es, 0) == 0
  {
    assert ReadyDown(es, -1) == [];
    assert ReadyDown(es, 0) == [0];
  }

  lemma {:induction false} Obeyed(es: seq<Entry>, m: seq<Op>, after: seq<Entry>)
    requires |es| == 2 && es[1] == Entry(Sock(2), 1, 1, Callback(1)) && es[0].key == Sock(1)
    requires m == [Op.Modify(Sock(2), 1, Some(Callback(2)))] && after == [es[0], es[1].(cb := Callback(2))]
    ensures Obey(es, -1, m) == after && Obey(es, 0, []) == es
  {
    assert Find(es, Sock(2)) == 1;
    assert Apply(es, m[0]) == after;
    assert Obey(after, -1, m[1..]) == after;
  }

  lemma {:induction false} FfiObeyed(es: seq<Entry>, m: seq<Op>, after: seq<Entry>)
    requires |es| == 2 && es[0] == Entry(Sock(2), 1, 1, Callback(1)) && es[1].key == Sock(1)
    requires m == [Op.Modify(Sock(2), 1, Some(Callback(2)))] && after == [es[0].(cb := Callback(2)), es[1]]
    ensures FfiObey(es, 0, m) == after && FfiObey(after, -1, []) == after
  {
    assert Find(es, Sock(2)) == 0;
    assert FfiApply(es, m[0]) == after;
    assert FfiObey(after, 0, m[1..]) == after;
  }

  lemma {:induction false} SwappedPair(a: Entry, b: Entry)
    requires a.key != b.key
    ensures Same([a, b], [b, a])
  {
    forall key
      ensures Lookup([a, b], key) == Lookup([b, a], key)
    {
      if key == a.key {
        LookupAt([a, b], 0);
        LookupAt([b, a], 1);
      } else if key == b.key {
        LookupAt([a, b], 1);
        LookupAt([b, a], 0);
      } else {
        LookupAbsent([a, b], key);
        LookupAbsent([b, a], key);
      }
    }
  }
}
