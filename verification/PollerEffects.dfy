/** What a poll leaves registered: its callbacks may add, modify and remove, and what they may do takes effect. */
module PollerEffects {
  import opened Options
  import opened PollerModel
  import opened PollerDispatch
  import opened FfiModel
  import opened PollerSimulation

  /** The registration of a key after these operations. */
  function Changed(was: Option<Registration>, ops: seq<Op>, key: Key): Option<Registration>
    decreases |ops|
  {
    if ops == [] then was else Changed(Change(was, ops[0], key), ops[1..], key)
  }

  lemma {:induction false} ChangedJoin(was: Option<Registration>, a: seq<Op>, b: seq<Op>, key: Key)
    ensures Changed(was, a + b, key) == Changed(Changed(was, a, key), b, key)
    decreases |a|
  {
    if a == [] {
      assert a + b == b;
    } else {
      assert (a + b)[1..] == a[1..] + b;
      ChangedJoin(Change(was, a[0], key), a[1..], b, key);
    }
  }

  // ----- the C stack -----

  /** The rules, in full: what a callback may do while entries up to the cursor are pending. */
  lemma {:induction false} AllowedIff(es: seq<Entry>, cursor: int, op: Op)
    requires -1 <= cursor
    ensures Allowed(es, cursor, op) <==>
      && op.key != Fd(0)
      && match op
         case Add(_, events, _) => ToShort(events) != -1
         case Modify(key, events, change) =>
           if events == 0 || change.None? then Find(es, key) > cursor
           else key.Sock? && ToShort(events) != 0 && ToShort(events) != -1
         case Remove(key) => Find(es, key) > cursor
  {
  }

  /** What is registered anew comes last and is not ready; all others stay as they are. */
  lemma {:induction false} NewIsNotReady(es: seq<Entry>, op: Op)
    requires op.Add? || (Updates(op) && Find(es, op.key) < 0)
    ensures var r := Apply(es, op);
      && |r| == |es| + 1 && r[..|es|] == es && r[|es|].key == op.key && r[|es|].revents == 0 && FfiApply(es, op) == r
  {
  }

  /** The actions of a script that are allowed when their turn comes. */
  function Granted(es: seq<Entry>, cursor: int, ops: seq<Op>): seq<Op>
    decreases |ops|
  {
    if ops == [] then []
    else if Allowed(es, cursor, ops[0]) then [ops[0]] + Granted(Apply(es, ops[0]), cursor, ops[1..])
    else Granted(es, cursor, ops[1..])
  }

  predicate AllAllowed(es: seq<Entry>, cursor: int, ops: seq<Op>)
    decreases |ops|
  {
    ops == [] || (Allowed(es, cursor, ops[0]) && AllAllowed(Apply(es, ops[0]), cursor, ops[1..]))
  }

  lemma {:induction false} AllGranted(es: seq<Entry>, cursor: int, ops: seq<Op>)
    requires AllAllowed(es, cursor, ops)
    ensures Granted(es, cursor, ops) == ops
    decreases |ops|
  {
    if ops != [] {
      AllGranted(Apply(es, ops[0]), cursor, ops[1..]);
      assert ops == [ops[0]] + ops[1..];
    }
  }

  /** A callback does these, all of them and in their order. */
  lemma {:induction false} ObeyApplies(es: seq<Entry>, cursor: int, ops: seq<Op>)
    ensures Obey(es, cursor, ops) == ApplyAll(es, Granted(es, cursor, ops))
    ensures AllAllowed(es, cursor, ops) ==> Obey(es, cursor, ops) == ApplyAll(es, ops)
    decreases |ops|
  {
    if ops != [] {
      if Allowed(es, cursor, ops[0]) {
        var later := Granted(Apply(es, ops[0]), cursor, ops[1..]);
        ObeyApplies(Apply(es, ops[0]), cursor, ops[1..]);
        assert ([ops[0]] + later)[1..] == later;
      } else {
        ObeyApplies(es, cursor, ops[1..]);
      }
    }
    if AllAllowed(es, cursor, ops) { AllGranted(es, cursor, ops); }
  }

  lemma {:induction false} ApplyAllJoin(es: seq<Entry>, a: seq<Op>, b: seq<Op>)
    ensures ApplyAll(es, a + b) == ApplyAll(ApplyAll(es, a), b)
    decreases |a|
  {
    if a == [] {
      assert a + b == b;
    } else {
      assert (a + b)[1..] == a[1..] + b;
      ApplyAllJoin(Apply(es, a[0]), a[1..], b);
    }
  }

  lemma {:induction false} ApplyAllLookup(es: seq<Entry>, ops: seq<Op>, key: Key)
    requires DistinctKeys(es) && History(es, ops)
    ensures Lookup(ApplyAll(es, ops), key) == Changed(Lookup(es, key), ops, key)
    decreases |ops|
  {
    if ops != [] {
      ApplyLookup(es, ops[0], key);
      ApplyAllLookup(Apply(es, ops[0]), ops[1..], key);
    }
  }

  lemma {:induction false} CallbackApplies(es: seq<Entry>, before: seq<Op>, was: seq<Entry>, cursor: int,
                                           script: seq<Op>)
    requires was == ApplyAll(es, before)
    ensures ApplyAll(es, before + Granted(was, cursor, script)) == Obey(was, cursor, script)
  {
    ObeyApplies(was, cursor, script);
    ApplyAllJoin(es, before, Granted(was, cursor, script));
  }

  /** What the first n callbacks of a run were allowed to do, in order. */
  ghost function GrantedBefore(r: Run, scripts: seq<seq<Op>>, n: nat): seq<Op>
    requires r.Valid() && n <= |r.served|
  {
    if n == 0 then []
    else GrantedBefore(r, scripts, n - 1) + Granted(r.states[n - 1], r.cursors[n], ScriptAt(scripts, n - 1))
  }

  lemma {:induction false} RunApplies(r: Run, scripts: seq<seq<Op>>, n: nat)
    requires r.Valid() && Obeys(r, scripts) && n <= |r.served|
    ensures r.states[n] == ApplyAll(r.Es(), GrantedBefore(r, scripts, n))
  {
    if n > 0 {
      var was, cursor, script := r.states[n - 1], r.cursors[n], ScriptAt(scripts, n - 1);
      RunApplies(r, scripts, n - 1);
      CallbackApplies(r.Es(), GrantedBefore(r, scripts, n - 1), was, cursor, script);
      assert r.states[n] == Obey(was, cursor, script);
    }
  }

  /** A poll leaves what was registered when it began, changed by what its callbacks were allowed to do, in order; key
      by key, when no key was added twice. */
  lemma {:induction false} PollLeaves(r: Run, scripts: seq<seq<Op>>, key: Key)
    requires r.Valid() && Obeys(r, scripts)
    ensures var done := AllDone(r, scripts);
      && Last(r) == ApplyAll(r.Es(), done)
      && (DistinctKeys(r.Es()) && History(r.Es(), done) ==>
            Lookup(Last(r), key) == Changed(Lookup(r.Es(), key), done, key))
  {
    var done := AllDone(r, scripts);
    RunApplies(r, scripts, |r.served|);
    if DistinctKeys(r.Es()) && History(r.Es(), done) { ApplyAllLookup(r.Es(), done, key); }
  }

  /** All that the callbacks of a poll were allowed to do, when `r` is its run. */
  ghost function AllDone(r: Run, scripts: seq<seq<Op>>): seq<Op> {
    if r.Valid() then GrantedBefore(r, scripts, |r.served|) else []
  }

  // ----- the FFI poller -----

  lemma {:induction false} FfiAllowedIff(es: seq<Entry>, cursor: int, op: Op)
    requires -1 <= cursor
    ensures FfiAllowed(es, cursor, op) <==>
      match op
      case Add(key, _, _) => Find(es, key) < 0
      case Modify(key, events, change) =>
        events == 0 || change.None? ==> !(0 <= Find(es, key) <= cursor)
      case Remove(key) => !(0 <= Find(es, key) <= cursor)
  {
  }

  function FfiGranted(es: seq<Entry>, cursor: int, ops: seq<Op>): seq<Op>
    decreases |ops|
  {
    if ops == [] then []
    else if FfiAllowed(es, cursor, ops[0]) then [ops[0]] + FfiGranted(FfiApply(es, ops[0]), cursor, ops[1..])
    else FfiGranted(es, cursor, ops[1..])
  }

  predicate FfiAllAllowed(es: seq<Entry>, cursor: int, ops: seq<Op>)
    decreases |ops|
  {
    ops == [] || (FfiAllowed(es, cursor, ops[0]) && FfiAllAllowed(FfiApply(es, ops[0]), cursor, ops[1..]))
  }

  lemma {:induction false} FfiAllGranted(es: seq<Entry>, cursor: int, ops: seq<Op>)
    requires FfiAllAllowed(es, cursor, ops)
    ensures FfiGranted(es, cursor, ops) == ops
    decreases |ops|
  {
    if ops != [] {
      FfiAllGranted(FfiApply(es, ops[0]), cursor, ops[1..]);
      assert ops == [ops[0]] + ops[1..];
    }
  }

  lemma {:induction false} FfiChanges(es: seq<Entry>, op: Op, key: Key)
    requires DistinctKeys(es) && FfiLegal(es, op)
    ensures DistinctKeys(FfiApply(es, op)) && Lookup(FfiApply(es, op), key) == Change(Lookup(es, key), op, key)
  {
    if Removes(op) && Find(es, op.key) < 0 {
      LookupFinds(es, op.key);
    } else {
      FfiApplyLookup(es, op, key);
    }
  }

  /** The same for a callback of the FFI poller. */
  lemma {:induction false} FfiObeyApplies(es: seq<Entry>, cursor: int, ops: seq<Op>, key: Key)
    requires DistinctKeys(es)
    ensures DistinctKeys(FfiObey(es, cursor, ops))
    ensures Lookup(FfiObey(es, cursor, ops), key) == Changed(Lookup(es, key), FfiGranted(es, cursor, ops), key)
    ensures FfiAllAllowed(es, cursor, ops) ==> FfiObey(es, cursor, ops) == FfiApplyAll(es, ops)
    decreases |ops|
  {
    if ops != [] {
      if FfiAllowed(es, cursor, ops[0]) {
        var later := FfiGranted(FfiApply(es, ops[0]), cursor, ops[1..]);
        FfiChanges(es, ops[0], key);
        FfiObeyApplies(FfiApply(es, ops[0]), cursor, ops[1..], key);
        assert ([ops[0]] + later)[1..] == later;
      } else {
        FfiObeyApplies(es, cursor, ops[1..], key);
      }
    }
  }

  lemma {:induction false} FfiCallbackChanges(first: Option<Registration>, before: seq<Op>, was: seq<Entry>,
                                              cursor: int, script: seq<Op>, key: Key)
    requires DistinctKeys(was) && Lookup(was, key) == Changed(first, before, key)
    ensures Lookup(FfiObey(was, cursor, script), key) == Changed(first, before + FfiGranted(was, cursor, script), key)
  {
    FfiObeyApplies(was, cursor, script, key);
    ChangedJoin(first, before, FfiGranted(was, cursor, script), key);
  }

  ghost function FfiGrantedBefore(r: Run, scripts: seq<seq<Op>>, n: nat): seq<Op>
    requires r.Valid() && n <= |r.served|
  {
    if n == 0 then []
    else FfiGrantedBefore(r, scripts, n - 1) + FfiGranted(r.states[n - 1], r.cursors[n], ScriptAt(scripts, n - 1))
  }

  lemma {:induction false} FfiRunLeaves(r: Run, scripts: seq<seq<Op>>, n: nat, key: Key)
    requires r.Valid() && FfiObeys(r, scripts) && DistinctKeys(r.Es()) && n <= |r.served|
    ensures Lookup(r.states[n], key) == Changed(Lookup(r.Es(), key), FfiGrantedBefore(r, scripts, n), key)
  {
    if n > 0 {
      var was, cursor, script := r.states[n - 1], r.cursors[n], ScriptAt(scripts, n - 1);
      FfiRunLeaves(r, scripts, n - 1, key);
      FfiKeepsDistinct(r, scripts, n - 1);
      FfiCallbackChanges(Lookup(r.Es(), key), FfiGrantedBefore(r, scripts, n - 1), was, cursor, script, key);
      assert r.states[n] == FfiObey(was, cursor, script);
    }
  }

  ghost function FfiAllDone(r: Run, scripts: seq<seq<Op>>): seq<Op> {
    if r.Valid() then FfiGrantedBefore(r, scripts, |r.served|) else []
  }

  /** And for a poll of it. */
  lemma {:induction false} FfiPollLeaves(r: Run, scripts: seq<seq<Op>>, key: Key)
    requires r.Valid() && FfiObeys(r, scripts) && DistinctKeys(r.Es())
    ensures Lookup(Last(r), key) == Changed(Lookup(r.Es(), key), FfiAllDone(r, scripts), key)
  {
    FfiRunLeaves(r, scripts, |r.served|, key);
  }

  /** Each key has the registration that these operations give it. */
  ghost predicate EachChanged(was: seq<Entry>, now: seq<Entry>, ops: seq<Op>) {
    forall key :: Lookup(now, key) == Changed(Lookup(was, key), ops, key)
  }

  lemma {:induction false} FfiPollChanges(r: Run, scripts: seq<seq<Op>>)
    requires r.Valid() && FfiObeys(r, scripts) && DistinctKeys(r.Es())
    ensures EachChanged(r.Es(), Last(r), FfiAllDone(r, scripts))
  {
    forall key
      ensures Lookup(Last(r), key) == Changed(Lookup(r.Es(), key), FfiAllDone(r, scripts), key)
    {
      FfiPollLeaves(r, scripts, key);
    }
  }
}
