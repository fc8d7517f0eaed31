/** The C stack and the FFI poller hold the same registrations and call back for the same keys, although one keeps the
    order by shifting and the other swaps with the last. */
module PollerSimulation {
  import opened Options
  import opened PollerModel
  import opened PollerDispatch
  import opened FfiModel

  /** What is registered for a key: its events and its callback. */
  datatype Registration = Registration(events: int, cb: Callback)

  function Lookup(es: seq<Entry>, key: Key): Option<Registration> {
    var i := Find(es, key);
    if i < 0 then None else Some(Registration(es[i].events, es[i].cb))
  }

  /** Both hold the same map from keys to events and callbacks, and the same number of items. */
  ghost predicate Same(cs: seq<Entry>, fs: seq<Entry>) {
    && |cs| == |fs| && DistinctKeys(cs) && DistinctKeys(fs)
    && forall key :: Lookup(cs, key) == Lookup(fs, key)
  }

  /** A history both pollers are made for: legal for the C stack, and without adding a key twice. */
  predicate History(cs: seq<Entry>, ops: seq<Op>)
    decreases |ops|
  {
    ops == [] || (Legal(cs, ops[0]) && FfiLegal(cs, ops[0]) && History(Apply(cs, ops[0]), ops[1..]))
  }

  function FfiApplyAll(fs: seq<Entry>, ops: seq<Op>): seq<Entry>
    decreases |ops|
  {
    if ops == [] then fs else FfiApplyAll(FfiApply(fs, ops[0]), ops[1..])
  }

  /** What one operation does to the registration of a key, whatever the representation. */
  function Change(was: Option<Registration>, op: Op, key: Key): Option<Registration> {
    if key != op.key then was
    else
      match op
      case Add(_, events, cb) => Some(Registration(ToShort(events), cb))
      case Modify(_, events, change) =>
        if events == 0 || change.None? then None else Some(Registration(ToShort(events), change.value))
      case Remove(_) => None
  }

  lemma {:induction false} LookupAt(es: seq<Entry>, i: nat)
    requires DistinctKeys(es) && i < |es|
    ensures Find(es, es[i].key) == i && Lookup(es, es[i].key) == Some(Registration(es[i].events, es[i].cb))
  {
  }

  lemma {:induction false} LookupAbsent(es: seq<Entry>, key: Key)
    requires forall j :: 0 <= j < |es| ==> es[j].key != key
    ensures Find(es, key) == -1 && Lookup(es, key) == None
  {
  }

  lemma {:induction false} DropLookup(es: seq<Entry>, i: nat, key: Key)
    requires DistinctKeys(es) && i < |es|
    ensures DistinctKeys(Drop(es, i))
    ensures Lookup(Drop(es, i), key) == if key == es[i].key then None else Lookup(es, key)
  {
    var after := Drop(es, i);
    assert forall k :: 0 <= k < |after| ==> after[k] == es[if k < i then k else k + 1];
    if key == es[i].key || Find(es, key) < 0 {
      LookupAbsent(after, key);
    } else {
      var j := Find(es, key);
      LookupAt(after, if j < i then j else j - 1);
    }
  }

  lemma {:induction false} SwapLookup(es: seq<Entry>, i: nat, key: Key)
    requires DistinctKeys(es) && i < |es|
    ensures Lookup(SwapOut(es, i), key) == if key == es[i].key then None else Lookup(es, key)
  {
    var after, last := SwapOut(es, i), |es| - 1;
    SwapOutDistinct(es, i);
    if key == es[i].key || Find(es, key) < 0 {
      assert forall k :: 0 <= k < |after| ==> after[k].key == es[if k == i then last else k].key;
      LookupAbsent(after, key);
    } else {
      var j := Find(es, key);
      LookupAt(after, if j == last then i else j);
    }
  }

  lemma {:induction false} AppendLookup(es: seq<Entry>, op: Key, events: int, cb: Callback, key: Key)
    requires DistinctKeys(es) && Find(es, op) < 0
    ensures DistinctKeys(Append(es, op, events, cb))
    ensures Lookup(Append(es, op, events, cb), key) ==
      if key == op then Some(Registration(ToShort(events), cb)) else Lookup(es, key)
  {
    var after := Append(es, op, events, cb);
    if key == op {
      LookupAt(after, |es|);
    } else if Find(es, key) >= 0 {
      LookupAt(after, Find(es, key));
    } else {
      LookupAbsent(after, key);
    }
  }

  lemma {:induction false} UpdateLookup(es: seq<Entry>, i: nat, events: int, cb: Callback, key: Key)
    requires DistinctKeys(es) && i < |es|
    ensures var after := es[i := es[i].(events := events, cb := cb)];
      && DistinctKeys(after)
      && Lookup(after, key) == if key == es[i].key then Some(Registration(events, cb)) else Lookup(es, key)
  {
    var after := es[i := es[i].(events := events, cb := cb)];
    assert forall k :: 0 <= k < |es| ==> after[k].key == es[k].key;
    if Find(es, key) >= 0 {
      LookupAt(after, Find(es, key));
    } else {
      LookupAbsent(after, key);
    }
  }

  /** One operation of the C stack, seen through Lookup. */
  lemma {:induction false} ApplyLookup(cs: seq<Entry>, op: Op, key: Key)
    requires DistinctKeys(cs) && Legal(cs, op) && FfiLegal(cs, op)
    ensures DistinctKeys(Apply(cs, op))
    ensures Lookup(Apply(cs, op), key) == Change(Lookup(cs, key), op, key)
  {
    var i := Find(cs, op.key);
    if Removes(op) {
      DropLookup(cs, i, key);
    } else if op.Add? || i < 0 {
      AppendLookup(cs, op.key, op.events, if op.Add? then op.cb else op.change.value, key);
    } else {
      UpdateLookup(cs, i, ToShort(op.events), op.change.value, key);
    }
  }

  /** One operation of the FFI poller, seen through Lookup. */
  lemma {:induction false} FfiApplyLookup(fs: seq<Entry>, op: Op, key: Key)
    requires DistinctKeys(fs) && FfiLegal(fs, op) && (Removes(op) ==> Find(fs, op.key) >= 0)
    ensures DistinctKeys(FfiApply(fs, op))
    ensures Lookup(FfiApply(fs, op), key) == Change(Lookup(fs, key), op, key)
  {
    FfiApplyDistinct(fs, op);
    var i := Find(fs, op.key);
    if Removes(op) {
      SwapLookup(fs, i, key);
    } else if op.Add? || i < 0 {
      AppendLookup(fs, op.key, op.events, if op.Add? then op.cb else op.change.value, key);
    } else {
      UpdateLookup(fs, i, ToShort(op.events), op.change.value, key);
    }
  }

  lemma {:induction false} LookupFinds(es: seq<Entry>, key: Key)
    ensures Lookup(es, key).None? <==> Find(es, key) < 0
  {
  }

  lemma {:induction false} StepCounts(cs: seq<Entry>, fs: seq<Entry>, op: Op)
    requires |cs| == |fs| && Legal(cs, op) && (Find(cs, op.key) < 0 <==> Find(fs, op.key) < 0)
    ensures |Apply(cs, op)| == |FfiApply(fs, op)|
  {
  }

  lemma {:induction false} StepSimulates(cs: seq<Entry>, fs: seq<Entry>, op: Op)
    requires Same(cs, fs) && Legal(cs, op) && FfiLegal(cs, op)
    ensures FfiLegal(fs, op) && Same(Apply(cs, op), FfiApply(fs, op))
  {
    LookupFinds(cs, op.key);
    LookupFinds(fs, op.key);
    assert Lookup(cs, op.key) == Lookup(fs, op.key);
    forall key
      ensures Lookup(Apply(cs, op), key) == Lookup(FfiApply(fs, op), key)
    {
      assert Lookup(cs, key) == Lookup(fs, key);
      ApplyLookup(cs, op, key);
      FfiApplyLookup(fs, op, key);
    }
    StepCounts(cs, fs, op);
    ApplyLookup(cs, op, op.key);
    FfiApplyLookup(fs, op, op.key);
  }

  /** Over any duplicate-free history of registrations both pollers end with the same map and the same count. */
  lemma {:induction false} HistoriesSimulate(cs: seq<Entry>, fs: seq<Entry>, ops: seq<Op>)
    requires Same(cs, fs) && History(cs, ops)
    ensures Same(ApplyAll(cs, ops), FfiApplyAll(fs, ops))
    decreases |ops|
  {
    if ops != [] {
      StepSimulates(cs, fs, ops[0]);
      HistoriesSimulate(Apply(cs, ops[0]), FfiApply(fs, ops[0]), ops[1..]);
    }
  }

  // ----- the same readiness -----

  /** A callback called: for which key, with which revents. */
  datatype Call = Call(key: Key, revents: int)

  function Calls(served: seq<Served>): (r: seq<Call>)
    ensures |r| == |served|
    ensures forall k {:trigger r[k]} :: 0 <= k < |r| ==> r[k] == Call(served[k].key, served[k].revents)
  {
    seq(|served|, k requires 0 <= k < |served| => Call(served[k].key, served[k].revents))
  }

  /** The oracle of one poll: the revents of a slot are those of its key. */
  ghost predicate Answers(es: seq<Entry>, ready: Key -> int) {
    forall k :: 0 <= k < |es| ==> es[k].revents == ready(es[k].key)
  }

  /** The callbacks called are those of the ready keys, each with the revents of its key. */
  lemma {:induction false} CallsAreTheReadyKeys(es: seq<Entry>, ready: Key -> int, served: seq<Served>, call: Call)
    requires DistinctKeys(es) && Answers(es, ready) && ServesReady(es, ReadyDown(es, |es| - 1), served)
    ensures call in Calls(served) <==> Find(es, call.key) >= 0 && call.revents == ready(call.key) && call.revents != 0
  {
    var down := ReadyDown(es, |es| - 1);
    ReadyDownIsExact(es, |es| - 1);
    if Find(es, call.key) >= 0 && call.revents == ready(call.key) && call.revents != 0 {
      var i := Find(es, call.key);
      assert i in down;
      var k :| 0 <= k < |down| && down[k] == i;
      assert Calls(served)[k] == call;
    }
  }

  lemma {:induction false} NoCallTwice(es: seq<Entry>, served: seq<Served>)
    requires DistinctKeys(es) && ServesReady(es, ReadyDown(es, |es| - 1), served)
    ensures forall j, k :: 0 <= j < k < |served| ==> Calls(served)[j] != Calls(served)[k]
  {
    var down := ReadyDown(es, |es| - 1);
    ReadyDownIsExact(es, |es| - 1);
    forall j, k | 0 <= j < k < |served|
      ensures Calls(served)[j] != Calls(served)[k]
    {
      assert down[j] > down[k];
    }
  }

  lemma {:induction false} SameElements<T>(a: seq<T>, b: seq<T>)
    requires forall j, k :: 0 <= j < k < |a| ==> a[j] != a[k]
    requires forall j, k :: 0 <= j < k < |b| ==> b[j] != b[k]
    requires forall x :: x in a <==> x in b
    ensures multiset(a) == multiset(b)
  {
    forall x
      ensures multiset(a)[x] == multiset(b)[x]
    {
      Occurs(a, x);
      Occurs(b, x);
    }
  }

  lemma {:induction false} Occurs<T>(s: seq<T>, x: T)
    requires forall j, k :: 0 <= j < k < |s| ==> s[j] != s[k]
    ensures multiset(s)[x] == if x in s then 1 else 0
  {
    if s != [] {
      var n := |s| - 1;
      assert s == s[..n] + [s[n]];
      Occurs(s[..n], x);
    }
  }

  /** With the same registrations and the same readiness, one poll of each calls back for the same multiset of keys,
      with the same revents, whatever else the callbacks do within the rules. */
  lemma {:induction false} DispatchSimulates(cs: seq<Entry>, fs: seq<Entry>, ready: Key -> int, cServed: seq<Served>,
                                             fServed: seq<Served>)
    requires Same(cs, fs) && Answers(cs, ready) && Answers(fs, ready)
    requires ServesReady(cs, ReadyDown(cs, |cs| - 1), cServed)
    requires ServesReady(fs, ReadyDown(fs, |fs| - 1), fServed)
    ensures multiset(Calls(cServed)) == multiset(Calls(fServed))
  {
    forall call
      ensures call in Calls(cServed) <==> call in Calls(fServed)
    {
      assert Lookup(cs, call.key) == Lookup(fs, call.key);
      CallsAreTheReadyKeys(cs, ready, cServed, call);
      CallsAreTheReadyKeys(fs, ready, fServed, call);
    }
    NoCallTwice(cs, cServed);
    NoCallTwice(fs, fServed);
    SameElements(Calls(cServed), Calls(fServed));
  }
}
