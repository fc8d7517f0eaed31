/** The poller of src/lua/lzmq/ffi.lua on values: the same registrations, but a removal moves the last entry
    into the hole, and leaves the revents of the hole where they are. */
module FfiModel {
  import opened PollerModel
  import opened PollerDispatch

  /** Poller:remove: the last entry takes place i; its revents are not copied. */
  function SwapOut(es: seq<Entry>, i: nat): (r: seq<Entry>)
    requires i < |es|
    ensures |r| == |es| - 1
  {
    var last := |es| - 1;
    if i == last then es[..last] else es[..last][i := es[last].(revents := es[i].revents)]
  }

  function FfiApply(es: seq<Entry>, op: Op): seq<Entry> {
    var i := Find(es, op.key);
    if Removes(op) then (if i < 0 then es else SwapOut(es, i))
    else if op.Add? then Append(es, op.key, op.events, op.cb)
    else if i < 0 then Append(es, op.key, op.events, op.change.value)
    else es[i := es[i].(events := ToShort(op.events), cb := op.change.value)]
  }

  /** The FFI poller needs distinct keys: adding a registered one would overwrite its map entry. */
  predicate FfiLegal(es: seq<Entry>, op: Op) {
    op.Add? ==> Find(es, op.key) < 0
  }

  /** The rule of dispatch: what is removed is not pending. */
  predicate FfiAllowed(es: seq<Entry>, cursor: int, op: Op) {
    FfiLegal(es, op) && (Removes(op) ==> Find(es, op.key) < 0 || Find(es, op.key) > cursor)
  }

  function FfiObey(es: seq<Entry>, cursor: int, ops: seq<Op>): seq<Entry>
    decreases |ops|
  {
    if ops == [] then es
    else FfiObey(if FfiAllowed(es, cursor, ops[0]) then FfiApply(es, ops[0]) else es, cursor, ops[1..])
  }

  lemma {:induction false} SwapOutDistinct(es: seq<Entry>, i: nat)
    requires DistinctKeys(es) && i < |es|
    ensures DistinctKeys(SwapOut(es, i))
    ensures forall k :: 0 <= k < |es| - 1 && k != i ==> SwapOut(es, i)[k] == es[k]
  {
  }

  lemma {:induction false} FfiApplyDistinct(es: seq<Entry>, op: Op)
    requires DistinctKeys(es) && FfiLegal(es, op)
    ensures DistinctKeys(FfiApply(es, op))
  {
    if Removes(op) && Find(es, op.key) >= 0 { SwapOutDistinct(es, Find(es, op.key)); }
  }

  lemma {:induction false} FfiApplyKeepsBelow(es: seq<Entry>, top: int, op: Op)
    requires -1 <= top < |es| && FfiAllowed(es, top, op)
    ensures SameBelow(es, FfiApply(es, op), top)
  {
  }

  lemma {:induction false} FfiObeyKeepsBelow(es: seq<Entry>, top: int, ops: seq<Op>)
    requires -1 <= top < |es| && DistinctKeys(es)
    ensures SameBelow(es, FfiObey(es, top, ops), top) && DistinctKeys(FfiObey(es, top, ops))
    decreases |ops|
  {
    if ops != [] {
      if FfiAllowed(es, top, ops[0]) {
        FfiApplyKeepsBelow(es, top, ops[0]);
        FfiApplyDistinct(es, ops[0]);
        FfiObeyKeepsBelow(FfiApply(es, ops[0]), top, ops[1..]);
      } else {
        FfiObeyKeepsBelow(es, top, ops[1..]);
      }
    }
  }

  /** A run of the dispatch loop of Poller:poll; between two callbacks the loop goes down to the next ready
      entry, as the cursor of the C poller does. */
  ghost predicate FfiObeys(r: Run, scripts: seq<seq<Op>>)
    requires r.Valid()
  {
    forall j :: 0 <= j < |r.served| ==>
      r.states[j + 1] == FfiObey(r.states[j], r.cursors[j + 1], ScriptAt(scripts, j))
  }

  lemma {:induction false} FfiKeepsDistinct(r: Run, scripts: seq<seq<Op>>, j: nat)
    requires r.Valid() && FfiObeys(r, scripts) && DistinctKeys(r.Es()) && j <= |r.served|
    ensures DistinctKeys(r.states[j])
    decreases j
  {
    if j > 0 {
      FfiKeepsDistinct(r, scripts, j - 1);
      assert r.ServesAt(j - 1);
      FfiObeyKeepsBelow(r.states[j - 1], r.cursors[j], ScriptAt(scripts, j - 1));
    }
  }

  /** Swapping is as safe as shifting: what is pending stays in place. */
  lemma {:induction false} FfiObeyingSparesPending(r: Run, scripts: seq<seq<Op>>)
    requires r.Valid() && FfiObeys(r, scripts) && DistinctKeys(r.Es())
    ensures r.SparesPending()
  {
    forall j | 0 <= j < |r.served|
      ensures SameBelow(r.states[j], r.states[j + 1], r.cursors[j + 1])
    {
      FfiKeepsDistinct(r, scripts, j);
      assert r.ServesAt(j);
      FfiObeyKeepsBelow(r.states[j], r.cursors[j + 1], ScriptAt(scripts, j));
    }
  }

  // ----- what stays as it was registered -----

  /** An entry that is pending and that the callback does not modify stays as it is. */
  lemma {:induction false} FfiObeyKeepsUnmodified(es: seq<Entry>, top: int, ops: seq<Op>, at: nat)
    requires DistinctKeys(es) && at <= top < |es|
    requires forall op :: op in ops && Updates(op) ==> op.key != es[at].key
    ensures at < |FfiObey(es, top, ops)| && FfiObey(es, top, ops)[at] == es[at]
    decreases |ops|
  {
    if ops != [] {
      if FfiAllowed(es, top, ops[0]) {
        FfiApplyKeepsBelow(es, top, ops[0]);
        FfiApplyDistinct(es, ops[0]);
        FfiApplyKeepsEntry(es, top, ops[0], at);
        FfiObeyKeepsUnmodified(FfiApply(es, ops[0]), top, ops[1..], at);
      } else {
        FfiObeyKeepsUnmodified(es, top, ops[1..], at);
      }
    }
  }

  lemma {:induction false} FfiApplyKeepsEntry(es: seq<Entry>, top: int, op: Op, at: nat)
    requires at <= top < |es| && FfiAllowed(es, top, op) && (Updates(op) ==> op.key != es[at].key)
    ensures at < |FfiApply(es, op)| && FfiApply(es, op)[at] == es[at]
  {
  }

  /** An entry that no earlier callback modified is served with the callback it had when the poll began. */
  lemma {:induction false} FfiServedAsRegistered(r: Run, scripts: seq<seq<Op>>, j: nat, at: nat)
    requires r.Valid() && FfiObeys(r, scripts) && DistinctKeys(r.Es()) && j <= |r.served| && at <= r.cursors[j]
    requires at < |r.Es()| && Unmodified(r.Es()[at].key, scripts, j)
    ensures r.states[j][at] == r.Es()[at]
    ensures j < |r.served| && r.served[j].at == at ==> r.served[j].cb == r.Es()[at].cb
    decreases j
  {
    if j < |r.served| { assert r.ServesAt(j); }
    if j > 0 {
      assert r.ServesAt(j - 1);
      FfiServedAsRegistered(r, scripts, j - 1, at);
      FfiKeepsDistinct(r, scripts, j - 1);
      FfiObeyKeepsUnmodified(r.states[j - 1], r.cursors[j], ScriptAt(scripts, j - 1), at);
    }
  }

  // ----- what happens when a callback removes a pending entry -----

  /** Exactly when a callback may remove an entry, as long as the array is the one the poll began with: when
      callback n removes position p, the ready entries are served, each once and with its own revents, if and only
      if p is not below the current entry or is not ready.  Otherwise the last entry, which has taken its place but
      not its revents, is served instead of it.  For an array that was replaced see FfiReallocated. */
  lemma {:induction false} FfiRemovalIsSafeIff(r: Run, n: nat, p: nat)
    requires r.Valid() && |r.served| == |r.Ready()| && n < |r.served|
    requires p < |r.states[n]| && DistinctKeys(r.states[n]) && OnlyStep(r, n, SwapOut(r.states[n], p))
    ensures ServesReady(r.Es(), r.Ready(), r.served) <==> p >= r.served[n].at || r.states[n][p].revents == 0
  {
    assert r.ServesAt(n);
    if p >= r.served[n].at || r.states[n][p].revents == 0 {
      assert SamePending(r.states[n], SwapOut(r.states[n], p), r.cursors[n + 1]);
      assert r.SparesPending();
      DispatchServesReady(r);
    } else {
      var k := ServedInstead(r, n, p);
      assert r.served[k].key != r.Es()[r.Ready()[k]].key;
    }
  }

  lemma {:induction false} ServedInstead(r: Run, n: nat, p: nat) returns (k: nat)
    requires r.Valid() && |r.served| == |r.Ready()| && n < |r.served|
    requires p < r.served[n].at < |r.states[n]| && r.states[n][p].revents != 0
    requires DistinctKeys(r.states[n]) && OnlyStep(r, n, SwapOut(r.states[n], p))
    ensures n < k < |r.served| && r.Ready()[k] == p
    ensures r.served[k].key == r.states[n][|r.states[n]| - 1].key && r.served[k].key != r.Es()[p].key
  {
    var swapped := SwapOut(r.states[n], p);
    PendingAfter(r, n);
    ServesPosition(r, n);
    assert r.ServesAt(n);
    assert SameRevents(r.states[n], swapped, r.cursors[n + 1]);
    assert r.KeepsRevents(|r.served|);
    ReadyDownIsExact(r.Es(), r.cursors[0]);
    assert p in r.Ready();
    k :| 0 <= k < |r.Ready()| && r.Ready()[k] == p;
    assert k > n;
    ServesPosition(r, k);
    assert r.ServesAt(k);
    StaysPending(r, n, k);
    assert swapped[p].key == r.states[n][|swapped|].key;
  }

  /** What is pending after callback n stays so. */
  lemma {:induction false} StaysPending(r: Run, n: nat, k: nat)
    requires r.Valid() && n < k <= |r.served|
    requires forall j :: n < j < |r.served| ==> SamePending(r.states[j], r.states[j + 1], r.cursors[j + 1])
    ensures r.cursors[k] <= r.cursors[n + 1] && SamePending(r.states[n + 1], r.states[k], r.cursors[k])
    decreases k
  {
    if k > n + 1 {
      StaysPending(r, n, k - 1);
      assert r.ServesAt(k - 1);
    }
  }
}
