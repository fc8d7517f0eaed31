/** A poll of src/lua/lzmq/ffi.lua that goes on with an array the poller has replaced: the slots it walks are no longer
    written, and the key of each ready one is looked up among the registrations of the moment. */
module FfiReallocated {
  import opened PollerModel
  import opened PollerDispatch
  import opened FfiModel
  import opened PollerSimulation

  predicate Registered(es: seq<Entry>, key: Key) {
    Find(es, key) >= 0
  }

  /** Nobody registers or removes the key of a ready slot below position `end`. */
  ghost predicate KeepsKeys(was: seq<Entry>, now: seq<Entry>, slots: seq<Entry>, end: nat) {
    forall q :: 0 <= q < end && q < |slots| && slots[q].revents != 0 ==>
      (Registered(now, slots[q].key) <==> Registered(was, slots[q].key))
  }

  /** regs[k] is what is registered when the poll comes to the k-th ready slot: callback n removes the registration of
      slot p, and otherwise the callbacks do what they like to registrations that are not pending. */
  ghost predicate OnlyRemoves(slots: seq<Entry>, ready: seq<nat>, regs: seq<seq<Entry>>, n: nat, p: nat)
    requires |regs| == |ready| && n < |ready| && p < |slots|
  {
    && (forall q :: 0 <= q <= ready[0] && q < |slots| && slots[q].revents != 0 ==> Registered(regs[0], slots[q].key))
    && (forall k :: 0 <= k < |ready| ==> DistinctKeys(regs[k]))
    && (forall k :: 0 <= k < |ready| - 1 && k != n ==> KeepsKeys(regs[k], regs[k + 1], slots, ready[k]))
    && (n + 1 < |ready| ==>
          KeepsKeys(FfiApply(regs[n], Op.Remove(slots[p].key)), regs[n + 1], slots, ready[n]))
  }

  /** Every ready key is registered when its turn comes, and so is called; one that is not is only counted. */
  ghost predicate AllCalled(slots: seq<Entry>, ready: seq<nat>, regs: seq<seq<Entry>>)
    requires |regs| == |ready| && forall k :: 0 <= k < |ready| ==> ready[k] < |slots|
  {
    forall k :: 0 <= k < |ready| ==> Registered(regs[k], slots[ready[k]].key)
  }

  lemma {:induction false} RemovesOne(es: seq<Entry>, key: Key, other: Key)
    requires DistinctKeys(es)
    ensures Registered(FfiApply(es, Op.Remove(key)), other) <==> Registered(es, other) && other != key
  {
    if Registered(es, key) {
      FfiApplyLookup(es, Op.Remove(key), other);
      LookupFinds(FfiApply(es, Op.Remove(key)), other);
      LookupFinds(es, other);
    }
  }

  /** What is registered of the pending slots at the k-th ready one. */
  lemma {:induction false} PendingRegistered(slots: seq<Entry>, top: int, regs: seq<seq<Entry>>, n: nat, p: nat, k: nat,
                                             q: nat)
    requires -1 <= top < |slots| && DistinctKeys(slots) && |regs| == |ReadyDown(slots, top)| && p < |slots|
    requires n < |regs| && OnlyRemoves(slots, ReadyDown(slots, top), regs, n, p)
    requires k < |regs| && q <= ReadyDown(slots, top)[k] && slots[q].revents != 0
    ensures Registered(regs[k], slots[q].key) <==> k <= n || q != p
    decreases k
  {
    var ready := ReadyDown(slots, top);
    ReadyDownIsExact(slots, top);
    if k > 0 {
      assert ready[k - 1] > ready[k];
      PendingRegistered(slots, top, regs, n, p, k - 1, q);
      if k - 1 == n {
        RemovesOne(regs[n], slots[p].key, slots[q].key);
      } else {
        assert KeepsKeys(regs[k - 1], regs[k], slots, ready[k - 1]);
      }
    }
  }

  /** The same removals do harm as in the array the poll began with, those of an entry that is below the current one and
      ready.  But here the removed entry is just not called, and no other one in its place. */
  lemma {:induction false} ReallocatedRemovalIsSafeIff(slots: seq<Entry>, top: int, regs: seq<seq<Entry>>, n: nat,
                                                       p: nat)
    requires -1 <= top < |slots| && DistinctKeys(slots) && |regs| == |ReadyDown(slots, top)| && p < |slots|
    requires n < |regs| && OnlyRemoves(slots, ReadyDown(slots, top), regs, n, p)
    ensures var ready := ReadyDown(slots, top);
      && (AllCalled(slots, ready, regs) <==> p >= ready[n] || slots[p].revents == 0)
      && forall k :: 0 <= k < |ready| && ready[k] != p ==> Registered(regs[k], slots[ready[k]].key)
  {
    var ready := ReadyDown(slots, top);
    ReadyDownIsExact(slots, top);
    forall k | 0 <= k < |ready|
      ensures Registered(regs[k], slots[ready[k]].key) <==> k <= n || ready[k] != p
    {
      PendingRegistered(slots, top, regs, n, p, k, ready[k]);
    }
    if p < ready[n] && slots[p].revents != 0 {
      assert p in ready;
      var k :| 0 <= k < |ready| && ready[k] == p;
      assert k > n;
    }
  }
}
