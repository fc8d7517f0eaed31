/** Poller of src/lua/lzmq/ffi.lua as written: a C array that is reallocated when it is full, a map from
    handles to indices, and a downward loop over the array it started with. */
module FfiPoller {
  import opened Options
  import opened PollerModel
  import opened PollerDispatch
  import opened FfiModel
  import PollerEffects

  datatype FfiItem = FfiItem(socket: Option<nat>, fd: int, events: int, revents: int)

  /** The table {skt, cb, n} kept for a handle. */
  datatype Params = Params(cb: Callback, no: nat)

  type Index = map<Key, Params>

  /** item2id */
  function ItemKey(item: FfiItem): Key {
    if item.socket.Some? then Sock(item.socket.value) else Fd(item.fd)
  }

  function NewItem(key: Key, events: int): FfiItem {
    FfiItem(if key.Sock? then Some(key.handle) else None, if key.Sock? then 0 else key.fd, ToShort(events), 0)
  }

  const BLANK: FfiItem := FfiItem(None, 0, 0, 0)

  /** The map and the items are mutual inverses. */
  ghost predicate Inverse(items: seq<FfiItem>, index: Index) {
    && (forall k :: 0 <= k < |items| ==> Indexed(items, index, k))
    && (forall key :: key in index ==> index[key].no < |items| && ItemKey(items[index[key].no]) == key)
  }

  predicate Indexed(items: seq<FfiItem>, index: Index, k: nat)
    requires k < |items|
  {
    ItemKey(items[k]) in index && index[ItemKey(items[k])].no == k
  }

  function EntryOf(item: FfiItem, cb: Callback): Entry {
    Entry(ItemKey(item), item.events, item.revents, cb)
  }

  ghost function EntryAt(items: seq<FfiItem>, index: Index, k: nat): Entry
    requires k < |items| && Indexed(items, index, k)
  {
    EntryOf(items[k], index[ItemKey(items[k])].cb)
  }

  ghost function Zip(items: seq<FfiItem>, index: Index): (es: seq<Entry>)
    requires Inverse(items, index)
    ensures |es| == |items|
  {
    seq(|items|, k requires 0 <= k < |items| && Indexed(items, index, k) => EntryAt(items, index, k))
  }

  lemma {:induction false} ZipDistinct(items: seq<FfiItem>, index: Index)
    requires Inverse(items, index)
    ensures DistinctKeys(Zip(items, index))
  {
    var es := Zip(items, index);
    forall j, k | 0 <= j < k < |es|
      ensures es[j].key != es[k].key
    {
      assert Indexed(items, index, j) && Indexed(items, index, k);
    }
  }

  lemma {:induction false} FindIsLookup(items: seq<FfiItem>, index: Index, key: Key)
    requires Inverse(items, index)
    ensures Find(Zip(items, index), key) == if key in index then index[key].no else -1
  {
    var es := Zip(items, index);
    ZipDistinct(items, index);
    if key in index {
      assert es[index[key].no].key == key;
    } else {
      forall k | 0 <= k < |es|
        ensures es[k].key in index
      {
        assert Indexed(items, index, k);
      }
    }
  }

  lemma {:induction false} ZipAdd(items: seq<FfiItem>, index: Index, key: Key, events: int, cb: Callback)
    requires Inverse(items, index) && key !in index
    ensures Inverse(items + [NewItem(key, events)], index[key := Params(cb, |items|)])
    ensures Zip(items + [NewItem(key, events)], index[key := Params(cb, |items|)])
      == Append(Zip(items, index), key, events, cb)
  {
    var n, item := |items|, NewItem(key, events);
    var items', index' := items + [item], index[key := Params(cb, n)];
    forall k | 0 <= k < |items'|
      ensures Indexed(items', index', k)
    {
      if k < n { assert Indexed(items, index, k); }
    }
    var es, es' := Zip(items, index), Zip(items', index');
    forall k | 0 <= k < n
      ensures es'[k] == es[k]
    {
      assert Indexed(items, index, k);
    }
    assert EntryOf(item, cb) == Entry(key, ToShort(events), 0, cb);
    assert es' == es + [EntryOf(item, cb)];
  }

  lemma {:induction false} ZipModify(items: seq<FfiItem>, index: Index, key: Key, events: int, cb: Callback)
    requires Inverse(items, index) && key in index
    ensures var i := index[key].no;
      var items', index' := items[i := items[i].(events := ToShort(events))], index[key := Params(cb, i)];
      && Inverse(items', index')
      && Zip(items', index') == Zip(items, index)[i := Zip(items, index)[i].(events := ToShort(events), cb := cb)]
  {
    var i := index[key].no;
    var items', index' := items[i := items[i].(events := ToShort(events))], index[key := Params(cb, i)];
    forall k | 0 <= k < |items'|
      ensures Indexed(items', index', k) && ItemKey(items'[k]) == ItemKey(items[k])
    {
      assert Indexed(items, index, k);
    }
    var es, es' := Zip(items, index), Zip(items', index');
    forall k | 0 <= k < |es|
      ensures es'[k] == if k == i then es[k].(events := ToShort(events), cb := cb) else es[k]
    {
      assert Indexed(items, index, k);
    }
  }

  /** The last item takes the place of the removed one. */
  function Moved(items: seq<FfiItem>, i: nat): seq<FfiItem>
    requires i < |items|
  {
    var last := |items| - 1;
    if i == last then items[..last] else items[..last][i := items[last].(revents := items[i].revents)]
  }

  function Reindexed(items: seq<FfiItem>, index: Index, key: Key): Index
    requires key in index && index[key].no < |items|
    requires index[key].no < |items| - 1 ==> ItemKey(items[|items| - 1]) in index
  {
    var i, last := index[key].no, |items| - 1;
    if i == last then index - {key}
    else var moved := ItemKey(items[last]); (index - {key})[moved := index[moved].(no := i)]
  }

  lemma {:induction false} MovedInverse(items: seq<FfiItem>, index: Index, key: Key)
    requires Inverse(items, index) && key in index
    ensures Indexed(items, index, |items| - 1)
    ensures Inverse(Moved(items, index[key].no), Reindexed(items, index, key))
  {
    var i, last := index[key].no, |items| - 1;
    assert Indexed(items, index, last) && Indexed(items, index, i);
    var items', index' := Moved(items, i), Reindexed(items, index, key);
    forall k | 0 <= k < last
      ensures Indexed(items', index', k)
      ensures ItemKey(items'[k]) == ItemKey(items[if k == i then last else k])
    {
      assert Indexed(items, index, k);
    }
  }

  lemma {:induction false} ZipRemove(items: seq<FfiItem>, index: Index, key: Key)
    requires Inverse(items, index) && key in index
    ensures Indexed(items, index, |items| - 1)
    ensures Inverse(Moved(items, index[key].no), Reindexed(items, index, key))
    ensures Zip(Moved(items, index[key].no), Reindexed(items, index, key)) == SwapOut(Zip(items, index), index[key].no)
  {
    MovedInverse(items, index, key);
    var i, last := index[key].no, |items| - 1;
    var es, es' := Zip(items, index), Zip(Moved(items, i), Reindexed(items, index, key));
    forall k | 0 <= k < last
      ensures es'[k] == SwapOut(es, i)[k]
    {
      assert Indexed(items, index, k) && Indexed(items, index, last);
    }
  }

  lemma {:induction false} StepKeepsBelow(es: seq<Entry>, cursor: int, op: Op)
    requires -1 <= cursor < |es|
    ensures cursor < |if FfiAllowed(es, cursor, op) then FfiApply(es, op) else es|
  {
    if FfiAllowed(es, cursor, op) { FfiApplyKeepsBelow(es, cursor, op); }
  }

  /** Up to `top` the slots of an array have changed at most in their events. */
  predicate Untouched(was: seq<FfiItem>, now: seq<FfiItem>, top: int) {
    |now| == |was| && forall k :: 0 <= k <= top && k < |was| ==> now[k].(events := 0) == was[k].(events := 0)
  }

  /** Up to `top` the slots of an array have the keys and the revents of these entries. */
  ghost predicate ShowsItems(slots: seq<FfiItem>, es: seq<Entry>, top: int) {
    && top < |es| && top < |slots|
    && forall j :: 0 <= j <= top ==> ItemKey(slots[j]) == es[j].key && slots[j].revents == es[j].revents
  }

  lemma {:induction false} StillShows(was: seq<FfiItem>, now: seq<FfiItem>, before: seq<Entry>, after: seq<Entry>,
                                      top: int)
    requires ShowsItems(was, before, top) && Untouched(was, now, top) && SameBelow(before, after, top)
    ensures ShowsItems(now, after, top)
  {
    forall j | 0 <= j <= top
      ensures ItemKey(now[j]) == after[j].key && now[j].revents == after[j].revents
    {
      assert now[j].(events := 0) == was[j].(events := 0);
    }
  }

  class Poller {
    var items: array<FfiItem>
    var size: nat
    var nitems: nat
    var sockets: Index

    ghost predicate Valid()
      reads this, items
    {
      && nitems <= items.Length && size <= items.Length
      && Inverse(items[..nitems], sockets)
    }

    ghost function Entries(): seq<Entry>
      requires Valid()
      reads this, items
    {
      Zip(items[..nitems], sockets)
    }

    /** Poller:new; no number allocates nothing. */
    constructor (n: nat)
      ensures Valid() && Entries() == [] && fresh(items)
    {
      items := new FfiItem[n](_ => BLANK);
      size, nitems, sockets := n, 0, map[];
    }

    /** Poller:ensure: room for n more items.  A new array has nitems + n slots, and `size` stays. */
    method Ensure(n: nat)
      requires Valid()
      modifies this`items
      ensures Valid() && nitems + n <= items.Length && (items == old(items) || fresh(items))
      ensures items[..nitems] == old(items[..nitems])
    {
      var empty := size - nitems;
      if n <= empty { return; }
      var was, used := items, nitems;
      items := new FfiItem[size + (n - empty)](k requires k >= 0 && used <= was.Length reads was =>
        if k < used then was[k] else BLANK);
      assert items[..nitems] == was[..nitems];
    }

    /** Poller:add; the slot written is always inside the allocation. */
    method Add(key: Key, events: int, cb: Callback)
      requires Valid() && FfiLegal(Entries(), Op.Add(key, events, cb))
      modifies this, items
      ensures Valid() && (items == old(items) || fresh(items))
      ensures Entries() == FfiApply(old(Entries()), Op.Add(key, events, cb))
      ensures forall k :: 0 <= k < old(nitems) ==> old(items)[k] == old(items[k])
    {
      ghost var before, index := items[..nitems], sockets;
      FindIsLookup(before, index, key);
      Ensure(1);
      var n := nitems;
      items[n] := NewItem(key, events);
      sockets := sockets[key := Params(cb, n)];
      nitems := n + 1;
      ZipAdd(before, index, key, events, cb);
      assert items[..nitems] == before + [NewItem(key, events)];
    }

    /** Poller:remove */
    method Remove(key: Key)
      requires Valid()
      modifies this, items
      ensures Valid() && items == old(items)
      ensures Entries() == FfiApply(old(Entries()), Op.Remove(key))
      ensures forall k :: 0 <= k < items.Length && k != Find(old(Entries()), key) ==> items[k] == old(items[k])
    {
      ghost var before, index := items[..nitems], sockets;
      FindIsLookup(before, index, key);
      if key !in sockets { return; }
      ZipRemove(before, index, key);
      TakeOut(key);
    }

    /** The last item takes the place of the removed one, unless that is the last itself. */
    method TakeOut(key: Key)
      requires Valid() && key in sockets && sockets[key].no < nitems
      requires sockets[key].no < nitems - 1 ==> ItemKey(items[nitems - 1]) in sockets
      modifies this`nitems, this`sockets, items
      ensures nitems == old(nitems) - 1
      ensures sockets == Reindexed(old(items[..nitems]), old(sockets), key)
      ensures items[..nitems] == Moved(old(items[..nitems]), old(sockets[key].no))
      ensures forall k :: 0 <= k < items.Length && k != old(sockets[key].no) ==> items[k] == old(items[k])
    {
      var no := sockets[key].no;
      sockets := sockets - {key};
      nitems := nitems - 1;
      if no != nitems {
        var last := items[nitems];
        var lastKey := ItemKey(last);
        assert Indexed(old(items[..nitems]), old(sockets), nitems);
        sockets := sockets[lastKey := sockets[lastKey].(no := no)];
        items[no] := items[no].(socket := last.socket, fd := last.fd, events := last.events);
      }
    }

    /** Poller:modify */
    method Modify(key: Key, events: int, change: Option<Callback>)
      requires Valid()
      modifies this, items
      ensures Valid() && (items == old(items) || fresh(items))
      ensures Entries() == FfiApply(old(Entries()), Op.Modify(key, events, change))
      ensures forall k :: 0 <= k < old(nitems) && (events == 0 || change.None? ==> k != Find(old(Entries()), key)) ==>
                old(items)[k].(events := 0) == old(items[k]).(events := 0)
    {
      ghost var before, index := items[..nitems], sockets;
      FindIsLookup(before, index, key);
      if events != 0 && change.Some? {
        if key !in sockets {
          Add(key, events, change.value);
          return;
        }
        ZipModify(before, index, key, events, change.value);
        var i := sockets[key].no;
        items[i] := items[i].(events := ToShort(events));
        sockets := sockets[key := Params(change.value, i)];
        assert items[..nitems] == before[i := before[i].(events := ToShort(events))];
      } else {
        Remove(key);
      }
    }

    /** One action of a callback, when the rule of dispatch allows it.  `cursor` is the highest pending index. */
    method Perform(op: Op, cursor: int)
      requires Valid() && -1 <= cursor < nitems
      modifies this, items
      ensures Valid() && (items == old(items) || fresh(items))
      ensures Entries() == old(if FfiAllowed(Entries(), cursor, op) then FfiApply(Entries(), op) else Entries())
      ensures Untouched(old(items[..]), old(items)[..], cursor)
    {
      FindIsLookup(items[..nitems], sockets, op.key);
      if Removes(op) && op.key in sockets && sockets[op.key].no <= cursor { return; }
      match op {
        case Add(key, events, cb) => if key !in sockets { Add(key, events, cb); }
        case Modify(key, events, change) => Modify(key, events, change);
        case Remove(key) => Remove(key);
      }
    }

    /** A socket callback. */
    method Callback(ops: seq<Op>, cursor: int)
      requires Valid() && -1 <= cursor < nitems
      modifies this, items
      ensures Valid() && (items == old(items) || fresh(items))
      ensures Entries() == FfiObey(old(Entries()), cursor, ops)
      ensures Untouched(old(items[..]), old(items)[..], cursor)
    {
      ghost var es := Entries();
      var k := 0;
      assert ops[0..] == ops;
      while k < |ops|
        invariant k <= |ops| && Valid() && (items == old(items) || fresh(items)) && cursor < nitems
        invariant FfiObey(Entries(), cursor, ops[k..]) == FfiObey(es, cursor, ops)
        invariant Untouched(old(items[..]), old(items)[..], cursor)
      {
        assert ops[k..][0] == ops[k] && ops[k..][1..] == ops[k + 1..];
        StepKeepsBelow(Entries(), cursor, ops[k]);
        Perform(ops[k], cursor);
        k := k + 1;
      }
    }

    /** The same, seen through an array that the poller used at some time. */
    method CallbackBeside(ops: seq<Op>, cursor: int, ghost captured: array<FfiItem>)
      requires Valid() && -1 <= cursor < nitems
      modifies this, items
      ensures Valid() && (items == old(items) || fresh(items))
      ensures Entries() == FfiObey(old(Entries()), cursor, ops)
      ensures Untouched(old(captured[..]), captured[..], cursor)
    {
      Callback(ops, cursor);
    }

    /** zmq_poll as an oracle. */
    method ZmqPoll(ready: nat -> int)
      requires Valid()
      modifies items
      ensures Valid() && Entries() == Polled(old(Entries()), ready)
    {
      ghost var before := items[..nitems];
      for k := 0 to nitems
        invariant forall j :: 0 <= j < nitems ==>
          items[j] == if j < k then before[j].(revents := ready(j)) else before[j]
      {
        items[k] := items[k].(revents := ready(k));
      }
      ZipRevents(before, items[..nitems], sockets, ready);
    }

    /** The captured array still shows what is pending. */
    ghost predicate Shows(captured: array<FfiItem>, top: int)
      requires Valid()
      reads this, items, captured
    {
      ShowsItems(captured[..], Entries(), top)
    }

    /** Poller:poll: asks zmq_poll, then walks down the array it started with, and calls the callback of each
        ready item.  A callback may make the poller continue with another array. */
    method Poll(ready: nat -> int, fails: bool, scripts: seq<seq<Op>>) returns (count: Option<nat>, ghost run: Run)
      requires Valid()
      modifies this, items
      ensures Valid() && (items == old(items) || fresh(items))
      ensures count.None? <==> fails
      ensures fails ==> Entries() == Polled(old(Entries()), ready)
      ensures !fails ==> FfiDispatched(run, Polled(old(Entries()), ready), scripts) && count == Some(|run.served|)
      ensures !fails ==> Entries() == Last(run)
      ensures !fails ==>
        PollerEffects.EachChanged(Polled(old(Entries()), ready), Entries(), PollerEffects.FfiAllDone(run, scripts))
    {
      ghost var es := Polled(Entries(), ready);
      ZmqPoll(ready);
      run := FfiStarts(es, scripts);
      if fails { return None, run; }
      ZipDistinct(items[..nitems], sockets);
      var captured := items;
      var n := 0;
      var i := nitems - 1;
      while i >= 0
        invariant -1 <= i && Valid() && (items == old(items) || fresh(items))
        invariant captured == items || captured == old(items)
        invariant Shows(captured, i) && Stands(run, es, scripts, Entries(), i) && n == |run.served|
      {
        ghost var now := Entries();
        var served := Look(ScriptAt(scripts, n), i, captured);
        run := FfiGoesOn(run, es, scripts, now, Entries(), i, served);
        if served.Some? { n := n + 1; }
        i := i - 1;
      }
      FfiEnds(run, es, scripts);
      PollerEffects.FfiPollChanges(run, scripts);
      return Some(n), run;
    }

    /** One iteration of the loop of Poller:poll: a ready item is served with the callback of its key. */
    method Look(ops: seq<Op>, i: nat, captured: array<FfiItem>) returns (served: Option<Served>)
      requires Valid() && Shows(captured, i)
      modifies this, items
      ensures Valid() && (items == old(items) || fresh(items)) && Shows(captured, i - 1)
      ensures served == if old(Entries())[i].revents != 0 then Some(Serve(old(Entries()), i)) else None
      ensures Entries() == if served.Some? then FfiObey(old(Entries()), i - 1, ops) else old(Entries())
    {
      var item := captured[i];
      if item.revents == 0 { return None; }
      ghost var es := Entries();
      assert es[i].key == ItemKey(item);
      assert Indexed(items[..nitems], sockets, i);
      if ItemKey(item) in sockets {
        var call := Callee(i, captured);
        Invoke(ops, i, captured);
        served := Some(call);
      }
    }

    /** Whose callback is called for item i, and with what revents. */
    method Callee(i: nat, captured: array<FfiItem>) returns (call: Served)
      requires Valid() && Shows(captured, i) && ItemKey(captured[i]) in sockets
      ensures call == Serve(Entries(), i)
    {
      var item := captured[i];
      var params := sockets[ItemKey(item)];
      call := Served(i, ItemKey(item), item.revents, params.cb);
      assert Indexed(items[..nitems], sockets, i);
    }

    /** The callback at work: the captured array goes on showing what is pending. */
    method Invoke(ops: seq<Op>, i: nat, captured: array<FfiItem>)
      requires Valid() && Shows(captured, i)
      modifies this, items
      ensures Valid() && (items == old(items) || fresh(items))
      ensures Shows(captured, i - 1) && Entries() == FfiObey(old(Entries()), i - 1, ops)
    {
      ghost var was, used, index := captured[..], items[..nitems], sockets;
      CallbackBeside(ops, i - 1, captured);
      ObeyedStillShows(was, captured[..], used, index, i - 1, ops, Entries());
    }
  }

  lemma {:induction false} ObeyedStillShows(was: seq<FfiItem>, now: seq<FfiItem>, items: seq<FfiItem>, index: Index,
                                            top: int, ops: seq<Op>, after: seq<Entry>)
    requires Inverse(items, index) && -1 <= top < |items| && Untouched(was, now, top)
    requires ShowsItems(was, Zip(items, index), top + 1) && after == FfiObey(Zip(items, index), top, ops)
    ensures ShowsItems(now, after, top)
  {
    var es := Zip(items, index);
    ZipDistinct(items, index);
    FfiObeyKeepsBelow(es, top, ops);
    StillShows(was, now, es, after, top);
  }

  lemma {:induction false} ZipRevents(items: seq<FfiItem>, polled: seq<FfiItem>, index: Index, ready: nat -> int)
    requires Inverse(items, index) && |polled| == |items|
    requires forall k :: 0 <= k < |items| ==> polled[k] == items[k].(revents := ready(k))
    ensures Inverse(polled, index) && Zip(polled, index) == Polled(Zip(items, index), ready)
  {
    forall k | 0 <= k < |polled|
      ensures Indexed(polled, index, k) && ItemKey(polled[k]) == ItemKey(items[k])
    {
      assert Indexed(items, index, k);
    }
  }

  // ----- runs of the dispatch loop -----

  ghost predicate FfiDispatching(run: Run, es: seq<Entry>, scripts: seq<seq<Op>>) {
    run.Valid() && run.Es() == es && run.cursors[0] == |es| - 1 && FfiObeys(run, scripts) && DistinctKeys(es)
  }

  /** A whole run: each ready entry is served once, from the last one down. */
  ghost predicate FfiDispatched(run: Run, es: seq<Entry>, scripts: seq<seq<Op>>) {
    FfiDispatching(run, es, scripts) && ServesReady(es, ReadyDown(es, |es| - 1), run.served)
  }

  /** The loop stands at index i: what lies between it and the cursor of the run is not ready. */
  ghost predicate AtCursor(run: Run, i: int) {
    run.Valid() && var n := |run.served|;
    -1 <= i <= run.cursors[n] && forall j :: i < j <= run.cursors[n] ==> run.states[n][j].revents == 0
  }

  lemma {:induction false} FfiStarts(es: seq<Entry>, scripts: seq<seq<Op>>) returns (run: Run)
    ensures run.Valid() && run.served == [] && Last(run) == es
    ensures DistinctKeys(es) ==> FfiDispatching(run, es, scripts)
    ensures AtCursor(run, |es| - 1)
  {
    run := Run([es], [|es| - 1], []);
  }

  lemma {:induction false} FfiExtend(run: Run, es: seq<Entry>, scripts: seq<seq<Op>>, now: seq<Entry>,
                                     after: seq<Entry>, i: nat)
    returns (longer: Run)
    requires FfiDispatching(run, es, scripts) && now == Last(run) && AtCursor(run, i)
    requires i < |now| && now[i].revents != 0
    requires after == FfiObey(now, i - 1, ScriptAt(scripts, |run.served|))
    ensures longer.Valid() && FfiDispatching(longer, es, scripts) && longer.served == run.served + [Serve(now, i)]
    ensures Last(longer) == after && AtCursor(longer, i - 1)
  {
    var n := |run.served|;
    NextReadyIs(now, run.cursors[n], i);
    FfiKeepsDistinct(run, scripts, n);
    FfiObeyKeepsBelow(now, i - 1, ScriptAt(scripts, n));
    longer := ExtendValid(run, after, i);
  }

  /** The loop stands at index i of these entries. */
  ghost predicate Stands(run: Run, es: seq<Entry>, scripts: seq<seq<Op>>, now: seq<Entry>, i: int) {
    FfiDispatching(run, es, scripts) && now == Last(run) && AtCursor(run, i)
  }

  /** One iteration of the loop: it passes an entry that is not ready, or serves one. */
  lemma {:induction false} FfiGoesOn(run: Run, es: seq<Entry>, scripts: seq<seq<Op>>, now: seq<Entry>,
                                     after: seq<Entry>, i: nat,
                                     served: Option<Served>) returns (longer: Run)
    requires i < |now| && Stands(run, es, scripts, now, i)
    requires served == if now[i].revents != 0 then Some(Serve(now, i)) else None
    requires after == if served.Some? then FfiObey(now, i - 1, ScriptAt(scripts, |run.served|)) else now
    ensures Stands(longer, es, scripts, after, i - 1)
    ensures longer.served == if served.Some? then run.served + [served.value] else run.served
  {
    longer := run;
    if served.Some? { longer := FfiExtend(run, es, scripts, now, after, i); }
  }

  lemma {:induction false} FfiEnds(run: Run, es: seq<Entry>, scripts: seq<seq<Op>>)
    requires FfiDispatching(run, es, scripts) && AtCursor(run, -1)
    ensures FfiDispatched(run, es, scripts)
  {
    FfiObeyingSparesPending(run, scripts);
    NextReadyIs(Last(run), run.cursors[|run.served|], -1);
    DispatchGoesOn(run);
    DispatchServesReady(run);
  }
}
