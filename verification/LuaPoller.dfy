/** src/lua/lzmq/poller.lua: a table of callbacks beside the C array, kept aligned with it by shifting.
    Together they are the plain sequence of registrations of PollerModel. */
module LuaPoller {
  import opened Options
  import opened PollerModel
  import opened PollerDispatch
  import opened CPoller
  import PollerEffects

  type Table = map<int, Callback>

  function EntryOf(item: Item, cb: Callback): Entry {
    Entry(KeyOf(item), item.events, item.revents, cb)
  }

  predicate Covers(table: Table, n: nat) {
    forall k :: 0 <= k < n ==> k in table
  }

  predicate Aligned(table: Table, n: nat) {
    Covers(table, n) && forall k :: k in table ==> 0 <= k < n
  }

  /** The callback at index k belongs to the item at index k. */
  function Zip(items: seq<Item>, table: Table): (es: seq<Entry>)
    requires Covers(table, |items|)
    ensures |es| == |items|
    ensures forall k {:trigger es[k]} :: 0 <= k < |items| ==> es[k] == EntryOf(items[k], table[k])
  {
    seq(|items|, k requires 0 <= k < |items| && k in table => EntryOf(items[k], table[k]))
  }

  lemma {:induction false} ZipRevents(items: seq<Item>, table: Table, ready: nat -> int)
    requires Covers(table, |items|)
    ensures Zip(WithRevents(items, ready), table) == Polled(Zip(items, table), ready)
  {
  }

  /** What zmq_poll counts is the number of ready entries. */
  lemma {:induction false} ReadyCountIs(items: seq<Item>, es: seq<Entry>, n: nat)
    requires |items| == |es| && n <= |es| && forall k :: 0 <= k < |es| ==> es[k].revents == items[k].revents
    ensures ReadyCount(items[..n]) == |ReadyDown(es, n - 1)|
  {
    if n > 0 {
      assert items[..n][..n - 1] == items[..n - 1];
      ReadyCountIs(items, es, n - 1);
    }
  }

  lemma {:induction false} AskedIs(items: seq<Item>, table: Table, ready: nat -> int)
    requires Covers(table, |items|)
    ensures var now := WithRevents(items, ready);
      && |now| == |items| && Zip(now, table) == Polled(Zip(items, table), ready)
      && ReadyCount(now) == |ReadyDown(Zip(now, table), |now| - 1)|
  {
    var now := WithRevents(items, ready);
    ZipRevents(items, table, ready);
    ReadyCountIs(now, Zip(now, table), |now|);
    assert now[..|now|] == now;
  }

  lemma {:induction false} ZipNext(items: seq<Item>, table: Table, next: int, id: int)
    requires Covers(table, |items|) && -1 <= id <= next < |items| && (id >= 0 ==> items[id].revents != 0)
    requires forall j :: id < j <= next ==> items[j].revents == 0
    ensures NextReady(Zip(items, table), next) == id
    ensures id >= 0 ==>
              PollerModel.Serve(Zip(items, table), id) == Served(id, KeyOf(items[id]), items[id].revents, table[id])
  {
    NextReadyIs(Zip(items, table), next, id);
  }

  lemma {:induction false} FindIs(es: seq<Entry>, key: Key, idx: int)
    requires -1 <= idx < |es|
    requires idx >= 0 ==> es[idx].key == key
    requires forall j :: 0 <= j < (if idx < 0 then |es| else idx) ==> es[j].key != key
    ensures Find(es, key) == idx
  {
  }

  lemma {:induction false} ZipAppend(items: seq<Item>, table: Table, item: Item, cb: Callback)
    requires Covers(table, |items|)
    ensures Covers(table[|items| := cb], |items| + 1)
    ensures Zip(items + [item], table[|items| := cb]) == Zip(items, table) + [EntryOf(item, cb)]
  {
  }

  lemma {:induction false} ZipAdd(items: seq<Item>, table: Table, key: Key, events: int, cb: Callback)
    requires Covers(table, |items|)
    ensures Covers(table[|items| := cb], |items| + 1)
    ensures Zip(items + [Item(SocketOf(key), FdOf(key), ToShort(events), 0)], table[|items| := cb])
      == Apply(Zip(items, table), Op.Add(key, events, cb))
  {
    var item := Item(SocketOf(key), FdOf(key), ToShort(events), 0);
    ZipAppend(items, table, item, cb);
    assert EntryOf(item, cb) == Entry(key, ToShort(events), 0, cb);
  }

  lemma {:induction false} ZipUpdate(items: seq<Item>, table: Table, i: nat, item: Item, cb: Callback)
    requires i < |items| && Covers(table, |items|)
    ensures Covers(table[i := cb], |items|)
    ensures Zip(items[i := item], table[i := cb]) == Zip(items, table)[i := EntryOf(item, cb)]
  {
  }

  lemma {:induction false} ZipDropAt(items: seq<Item>, table: Table, i: nat, shifted: Table, k: nat, from: nat)
    requires i < |items| && Covers(table, |items|) && Covers(shifted, |items| - 1) && k < |items| - 1
    requires from == (if k < i then k else k + 1) && shifted[k] == table[from]
    ensures Zip(Drop(items, i), shifted)[k] == Drop(Zip(items, table), i)[k]
  {
    assert Drop(items, i)[k] == items[from];
    assert Drop(Zip(items, table), i)[k] == Zip(items, table)[from];
  }

  lemma {:induction false} ZipDrop(items: seq<Item>, table: Table, i: nat, shifted: Table)
    requires i < |items| && Covers(table, |items|)
    requires Covers(shifted, |items| - 1)
    requires forall k {:trigger shifted[k]} :: 0 <= k < |items| - 1 ==> shifted[k] == table[if k < i then k else k + 1]
    ensures Zip(Drop(items, i), shifted) == Drop(Zip(items, table), i)
  {
    var es, after := Drop(Zip(items, table), i), Zip(Drop(items, i), shifted);
    assert |es| == |after| == |items| - 1;
    forall k | 0 <= k < |after|
      ensures after[k] == es[k]
    {
      ZipDropAt(items, table, i, shifted, k, if k < i then k else k + 1);
    }
  }

  /** Modifying the first item of a key, or appending one, on both sides. */
  lemma {:induction false} ZipModify(items: seq<Item>, table: Table, key: Key, events: int, cb: Callback, idx: nat,
                  after: seq<Item>, changed: Table)
    requires Covers(table, |items|) && idx <= |items| && key.Sock? && events != 0
    requires idx < |items| ==> KeyOf(items[idx]) == key
    requires forall j :: 0 <= j < idx ==> KeyOf(items[j]) != key
    requires after == if idx < |items| then items[idx := items[idx].(events := ToShort(events))]
                      else items + [Item(SocketOf(key), 0, ToShort(events), 0)]
    requires changed == table[idx := cb]
    ensures Covers(changed, |after|)
    ensures Zip(after, changed) == Apply(Zip(items, table), Op.Modify(key, events, Some(cb)))
  {
    var es := Zip(items, table);
    if idx < |items| {
      var item := items[idx].(events := ToShort(events));
      ZipUpdate(items, table, idx, item, cb);
      ApplyModifyAt(es, key, events, cb, idx);
      assert es[idx] == EntryOf(items[idx], table[idx]);
      assert EntryOf(item, cb) == es[idx].(events := ToShort(events), cb := cb);
    } else {
      var item := Item(SocketOf(key), 0, ToShort(events), 0);
      ZipAppend(items, table, item, cb);
      ApplyModifyEnd(es, key, events, cb);
      assert EntryOf(item, cb) == Entry(key, ToShort(events), 0, cb);
    }
  }

  /** Position id is the first of the key among the items, or not one of theirs when there is none. */
  predicate FirstOf(items: seq<Item>, key: Key, id: int) {
    && -1 <= id <= |items|
    && (0 <= id < |items| ==> KeyOf(items[id]) == key)
    && forall j :: 0 <= j < (if id < 0 then |items| else id) ==> KeyOf(items[j]) != key
  }

  /** Modifying a key with events and a callback; when the events are 0 as a C short the C side removes the item. */
  lemma {:induction false} Changed(items: seq<Item>, table: Table, key: Key, events: int, cb: Callback, id: int,
                                   after: seq<Item>, changed: Table)
    requires Aligned(table, |items|) && events != 0 && FirstOf(items, key, id) && changed == table[id := cb]
    requires ToShort(events) != 0 ==>
               && key.Sock? && id >= 0
               && after == if id < |items| then items[id := items[id].(events := ToShort(events))]
                           else items + [Item(SocketOf(key), 0, ToShort(events), 0)]
    requires ToShort(events) == 0 ==> id < |items| && after == if id >= 0 then Drop(items, id) else items
    ensures Aligned(changed, |after|) <==> ToShort(events) != 0
    ensures Aligned(changed, |after|) ==>
      Zip(after, changed) == Apply(Zip(items, table), Op.Modify(key, events, Some(cb)))
  {
    if ToShort(events) != 0 {
      ZipModify(items, table, key, events, cb, id, after, changed);
    } else {
      assert (if id < 0 then id else |items| - 1) in changed;
    }
  }

  lemma {:induction false} ApplyModifyAt(es: seq<Entry>, key: Key, events: int, cb: Callback, idx: nat)
    requires events != 0 && idx < |es| && es[idx].key == key && forall j :: 0 <= j < idx ==> es[j].key != key
    ensures Apply(es, Op.Modify(key, events, Some(cb))) == es[idx := es[idx].(events := ToShort(events), cb := cb)]
  {
    FindIs(es, key, idx);
  }

  lemma {:induction false} ApplyModifyEnd(es: seq<Entry>, key: Key, events: int, cb: Callback)
    requires events != 0 && forall j :: 0 <= j < |es| ==> es[j].key != key
    ensures Apply(es, Op.Modify(key, events, Some(cb))) == es + [Entry(key, ToShort(events), 0, cb)]
  {
    FindIs(es, key, -1);
  }

  /** What the length operator of Lua may give for a table: a border. */
  ghost predicate IsBorder(table: Table, n: nat) {
    (n == 0 || n in table) && n + 1 !in table
  }

  /** The table after its part from id to i has been moved down by one, an index at a time. */
  ghost function Slid(table: Table, id: int, i: int): Table
    decreases i - id
  {
    if i <= id then table
    else
      var now := Slid(table, id, i - 1);
      if i in now then now[i - 1 := now[i]] else now - {i - 1}
  }

  ghost function Source(id: int, i: int, k: int): int {
    if id <= k < i then k + 1 else k
  }

  lemma {:induction false} SlidAt(table: Table, id: int, i: int, k: int)
    requires id <= i
    ensures var r, from := Slid(table, id, i), Source(id, i, k);
      (k in r <==> from in table) && (k in r ==> r[k] == table[from])
    decreases i - id
  {
    if i > id {
      SlidAt(table, id, i - 1, k);
      SlidAt(table, id, i - 1, i);
    }
  }

  lemma {:induction false} SlidDrops(table: Table, id: nat, n: nat, r: Table)
    requires id < n && Aligned(table, n) && r == Slid(table, id, n)
    ensures Aligned(r, n - 1)
    ensures forall k {:trigger r[k]} :: 0 <= k < n - 1 ==> r[k] == table[if k < id then k else k + 1]
  {
    forall k
      ensures k in r <==> 0 <= k < n - 1
      ensures 0 <= k < n - 1 ==> r[k] == table[if k < id then k else k + 1]
    {
      SlidAt(table, id, n, k);
    }
  }

  lemma {:induction false} SlidAway(table: Table, n: nat, r: Table)
    requires Aligned(table, n) && r == Slid(table, -1, if n == 0 then 1 else n)
    ensures if n == 0 then r == table else n - 1 !in r
  {
    if n > 0 {
      SlidAt(table, -1, n, n - 1);
    } else {
      forall k
        ensures k !in r
      {
        SlidAt(table, -1, 1, k);
      }
    }
  }

  /** What removing a key leaves, when the C array gave `id` for it: callbacks and items stay aligned if and only if
      it was registered or there was nothing to move. */
  lemma {:induction false} Removal(items: seq<Item>, table: Table, key: Key, id: int, after: seq<Item>, shifted: Table)
    requires Aligned(table, |items|) && id == Find(Zip(items, table), key)
    requires after == if id < 0 then items else Drop(items, id)
    requires shifted == Slid(table, id, if items == [] then 1 else |items|)
    ensures Aligned(shifted, |after|) <==> id >= 0 || items == []
    ensures Aligned(shifted, |after|) ==> Zip(after, shifted) == Apply(Zip(items, table), Op.Remove(key))
  {
    if id >= 0 {
      SlidDrops(table, id, |items|, shifted);
      ZipDrop(items, table, id, shifted);
    } else {
      SlidAway(table, |items|, shifted);
    }
  }

  class PollerTable {
    const poller: Poller
    /** The Lua table `callbacks`, indexed from 0. */
    var callbacks: Table

    ghost predicate Valid()
      reads this, poller, poller.items
    {
      && poller.Valid()
      && Covers(callbacks, poller.count) && (forall k :: k in callbacks ==> 0 <= k < poller.count)
    }

    ghost function Entries(): seq<Entry>
      requires Valid()
      reads this, poller, poller.items
    {
      Zip(poller.Contents(), callbacks)
    }

    constructor (length: nat)
      ensures Valid() && Entries() == [] && fresh(poller) && fresh(poller.items)
    {
      poller := new Poller(length);
      callbacks := map[];
    }

    /** poller:add */
    method Add(key: Key, events: int, cb: Callback)
      requires Valid() && Legal(Entries(), Op.Add(key, events, cb))
      modifies this, poller`count, poller`freeList, poller`items, poller`len, poller.items
      ensures Valid() && (poller.items == old(poller.items) || fresh(poller.items))
      ensures Entries() == Apply(old(Entries()), Op.Add(key, events, cb))
    {
      ghost var items, table := poller.Contents(), callbacks;
      var id := poller.Add(key, events);
      callbacks := callbacks[id := cb];
      ZipAdd(items, table, key, events, cb);
    }

    /** poller:modify; without events or without a callback it is a removal. */
    method Modify(key: Key, events: int, change: Option<Callback>)
      requires Valid() && Acceptable(Op.Modify(key, events, change))
      modifies this, poller`count, poller`freeList, poller`items, poller`len, poller.items
      ensures poller.Valid() && (poller.items == old(poller.items) || fresh(poller.items))
      ensures Valid() <==> if Removes(Op.Modify(key, events, change))
                           then Find(old(Entries()), key) >= 0 || old(Entries()) == [] else ToShort(events) != 0
      ensures Valid() ==> Entries() == Apply(old(Entries()), Op.Modify(key, events, change))
    {
      if events != 0 && change.Some? {
        Change(key, events, change.value);
      } else {
        Remove(key);
      }
    }

    /** With events and a callback.  Events that are 0 as a C short make the C side remove the item, and the table is
        left with a callback that has no item. */
    method Change(key: Key, events: int, cb: Callback)
      requires Valid() && events != 0 && Acceptable(Op.Modify(key, events, Some(cb)))
      modifies this, poller`count, poller`freeList, poller`items, poller`len, poller.items
      ensures poller.Valid() && (poller.items == old(poller.items) || fresh(poller.items))
      ensures Valid() <==> ToShort(events) != 0
      ensures Valid() ==> Entries() == Apply(old(Entries()), Op.Modify(key, events, Some(cb)))
    {
      ghost var items, table := poller.Contents(), callbacks;
      var id := poller.Modify(key, events);
      assert FirstOf(items, key, id);
      callbacks := callbacks[id := cb];
      Changed(items, table, key, events, cb, id, poller.Contents(), callbacks);
    }

    /** poller:remove: the callbacks above the removed one move down by one.  For a key that is not registered the
        whole table moves, so that callbacks and items stay aligned if and only if there is nothing to move. */
    method Remove(key: Key)
      requires Valid() && key != Fd(0)
      modifies this, poller`count, poller`freeList, poller.items
      ensures poller.Valid()
      ensures Valid() <==> Find(old(Entries()), key) >= 0 || old(Entries()) == []
      ensures Valid() ==> Entries() == Apply(old(Entries()), Op.Remove(key))
    {
      ghost var items, table := poller.Contents(), callbacks;
      ghost var id := RemoveAndShift(key);
      Removal(items, table, key, id, poller.Contents(), callbacks);
    }

    method RemoveAndShift(key: Key) returns (ghost id: int)
      requires Valid() && key != Fd(0)
      modifies this, poller`count, poller`freeList, poller.items
      ensures poller.Valid() && id == Find(old(Entries()), key)
      ensures poller.Contents() == if id < 0 then old(poller.Contents()) else Drop(old(poller.Contents()), id)
      ensures callbacks == Slid(old(callbacks), id, if old(poller.count) == 0 then 1 else old(poller.count))
    {
      ghost var es, n := Entries(), poller.count;
      var idx := poller.Remove(key);
      FindIs(es, key, idx);
      id := idx;
      Shift(idx, n);
    }

    /** The loop of poller:remove over the table; assigning nil removes an index. */
    method Shift(id: int, ghost n: nat)
      requires -1 <= id && (id == -1 || id < n) && forall k :: k in callbacks <==> 0 <= k < n
      modifies this
      ensures callbacks == Slid(old(callbacks), id, if n == 0 then 1 else n)
    {
      ghost var table := callbacks;
      var top := Length(n);
      assert id <= top;
      var i := id;
      while i <= top
        invariant id <= i <= top + 1
        invariant callbacks == Slid(table, id, i)
      {
        if i + 1 in callbacks {
          callbacks := callbacks[i := callbacks[i + 1]];
        } else {
          callbacks := callbacks - {i};
        }
        i := i + 1;
      }
    }

    /** #self.callbacks: indices 0..n-1 are present, and the only border is n-1, or 0 when there are none. */
    method Length(ghost n: nat) returns (top: nat)
      requires forall k :: k in callbacks <==> 0 <= k < n
      ensures IsBorder(callbacks, top)
      ensures forall b: nat :: IsBorder(callbacks, b) ==> b == top
      ensures top == if n == 0 then 0 else n - 1
    {
      top := 0;
      while top + 1 in callbacks
        invariant top == 0 || top < n
        decreases n - top
      {
        top := top + 1;
      }
    }

    /** Whether the rule of dispatch lets a callback do this now. */
    method IsAllowed(op: Op) returns (ok: bool)
      requires Valid()
      ensures ok <==> Allowed(Entries(), poller.next, op)
    {
      if op.key == Fd(0) { return false; }
      if Removes(op) {
        var idx := poller.FindItem(op.key);
        FindIs(Entries(), op.key, idx);
        return idx >= 0 && idx > poller.next;
      }
      return ToShort(op.events) != FREE_TAG && (op.Modify? ==> op.key.Sock? && ToShort(op.events) != 0);
    }

    /** One action of a callback, when it is allowed. */
    method Perform(op: Op)
      requires Valid()
      modifies this, poller`count, poller`freeList, poller`items, poller`len, poller.items
      ensures Valid() && (poller.items == old(poller.items) || fresh(poller.items))
      ensures Entries() == old(if Allowed(Entries(), poller.next, op) then Apply(Entries(), op) else Entries())
    {
      var ok := IsAllowed(op);
      if !ok { return; }
      match op {
        case Add(key, events, cb) => Add(key, events, cb);
        case Modify(key, events, change) => Modify(key, events, change);
        case Remove(key) => Remove(key);
      }
    }

    /** A socket callback. */
    method Callback(ops: seq<Op>)
      requires Valid()
      modifies this, poller`count, poller`freeList, poller`items, poller`len, poller.items
      ensures Valid() && (poller.items == old(poller.items) || fresh(poller.items))
      ensures Entries() == Obey(old(Entries()), poller.next, ops)
    {
      ghost var es := Entries();
      var k := 0;
      assert ops[0..] == ops;
      while k < |ops|
        invariant k <= |ops| && Valid() && (poller.items == old(poller.items) || fresh(poller.items))
        invariant Obey(Entries(), poller.next, ops[k..]) == Obey(es, poller.next, ops)
      {
        assert ops[k..][0] == ops[k] && ops[k..][1..] == ops[k + 1..];
        Perform(ops[k]);
        k := k + 1;
      }
    }

    /** The C poll: the entries get their revents, and the cursor goes to the end when any is ready. */
    method Ask(ready: nat -> int, fails: bool) returns (err: int)
      requires Valid()
      modifies poller, poller.items
      ensures Valid() && poller.items == old(poller.items)
      ensures Entries() == Polled(old(Entries()), ready)
      ensures err == if fails then -1 else |ReadyDown(Entries(), |Entries()| - 1)|
      ensures poller.next == if err > 0 then |Entries()| - 1 else -1
    {
      ghost var items := poller.Contents();
      err := poller.Poll(ready, fails);
      assert poller.Contents() == WithRevents(items, ready);
      AskedIs(items, callbacks, ready);
    }

    /** poller:poll: asks zmq_poll, then steps the cursor as often as there are ready items and calls the
        callback of each.  scripts[j] is what the j-th callback called would like to do. */
    method Poll(ready: nat -> int, fails: bool, scripts: seq<seq<Op>>) returns (count: Option<nat>, ghost run: Run)
      requires Valid()
      modifies this, poller, poller.items
      ensures Valid() && (poller.items == old(poller.items) || fresh(poller.items))
      ensures count.None? <==> fails
      ensures fails ==> Entries() == Polled(old(Entries()), ready)
      ensures !fails ==> Dispatched(run, Polled(old(Entries()), ready), scripts) && count == Some(|run.served|)
      ensures !fails ==> Entries() == Last(run) && Exhausted(Entries(), poller.next)
      ensures !fails ==>
        Entries() == ApplyAll(Polled(old(Entries()), ready), PollerEffects.AllDone(run, scripts))
    {
      ghost var es := Polled(Entries(), ready);
      run := DispatchStarts(es, scripts);
      var err := Ask(ready, fails);
      if err < 0 { return None, run; }
      if err > 0 { run := Serve(err, es, scripts); }
      PollerEffects.PollLeaves(run, scripts, Fd(0));
      return Some(err), run;
    }

    /** The dispatch loop of poller:poll. */
    method Serve(err: nat, ghost es: seq<Entry>, scripts: seq<seq<Op>>) returns (ghost run: Run)
      requires Valid() && Entries() == es && es != [] && poller.next == |es| - 1
      requires err == |ReadyDown(es, |es| - 1)|
      modifies this, poller, poller.items
      ensures Valid() && (poller.items == old(poller.items) || fresh(poller.items))
      ensures Dispatched(run, es, scripts) && |run.served| == err
      ensures Entries() == Last(run) && Exhausted(Entries(), poller.next)
    {
      run := DispatchStarts(es, scripts);
      var i := 0;
      while i < err
        invariant i <= err && Valid() && (poller.items == old(poller.items) || fresh(poller.items))
        invariant Stands(run, es, scripts, Entries(), poller.next) && i == |run.served|
      {
        ghost var now, cursor := Entries(), poller.next;
        DispatchContinues(run, es, scripts, now, cursor);
        var served := ServeNext(ScriptAt(scripts, i));
        run := OneMoreServed(run, es, scripts, now, cursor, Entries(), served);
        i := i + 1;
      }
      DispatchEnds(run, es, scripts);
    }

    /** One callback: the entry that the cursor finds is served, and its callback does what it would like to do. */
    method ServeNext(ops: seq<Op>) returns (served: Served)
      requires Valid() && -1 <= poller.next < |Entries()| && NextReady(Entries(), poller.next) >= 0
      modifies this, poller, poller.items
      ensures Valid() && (poller.items == old(poller.items) || fresh(poller.items))
      ensures served.at == NextReady(old(Entries()), old(poller.next))
      ensures served == PollerModel.Serve(old(Entries()), served.at)
      ensures poller.next == served.at - 1 && Entries() == Obey(old(Entries()), served.at - 1, ops)
    {
      served := NextServed();
      Callback(ops);
    }

    /** next_revents_idx, and the callback at the index that it gives. */
    method NextServed() returns (served: Served)
      requires Valid() && -1 <= poller.next < |Entries()| && NextReady(Entries(), poller.next) >= 0
      modifies poller`next
      ensures Valid() && Entries() == old(Entries()) && poller.next == served.at - 1
      ensures served.at == NextReady(Entries(), old(poller.next)) && served == PollerModel.Serve(Entries(), served.at)
    {
      ghost var items, next := poller.Contents(), poller.next;
      var id, revents := poller.NextRevents();
      assert poller.Contents() == items;
      ZipNext(items, callbacks, next, id);
      served := Served(id, KeyOf(poller.items[id]), revents, callbacks[id]);
    }
  }

  /** A run of the dispatch loop over `es` so far. */
  ghost predicate Dispatching(run: Run, es: seq<Entry>, scripts: seq<seq<Op>>) {
    run.Valid() && run.Es() == es && run.cursors[0] == |es| - 1 && Obeys(run, scripts)
  }

  /** A whole run: as many callbacks as entries were ready, each ready entry once, from the last one down. */
  ghost predicate Dispatched(run: Run, es: seq<Entry>, scripts: seq<seq<Op>>) {
    Dispatching(run, es, scripts) && ServesReady(es, ReadyDown(es, |es| - 1), run.served)
  }

  lemma {:induction false} DispatchStarts(es: seq<Entry>, scripts: seq<seq<Op>>) returns (run: Run)
    ensures run == Run([es], [|es| - 1], []) && run.Valid() && Last(run) == es
    ensures Dispatching(run, es, scripts)
    ensures ReadyDown(es, |es| - 1) == [] ==> Dispatched(run, es, scripts)
  {
    run := Run([es], [|es| - 1], []);
  }

  /** These are the entries and the cursor that a run has led to. */
  ghost predicate Stands(run: Run, es: seq<Entry>, scripts: seq<seq<Op>>, now: seq<Entry>, cursor: int) {
    Dispatching(run, es, scripts) && now == Last(run) && cursor == run.cursors[|run.served|]
  }

  lemma {:induction false} DispatchContinues(run: Run, es: seq<Entry>, scripts: seq<seq<Op>>, now: seq<Entry>,
                                             cursor: int)
    requires Stands(run, es, scripts, now, cursor) && |run.served| < |ReadyDown(es, |es| - 1)|
    ensures -1 <= cursor < |now| && NextReady(now, cursor) >= 0
  {
    ObeyingSparesPending(run, scripts);
    DispatchGoesOn(run);
  }

  lemma {:induction false} DispatchEnds(run: Run, es: seq<Entry>, scripts: seq<seq<Op>>)
    requires Dispatching(run, es, scripts) && |run.served| == |ReadyDown(es, |es| - 1)|
    ensures Dispatched(run, es, scripts)
    ensures Exhausted(run.states[|run.served|], run.cursors[|run.served|])
  {
    ObeyingSparesPending(run, scripts);
    DispatchServesReady(run);
  }

  /** One callback more. */
  lemma {:induction false} OneMoreServed(run: Run, es: seq<Entry>, scripts: seq<seq<Op>>, now: seq<Entry>, cursor: int,
                                          after: seq<Entry>, served: Served) returns (longer: Run)
    requires Stands(run, es, scripts, now, cursor) && -1 <= cursor < |now|
    requires served.at == NextReady(now, cursor) && served == Serve(now, served.at)
    requires after == Obey(now, served.at - 1, ScriptAt(scripts, |run.served|))
    ensures Stands(longer, es, scripts, after, served.at - 1) && longer.served == run.served + [served]
  {
    ObeyKeepsBelow(now, served.at - 1, ScriptAt(scripts, |run.served|));
    longer := ExtendValid(run, after, served.at);
  }
}
