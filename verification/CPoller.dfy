/** The poller of src/poller.c and src/zpoller.c: a growable array whose removed slots are tagged and
    squeezed out in place, and a cursor that walks down over the ready slots. */
module CPoller {
  import opened PollerModel

  /** The `socket` field: null, a socket handle, or, in a free slot, the address of the next free slot. */
  datatype SocketField = Null | Handle(h: nat) | Slot(index: nat)

  /** zmq_pollitem_t */
  datatype Item = Item(socket: SocketField, fd: int, events: int, revents: int)

  const ZERO: Item := Item(Null, 0, 0, 0)

  predicate Tagged(item: Item) {
    item.events == FREE_TAG
  }

  /** A slot that holds a registration: a socket with descriptor 0, or a descriptor that is not 0. */
  predicate Live(item: Item) {
    && !Tagged(item)
    && (item.socket.Handle? ==> item.fd == 0)
    && (item.socket.Null? ==> item.fd != 0)
    && !item.socket.Slot?
  }

  function KeyOf(item: Item): Key {
    if item.socket.Handle? then Sock(item.socket.h) else Fd(item.fd)
  }

  function SocketOf(key: Key): SocketField {
    if key.Sock? then Handle(key.handle) else Null
  }

  function FdOf(key: Key): int {
    if key.Sock? then 0 else key.fd
  }

  // ----- compaction -----

  /** The slots that are not tagged, in order. */
  function Untagged(s: seq<Item>): (r: seq<Item>)
    ensures |r| <= |s|
  {
    if s == [] then []
    else
      var last := s[|s| - 1];
      Untagged(s[..|s| - 1]) + if Tagged(last) then [] else [last]
  }

  lemma {:induction false} UntaggedSnoc(s: seq<Item>, n: nat)
    requires n < |s|
    ensures Untagged(s[..n + 1]) == Untagged(s[..n]) + if Tagged(s[n]) then [] else [s[n]]
  {
    assert s[..n + 1][..n] == s[..n];
  }

  lemma {:induction false} UntaggedAll(s: seq<Item>)
    requires forall k :: 0 <= k < |s| ==> !Tagged(s[k])
    ensures Untagged(s) == s
  {
    if s != [] {
      UntaggedAll(s[..|s| - 1]);
      assert s == s[..|s| - 1] + [s[|s| - 1]];
    }
  }

  /** One tagged slot: the others keep their order. */
  lemma {:induction false} UntaggedButOne(s: seq<Item>, i: nat)
    requires i < |s| && forall k :: 0 <= k < |s| ==> (Tagged(s[k]) <==> k == i)
    ensures Untagged(s) == Drop(s, i)
  {
    var n := |s| - 1;
    if i == n {
      UntaggedAll(s[..n]);
    } else {
      UntaggedButOne(s[..n], i);
      assert Drop(s, i) == Drop(s[..n], i) + [s[n]];
    }
  }

  /** The positions of the slots that are not tagged. */
  function Places(s: seq<Item>): (r: seq<nat>)
    ensures |r| == |Untagged(s)|
    ensures forall k :: 0 <= k < |r| ==> r[k] < |s|
  {
    if s == [] then []
    else Places(s[..|s| - 1]) + if Tagged(s[|s| - 1]) then [] else [|s| - 1]
  }

  /** Any set of tagged slots: what is left is not tagged and keeps its order ... */
  lemma {:induction false} UntaggedKeepsOrder(s: seq<Item>, j: nat, k: nat)
    requires j <= k < |Places(s)|
    ensures Untagged(s)[k] == s[Places(s)[k]] && !Tagged(s[Places(s)[k]])
    ensures j < k ==> Places(s)[j] < Places(s)[k]
  {
    var n := |s| - 1;
    if k < |Places(s[..n])| {
      UntaggedKeepsOrder(s[..n], j, k);
    }
  }

  /** ... and nothing else is lost. */
  lemma {:induction false} UntaggedLosesNothing(s: seq<Item>, i: nat)
    requires i < |s|
    ensures i in Places(s) <==> !Tagged(s[i])
  {
    var n := |s| - 1;
    if i < n {
      UntaggedLosesNothing(s[..n], i);
    } else {
      assert forall x :: x in Places(s[..n]) ==> x < n;
    }
  }

  /** The slots with position i marked free. */
  function WithTag(s: seq<Item>, i: nat): seq<Item>
    requires i < |s|
  {
    s[i := s[i].(events := FREE_TAG)]
  }

  /** What a tagged slot holds besides the tag does not matter. */
  lemma {:induction false} SameTags(a: seq<Item>, b: seq<Item>, i: nat)
    requires i < |a| == |b| && Tagged(a[i]) && Tagged(b[i])
    requires forall k :: 0 <= k < |a| && k != i ==> a[k] == b[k]
    ensures Untagged(a) == Untagged(b)
  {
    var n := |a| - 1;
    if i == n {
      assert a[..n] == b[..n];
    } else {
      SameTags(a[..n], b[..n], i);
    }
  }

  // ----- the poller -----

  class Poller {
    var items: array<Item>
    var next: int
    var count: nat
    var freeList: int
    var len: nat

    /** Items up to `count` are in use and the rest is zero; one slot more than `count` is allocated. */
    ghost predicate Shaped()
      reads this, items
    {
      && items.Length == len
      && count <= len && (count == len ==> len == 0)
      && -1 <= next && (next >= 0 ==> next < len)
      && (forall k :: count <= k < len ==> items[k] == ZERO)
    }

    /** Between calls the free list is empty and every slot in use is live. */
    ghost predicate Valid()
      reads this, items
    {
      && Shaped()
      && freeList == -1
      && (forall k :: 0 <= k < count ==> Live(items[k]))
    }

    ghost function Contents(): (s: seq<Item>)
      requires Shaped()
      reads this, items
    {
      items[..count]
    }

    /** poller_init */
    constructor (length: nat)
      ensures Valid() && Contents() == [] && fresh(items)
    {
      items := new Item[length](_ => ZERO);
      next, count, len, freeList := -1, 0, length, -1;
    }

    /** poller_find_sock_item and poller_find_fd_item: the first slot in use that matches. */
    method FindItem(key: Key) returns (idx: int)
      requires Valid() && key != Fd(0)
      ensures -1 <= idx < count
      ensures idx >= 0 ==> KeyOf(items[idx]) == key && forall j :: 0 <= j < idx ==> KeyOf(items[j]) != key
      ensures idx < 0 ==> forall j :: 0 <= j < count ==> KeyOf(items[j]) != key
    {
      var n := 0;
      while n < count
        invariant n <= count
        invariant forall j :: 0 <= j < n ==> KeyOf(items[j]) != key
      {
        if if key.Sock? then items[n].socket == Handle(key.handle) else items[n].fd == key.fd { return n; }
        n := n + 1;
      }
      return -1;
    }

    /** poller_resize_items */
    method Resize(newLen: nat)
      requires items.Length == len
      modifies this`items, this`len
      ensures len == if newLen < old(len) then old(len) else newLen
      ensures items.Length == len && (items == old(items) || fresh(items))
      ensures items[..old(len)] == old(items[..len])
      ensures forall k :: old(len) <= k < len ==> items[k] == ZERO
    {
      var wanted := if len <= newLen then newLen else len;
      if len == wanted { return; }
      var was, n := items, len;
      var bigger := new Item[wanted](k requires k >= 0 reads was => if k < was.Length then was[k] else ZERO);
      items, len := bigger, wanted;
    }

    /** poller_get_free_item: the head of the free list, or a slot at the end. */
    method GetFreeItem() returns (idx: nat)
      requires Shaped()
      requires 0 <= freeList < count ==> Tagged(items[freeList]) && !items[freeList].socket.Handle?
      modifies this`count, this`freeList, this`items, this`len, items
      ensures Shaped() && (items == old(items) || fresh(items))
      ensures 0 <= old(freeList) < old(count) ==>
        && idx == old(freeList) && count == old(count)
        && freeList == old(if items[freeList].socket.Slot? then items[freeList].socket.index else -1)
        && Contents() == old(Contents())[idx := ZERO]
      ensures !(0 <= old(freeList) < old(count)) ==>
        idx == old(count) && count == idx + 1 && freeList == old(freeList) && Contents() == old(Contents()) + [ZERO]
    {
      idx := if freeList >= 0 then freeList else 0;
      if freeList >= 0 && freeList < count {
        var curr := items[idx];
        assert Tagged(curr);
        freeList := if curr.socket != Null then curr.socket.index else -1;
        items[idx] := ZERO;
        return;
      }
      idx := count;
      count := count + 1;
      ghost var was := old(items[..len]);
      if count >= len {
        Resize(len + 10);
        assert items[..old(len)] == was;
      }
      assert items[idx] == ZERO;
      assert items[..count] == old(Contents()) + [ZERO];
    }

    /** poller_compact_items: moves every live slot down over the tagged ones, in place, and zeroes the rest. */
    method Compact()
      requires Shaped()
      modifies this`count, this`freeList, items
      ensures Shaped() && freeList < 0
      ensures old(freeList) < 0 ==> count == old(count) && freeList == old(freeList) && items[..] == old(items[..])
      ensures old(freeList) >= 0 ==> freeList == -1 && Contents() == Untagged(old(Contents()))
    {
      if freeList < 0 { return; }
      var free := FirstFree();
      UntaggedAll(items[..free]);
      var top := Slide(free, count);
      Clear(top, count);
      count := top;
      freeList := -1;
    }

    /** The first loop of poller_compact_items. */
    method FirstFree() returns (next: nat)
      requires count <= items.Length
      ensures next <= count && (next < count ==> Tagged(items[next]))
      ensures forall k :: 0 <= k < next ==> !Tagged(items[k])
    {
      next := 0;
      while next < count && !Tagged(items[next])
        invariant next <= count
        invariant forall k :: 0 <= k < next ==> !Tagged(items[k])
      {
        next := next + 1;
      }
    }

    /** The second loop of poller_compact_items: from the first free slot on, live slots move down. */
    method Slide(free: nat, oldCount: nat) returns (top: nat)
      requires free <= oldCount <= items.Length
      requires free < oldCount ==> Tagged(items[free])
      requires Untagged(items[..free]) == items[..free]
      modifies items
      ensures top <= oldCount && items[..top] == Untagged(old(items[..oldCount]))
      ensures forall k :: oldCount <= k < items.Length ==> items[k] == old(items[k])
    {
      ghost var was := items[..];
      top := free;
      if free == oldCount { return; }
      UntaggedSnoc(was, free);
      var next := free + 1;
      while next < oldCount
        invariant top < next <= oldCount
        invariant items[..top] == Untagged(was[..next])
        invariant forall k :: next <= k < items.Length ==> items[k] == was[k]
      {
        UntaggedSnoc(was, next);
        if !Tagged(items[next]) {
          MoveDown(next, top);
          top := top + 1;
        }
        next := next + 1;
      }
      assert was[..oldCount] == old(items[..oldCount]);
    }

    /** One live slot moves down. */
    method MoveDown(next: nat, top: nat)
      requires top < next < items.Length
      modifies items
      ensures items[..top + 1] == old(items[..top]) + [old(items[next])]
      ensures forall k :: top < k < items.Length ==> items[k] == old(items[k])
    {
      items[top] := items[next];
    }

    /** memset of the slots from lo up to hi. */
    method Clear(lo: nat, hi: nat)
      requires lo <= hi <= items.Length
      modifies items
      ensures items[..lo] == old(items[..lo])
      ensures forall k :: lo <= k < items.Length ==> items[k] == if k < hi then ZERO else old(items[k])
    {
      for k := lo to hi
        invariant items[..lo] == old(items[..lo])
        invariant forall j :: lo <= j < items.Length ==> items[j] == if j < k then ZERO else old(items[j])
      {
        items[k] := ZERO;
      }
    }

    /** poller_remove_item: tags the slot and squeezes out every tagged one. */
    method RemoveItem(idx: nat)
      requires Shaped()
      modifies this`count, this`freeList, items
      ensures Shaped()
      ensures idx >= old(count) ==> Contents() == old(Contents()) && freeList == old(freeList)
      ensures idx < old(count) ==> freeList == -1 && Contents() == Untagged(WithTag(old(Contents()), idx))
    {
      if idx >= count || count == 0 { return; }
      ghost var was := Contents();
      items[idx] := items[idx].(
        socket := if freeList >= 0 && freeList < count then Slot(freeList) else Null,
        events := FREE_TAG, revents := 0);
      freeList := idx;
      SameTags(Contents(), WithTag(was, idx), idx);
      Compact();
    }

    /** Removing from a poller without free slots takes out exactly that item. */
    method RemoveLive(idx: nat)
      requires Valid() && idx < count
      modifies this`count, this`freeList, items
      ensures Valid() && Contents() == Drop(old(Contents()), idx)
    {
      ghost var was := Contents();
      UntaggedButOne(WithTag(was, idx), idx);
      RemoveItem(idx);
      assert Contents() == Drop(was, idx);
      assert forall k :: 0 <= k < count ==> Live(Contents()[k]);
    }

    /** The fields of a slot are written; its revents stay. */
    method Fill(idx: nat, key: Key, events: int)
      requires Shaped() && freeList == -1 && idx < count && key != Fd(0) && ToShort(events) != FREE_TAG
      requires forall k :: 0 <= k < count && k != idx ==> Live(items[k])
      modifies items
      ensures Valid()
      ensures Contents() ==
        old(Contents())[idx := Item(SocketOf(key), FdOf(key), ToShort(events), old(items[idx]).revents)]
    {
      ghost var was := Contents();
      items[idx] := items[idx].(socket := SocketOf(key), fd := FdOf(key), events := ToShort(events));
      assert Live(items[idx]);
      assert forall k :: 0 <= k < count && k != idx ==> items[k] == was[k];
    }

    /** luazmq_plr_add */
    method Add(key: Key, events: int) returns (idx: nat)
      requires Valid() && key != Fd(0) && ToShort(events) != FREE_TAG
      modifies this`count, this`freeList, this`items, this`len, items
      ensures Valid() && (items == old(items) || fresh(items))
      ensures idx == |old(Contents())|
      ensures Contents() == old(Contents()) + [Item(SocketOf(key), FdOf(key), ToShort(events), 0)]
    {
      idx := GetFreeItem();
      Fill(idx, key, events);
    }

    /** luazmq_plr_modify: changes the first item of a socket, appends one, or removes the first item of the key when
        there are no events. */
    method Modify(key: Key, events: int) returns (idx: int)
      requires Valid() && key != Fd(0) && ToShort(events) != FREE_TAG && (key.Sock? || ToShort(events) == 0)
      modifies this`count, this`freeList, this`items, this`len, items
      ensures Valid() && (items == old(items) || fresh(items))
      ensures old(First(this, key, idx)) || ((idx == |old(Contents())| || idx == -1) && old(Absent(this, key)))
      ensures if ToShort(events) != 0 then idx >= 0 else idx < |old(Contents())|
      ensures ToShort(events) != 0 ==>
        Contents() == (if idx < |old(Contents())| then
                         old(Contents())[idx := old(Contents())[idx].(events := ToShort(events))]
                       else old(Contents()) + [Item(SocketOf(key), 0, ToShort(events), 0)])
      ensures ToShort(events) == 0 ==>
        Contents() == (if idx >= 0 then Drop(old(Contents()), idx) else old(Contents()))
    {
      idx := FindItem(key);
      if ToShort(events) != 0 {
        if idx < 0 { idx := GetFreeItem(); }
        Fill(idx, key, events);
      } else if idx >= 0 {
        RemoveLive(idx);
      }
    }

    /** luazmq_plr_remove */
    method Remove(key: Key) returns (idx: int)
      requires Valid() && key != Fd(0)
      modifies this`count, this`freeList, items
      ensures Valid()
      ensures old(First(this, key, idx)) || (idx == -1 && old(Absent(this, key)))
      ensures Contents() == if idx >= 0 then Drop(old(Contents()), idx) else old(Contents())
    {
      idx := FindItem(key);
      if idx >= 0 { RemoveLive(idx); }
    }

    /** poller_poll and luazmq_plr_poll: squeezes out free slots, asks zmq_poll, and sets the cursor. */
    method Poll(ready: nat -> int, fails: bool) returns (err: int)
      requires Shaped()
      modifies this`count, this`freeList, this`next, items
      ensures Shaped() && freeList < 0 && (old(Valid()) ==> Valid())
      ensures var was := if old(freeList) >= 0 then Untagged(old(Contents())) else old(Contents());
        && Contents() == WithRevents(was, ready)
        && err == (if fails then -1 else ReadyCount(Contents()))
        && next == (if err > 0 then |was| - 1 else -1)
    {
      if freeList >= 0 { Compact(); }
      err := ZmqPoll(ready);
      if fails { err := -1; }
      next := if err > 0 then count - 1 else -1;
    }

    /** zmq_poll as an oracle: writes the revents of every slot in use and counts the ready ones. */
    method ZmqPoll(ready: nat -> int) returns (n: nat)
      requires Shaped()
      modifies items
      ensures Shaped() && (old(Valid()) ==> Valid())
      ensures Contents() == WithRevents(old(Contents()), ready) && n == ReadyCount(Contents())
    {
      ghost var was := Contents();
      n := 0;
      for k := 0 to count
        invariant forall j :: 0 <= j < len ==> items[j] == if j < k then was[j].(revents := ready(j)) else old(items[j])
        invariant n == ReadyCount(items[..k])
      {
        items[k] := items[k].(revents := ready(k));
        assert items[..k + 1][..k] == items[..k];
        if items[k].revents != 0 { n := n + 1; }
      }
      assert Contents() == WithRevents(was, ready);
    }

    /** poller_next_revents and luazmq_plr_next_revents_idx: the next ready slot at or below the cursor.  After
        removals the cursor may point past the slots in use; what it finds there is zero. */
    method NextRevents() returns (idx: int, revents: int)
      requires Shaped()
      modifies this`next
      ensures Shaped() && (old(Valid()) ==> Valid())
      ensures -1 <= idx < count && idx <= old(next)
      ensures idx >= 0 ==> items[idx].revents != 0 && revents == items[idx].revents && next == idx - 1
      ensures idx < 0 ==> revents == 0 && next == -1
      ensures forall j :: idx < j <= old(next) ==> items[j].revents == 0
    {
      idx, revents := next, 0;
      if idx < 0 { return; }
      while idx >= 0
        invariant -1 <= idx <= next
        invariant forall j :: idx < j <= next ==> items[j].revents == 0
      {
        if items[idx].revents != 0 {
          revents := items[idx].revents;
          next := idx - 1;
          return;
        }
        idx := idx - 1;
      }
      next := -1;
    }
  }

  function WithRevents(s: seq<Item>, ready: nat -> int): (r: seq<Item>)
    ensures |r| == |s|
    ensures forall k {:trigger r[k]} :: 0 <= k < |s| ==> r[k] == s[k].(revents := ready(k))
  {
    seq(|s|, k requires 0 <= k < |s| => s[k].(revents := ready(k)))
  }

  function ReadyCount(s: seq<Item>): nat {
    if s == [] then 0 else ReadyCount(s[..|s| - 1]) + if s[|s| - 1].revents != 0 then 1 else 0
  }

  /** Position idx is the first that holds `key`. */
  ghost predicate First(p: Poller, key: Key, idx: int)
    reads p, p.items
    requires p.Shaped()
  {
    && 0 <= idx < p.count && KeyOf(p.items[idx]) == key
    && forall j :: 0 <= j < idx ==> KeyOf(p.items[j]) != key
  }

  ghost predicate Absent(p: Poller, key: Key)
    reads p, p.items
    requires p.Shaped()
  {
    forall j :: 0 <= j < p.count ==> KeyOf(p.items[j]) != key
  }
}
