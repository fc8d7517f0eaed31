/** What a poller is, on values: a sequence of registrations, and the order in which ready ones are served.
    The C stack (src/poller.c, src/zpoller.c, src/lua/lzmq/poller.lua) keeps exactly this sequence. */
module PollerModel {
  import opened Options

  /** What is registered: a ZeroMQ socket by its handle, or a file descriptor. */
  datatype Key = Sock(handle: nat) | Fd(fd: int)

  /** A Lua function, by its name. */
  datatype Callback = Callback(name: nat)

  datatype Entry = Entry(key: Key, events: int, revents: int, cb: Callback)

  datatype Op =
    | Add(key: Key, events: int, cb: Callback)
    | Modify(key: Key, events: int, change: Option<Callback>)
    | Remove(key: Key)

  /** A Lua integer stored in a C short. */
  function ToShort(x: int): (r: int)
    ensures -0x8000 <= r < 0x8000
    ensures -0x8000 <= x < 0x8000 ==> r == x
  {
    var low := x % 0x1_0000;
    if low < 0x8000 then low else low - 0x1_0000
  }

  /** The two differ by a multiple of 2^16. */
  lemma {:induction false} ToShortIsCongruent(x: int) returns (k: int)
    ensures x - ToShort(x) == k * 0x1_0000
  {
    k := if x % 0x1_0000 < 0x8000 then x / 0x1_0000 else x / 0x1_0000 + 1;
  }

  /** The value that marks a free slot, ((short)0xFFFF). */
  const FREE_TAG: int := -1

  /** The first registration of `key` at or after position k, or -1. */
  function FindFrom(es: seq<Entry>, key: Key, k: nat): (r: int)
    requires k <= |es|
    ensures r == -1 || k <= r < |es|
    ensures r >= 0 ==> es[r].key == key && forall j :: k <= j < r ==> es[j].key != key
    ensures r < 0 ==> forall j :: k <= j < |es| ==> es[j].key != key
    decreases |es| - k
  {
    if k == |es| then -1 else if es[k].key == key then k else FindFrom(es, key, k + 1)
  }

  /** The first registration of `key`, or -1. */
  function Find(es: seq<Entry>, key: Key): int {
    FindFrom(es, key, 0)
  }

  /** What stands at position k once position i is taken out. */
  function Beside<T>(s: seq<T>, i: nat, k: nat): T
    requires i < |s| && k < |s| - 1
  {
    s[if k < i then k else k + 1]
  }

  function Drop<T>(s: seq<T>, i: nat): seq<T>
    requires i < |s|
  {
    seq(|s| - 1, k requires 0 <= k < |s| - 1 => Beside(s, i, k))
  }

  function Append(es: seq<Entry>, key: Key, events: int, cb: Callback): seq<Entry> {
    es + [Entry(key, ToShort(events), 0, cb)]
  }

  function Unregister(es: seq<Entry>, key: Key): seq<Entry> {
    var i := Find(es, key);
    if i < 0 then es else Drop(es, i)
  }

  predicate Removes(op: Op) {
    op.Remove? || (op.Modify? && (op.events == 0 || op.change.None?))
  }

  function Apply(es: seq<Entry>, op: Op): seq<Entry> {
    if Removes(op) then Unregister(es, op.key)
    else if op.Add? then Append(es, op.key, op.events, op.cb)
    else
      var i := Find(es, op.key);
      if i < 0 then Append(es, op.key, op.events, op.change.value)
      else es[i := es[i].(events := ToShort(op.events), cb := op.change.value)]
  }

  function ApplyAll(es: seq<Entry>, ops: seq<Op>): seq<Entry>
    decreases |ops|
  {
    if ops == [] then es else ApplyAll(Apply(es, ops[0]), ops[1..])
  }

  /** What the C stack demands of every call: a descriptor is not 0, the events of a live item are not the free
      tag, and only a socket is modified to have events. */
  predicate Acceptable(op: Op) {
    && op.key != Fd(0)
    && (!Removes(op) ==> ToShort(op.events) != FREE_TAG && (op.Modify? ==> op.key.Sock? || ToShort(op.events) == 0))
  }

  /** And only what is registered is removed, and a modification leaves events. */
  predicate Legal(es: seq<Entry>, op: Op) {
    && Acceptable(op)
    && (Removes(op) ==> Find(es, op.key) >= 0)
    && (op.Modify? && !Removes(op) ==> ToShort(op.events) != 0)
  }

  // ----- one poll -----

  function NextReady(es: seq<Entry>, cursor: int): (r: int)
    requires -1 <= cursor < |es|
    ensures -1 <= r <= cursor
    ensures r >= 0 ==> es[r].revents != 0
    decreases cursor
  {
    if cursor < 0 then -1
    else if es[cursor].revents != 0 then cursor
    else NextReady(es, cursor - 1)
  }

  /** The ready positions up to the cursor, highest first. */
  function ReadyDown(es: seq<Entry>, cursor: int): (r: seq<nat>)
    requires -1 <= cursor < |es|
    ensures forall k :: 0 <= k < |r| ==> r[k] <= cursor && es[r[k]].revents != 0
    decreases cursor
  {
    if cursor < 0 then []
    else if es[cursor].revents != 0 then [cursor] + ReadyDown(es, cursor - 1)
    else ReadyDown(es, cursor - 1)
  }

  /** A callback called with its revents. */
  datatype Served = Served(at: nat, key: Key, revents: int, cb: Callback)

  function Serve(es: seq<Entry>, i: nat): Served
    requires i < |es|
  {
    Served(i, es[i].key, es[i].revents, es[i].cb)
  }

  /** What a callback may do during dispatch: anything legal, but it removes only entries that the cursor has
      passed, the current one included. */
  predicate Allowed(es: seq<Entry>, cursor: int, op: Op) {
    Legal(es, op) && (Removes(op) ==> Find(es, op.key) > cursor)
  }

  /** A callback that keeps to this, given the script it would like to run. */
  function Obey(es: seq<Entry>, cursor: int, ops: seq<Op>): seq<Entry>
    decreases |ops|
  {
    if ops == [] then es
    else Obey(if Allowed(es, cursor, ops[0]) then Apply(es, ops[0]) else es, cursor, ops[1..])
  }

  /** zmq_poll is an oracle: it writes the revents of every slot. */
  function Polled(es: seq<Entry>, ready: nat -> int): (r: seq<Entry>)
    ensures |r| == |es|
    ensures forall k {:trigger r[k]} :: 0 <= k < |es| ==> r[k] == es[k].(revents := ready(k))
  {
    seq(|es|, k requires 0 <= k < |es| => es[k].(revents := ready(k)))
  }
}
