/** Contexts and sockets as objects (src/zcontext.c, src/zsocket.c): each operation does to them what it does to
    the values of module Lifecycle. */
module Contexts {
  import opened Options
  import L = Lifecycle

  ghost function IdsOf(list: seq<Socket>): (r: seq<nat>)
    ensures |r| == |list|
    ensures forall k {:trigger r[k]} :: 0 <= k < |r| ==> r[k] == list[k].id
  {
    seq(|list|, k requires 0 <= k < |list| => list[k].id)
  }

  ghost function IdSet(socks: set<Socket>): (r: set<nat>)
    ensures forall s :: s in socks ==> s.id in r
    ensures forall i :: i in r ==> exists s :: s in socks && s.id == i
  {
    set s | s in socks :: s.id
  }

  lemma {:induction false} SameIds(list: seq<Socket>, table: set<Socket>)
    requires forall s :: s in list <==> s in table
    ensures (set i | i in IdsOf(list)) == IdSet(table)
  {
    forall i | i in IdSet(table)
      ensures i in IdsOf(list)
    {
      var s :| s in table && s.id == i;
      var k :| 0 <= k < |list| && list[k] == s;
      assert IdsOf(list)[k] == i;
    }
  }

  ghost function IdsOfOption(list: Option<seq<Socket>>): Option<seq<nat>> {
    if list.None? then None else Some(IdsOf(list.value))
  }

  class Socket {
    /** Which of the sockets of its context this is. */
    ghost const id: nat
    const context: Context
    var closed: bool
    /** The on_close callback: the sockets that it closes. */
    var onClose: Option<seq<Socket>>
    /** How often a callback was run. */
    ghost var runs: nat

    ghost function Value(): L.Sock
      reads this
    {
      L.Sock(closed, IdsOfOption(onClose), runs)
    }

    constructor (context: Context, ghost id: nat)
      ensures this.context == context && this.id == id && Value() == L.Sock(false, None, 0)
    {
      this.context, this.id := context, id;
      closed, onClose, runs := false, None, 0;
    }

    ghost predicate Valid()
      reads this, context, context.sockets
    {
      context.Valid() && id < |context.sockets| && context.sockets[id] == this
    }

    /** luazmq_skt_destroy, while the closes of the sockets in `busy` are under way. */
    method Close(busy: set<Socket>, ghost under: set<nat>)
      requires Valid() && context.AreThese(busy, under) && this !in busy
      modifies context, context.sockets
      ensures context.Valid() && context.sockets == old(context.sockets)
      ensures context.State() == L.Close(old(context.State()), id, under)
      decreases L.Ids(|context.sockets|) - under, 0
    {
      if closed { return; }
      BeforeClose(busy, under);
      ghost var now := context.State();
      context.socketCount := context.socketCount - 1;
      closed := true;
      context.Changed(id, now.socks);
    }

    /** luazmq_skt_before_close: the callback is dropped after it has run. */
    method BeforeClose(busy: set<Socket>, ghost under: set<nat>)
      requires Valid() && context.AreThese(busy, under) && this !in busy && !closed
      modifies context, context.sockets
      ensures context.Valid() && context.sockets == old(context.sockets)
      ensures context.State() == L.BeforeClose(old(context.State()), id, under)
      decreases L.Ids(|context.sockets|) - (under + {id}), |if onClose.Some? then onClose.value else []| + 2
    {
      if onClose.None? { return; }
      context.CloseEach(onClose.value, busy + {this}, under + {id});
      ghost var now := context.State();
      onClose := None;
      runs := runs + 1;
      context.Changed(id, now.socks);
    }

    /** on_close */
    method SetOnClose(callback: Option<seq<Socket>>) returns (r: L.Reply)
      requires Valid() && (callback.Some? ==> context.Knows(callback.value))
      modifies this
      ensures context.Valid()
      ensures L.Result(context.State(), r) == L.OnClose(old(context.State()), id, IdsOfOption(callback))
    {
      if closed { return L.Raised; }
      ghost var now := context.State();
      onClose := callback;
      context.Changed(id, now.socks);
      return L.Passed;
    }
  }

  class Context {
    const owned: bool
    var socketCount: int
    var closed: bool
    var shutDown: bool
    /** The keys of the autoclose table. */
    var autoclose: Option<set<Socket>>
    /** Every socket ever made. */
    ghost var sockets: seq<Socket>

    ghost predicate Knows(list: seq<Socket>)
      reads this
    {
      forall k :: 0 <= k < |list| ==> list[k].id < |sockets| && sockets[list[k].id] == list[k]
    }

    ghost predicate AreThese(busy: set<Socket>, under: set<nat>)
      reads this
    {
      forall i :: 0 <= i < |sockets| ==> (sockets[i] in busy <==> i in under)
    }

    ghost predicate Valid()
      reads this, sockets
    {
      && (forall i :: 0 <= i < |sockets| ==> sockets[i].id == i && sockets[i].context == this)
      && (forall i :: 0 <= i < |sockets| && sockets[i].onClose.Some? ==> Knows(sockets[i].onClose.value))
      && (autoclose.Some? ==> forall s :: s in autoclose.value ==> s.id < |sockets| && sockets[s.id] == s)
    }

    ghost function Values(): (r: seq<L.Sock>)
      reads this, sockets
      ensures |r| == |sockets|
      ensures forall i {:trigger r[i]} :: 0 <= i < |r| ==> r[i] == sockets[i].Value()
    {
      seq(|sockets|, i requires 0 <= i < |sockets| reads this, sockets => sockets[i].Value())
    }

    ghost function Table(): Option<set<nat>>
      reads this
    {
      if autoclose.None? then None else Some(IdSet(autoclose.value))
    }

    ghost function State(): L.Ctx
      reads this, sockets
    {
      L.Ctx(Values(), socketCount, closed, shutDown, Table(), owned)
    }

    constructor (owned: bool)
      ensures Valid() && State() == L.Fresh(owned) && sockets == []
    {
      this.owned := owned;
      socketCount, closed, shutDown, autoclose, sockets := 0, false, false, None, [];
    }

    /** Only the socket with this id has changed. */
    lemma {:induction false} Changed(id: nat, was: seq<L.Sock>)
      requires id < |sockets| == |was|
      requires forall i :: 0 <= i < |sockets| && i != id ==> sockets[i].Value() == was[i]
      ensures Values() == was[id := sockets[id].Value()]
    {
    }

    /** Close each of these, as a callback does, except those whose close is under way. */
    method CloseEach(list: seq<Socket>, busy: set<Socket>, ghost under: set<nat>)
      requires Valid() && Knows(list) && AreThese(busy, under)
      modifies this, sockets
      ensures Valid() && sockets == old(sockets)
      ensures State() == L.CloseAll(old(State()), IdsOf(list), 0, under)
      decreases L.Ids(|sockets|) - under, |list| + 1
    {
      var k := 0;
      while k < |list|
        invariant k <= |list| && Valid() && sockets == old(sockets)
        invariant L.CloseAll(State(), IdsOf(list), k, under) == L.CloseAll(old(State()), IdsOf(list), 0, under)
      {
        if list[k] !in busy { list[k].Close(busy, under); }
        k := k + 1;
      }
    }

    // ----- making sockets -----

    /** luazmq_ctx_socket: zmq_socket and every setting are oracles. */
    method NewSocket(made: bool, options: seq<L.Setting>, bind: L.Setting, connect: L.Setting)
      returns (r: L.Reply, s: Option<Socket>)
      requires Valid()
      modifies this, sockets
      ensures Valid() && (r.Passed? <==> s.Some?)
      ensures s.Some? ==> s.value.Valid() && fresh(s.value) && s.value.id == |old(sockets)|
      ensures L.Result(State(), r) == L.Create(old(State()), made, options + [bind, connect])
    {
      s := None;
      if closed || shutDown { return L.Raised, None; }
      if !made { return L.Failed, None; }
      ghost var was := State();
      var socket := new Socket(this, |sockets|);
      sockets := sockets + [socket];
      socketCount := socketCount + 1;
      assert State() == L.Created(was);
      var ok := Apply(socket, options);
      if ok { ok := Apply(socket, [bind]); }
      if ok { ok := Apply(socket, [connect]); }
      if !ok { return L.Failed, None; }
      Autoclose(socket);
      return L.Passed, Some(socket);
    }

    /** apply_options and apply_bind_connect: the socket is closed at the first setting that is refused. */
    method Apply(socket: Socket, settings: seq<L.Setting>) returns (ok: bool)
      requires socket.context == this && socket.Valid()
      modifies this, sockets
      ensures socket.Valid() && sockets == old(sockets)
      ensures ok <==> L.Refused !in settings
      ensures State() == if ok then old(State()) else L.Close(old(State()), socket.id, {})
    {
      var k := 0;
      while k < |settings|
        invariant k <= |settings| && L.Refused !in settings[..k]
      {
        if settings[k].Refused? {
          socket.Close({}, {});
          return false;
        }
        k := k + 1;
      }
      return true;
    }

    /** luazmq_ctx_autoclose */
    method Autoclose(socket: Socket)
      requires socket.context == this && socket.Valid()
      modifies this
      ensures Valid() && sockets == old(sockets) && State() == L.Listed(old(State()), socket.id)
    {
      if autoclose.None? { autoclose := Some({}); }
      autoclose := Some(autoclose.value + {socket});
      assert IdSet(autoclose.value) == (if old(autoclose).Some? then IdSet(old(autoclose).value) else {}) + {socket.id};
    }

    // ----- the end -----

    /** luazmq_ctx_close_sockets: lua_next gives the keys of the table in an order of its own. */
    method CloseSockets() returns (ghost order: seq<nat>)
      requires Valid()
      modifies this, sockets
      ensures Valid() && sockets == old(sockets)
      ensures L.Traverses(old(State()), order) && State() == L.CloseSockets(old(State()), order)
    {
      order := [];
      if autoclose.None? { return; }
      var list := Keys(autoclose.value);
      order := IdsOf(list);
      SameIds(list, autoclose.value);
      CloseEach(list, {}, {});
      autoclose := None;
    }

    /** The keys of a table, in any order. */
    static method Keys(table: set<Socket>) returns (list: seq<Socket>)
      ensures forall s :: s in list <==> s in table
    {
      list := [];
      var left := table;
      while left != {}
        invariant left <= table && forall s :: s in list <==> s in table - left
        decreases left
      {
        var s :| s in left;
        list := list + [s];
        left := left - {s};
      }
    }

    /** luazmq_ctx_shutdown; zmq_ctx_shutdown is an oracle. */
    method Shutdown(ok: bool) returns (r: L.Reply, ghost order: seq<nat>)
      requires Valid()
      modifies this, sockets
      ensures Valid() && L.Result(State(), r) == L.Shutdown(old(State()), ok, order)
      ensures r.Raised? || L.Traverses(old(State()), order)
    {
      if closed || shutDown { return L.Raised, []; }
      order := CloseSockets();
      if owned {
        if !ok { return L.Failed, order; }
      }
      shutDown := true;
      return L.Passed, order;
    }

    /** luazmq_ctx_destroy; zmq_ctx_term is an oracle. */
    method Destroy(ok: bool) returns (r: L.Reply, ghost order: seq<nat>)
      requires Valid()
      modifies this, sockets
      ensures Valid() && L.Result(State(), r) == L.Destroy(old(State()), ok, order)
      ensures old(closed) || L.Traverses(old(State()), order)
    {
      order := [];
      if !closed {
        order := CloseSockets();
        if owned {
          if !ok { return L.Failed, order; }
        }
        closed := true;
      }
      return L.Passed, order;
    }
  }
}
