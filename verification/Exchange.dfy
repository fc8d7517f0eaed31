/** Whole exchanges: any run of the send operations of either library on one socket, and then calls of recv_all. */
module Exchange {
  import opened Bytes
  import opened Framing
  import opened Options
  import opened Pipes
  import CFraming
  import FfiFraming

  /** A call of a send operation; `ffi` says of which library. */
  datatype Send =
    | All(ffi: bool, table: seq<String>, flags: int, i: int, n: Option<int>)
    | Args(ffi: bool, parts: seq<String>, more: bool)
    | Joint(ffi: bool, parts: seq<String>, more: bool)

  /** What a delivery leaves, as a write: with MORE unless everything went out without it. */
  function Remaining(d: Delivery, last: bool): Write {
    Multipart(d.parts, if d.reply.Pass? then last else true)
  }

  /** What a call leaves in the queue, when zmq_msg_send was called `at` times before. */
  function Wrote(accepts: nat -> bool, at: nat, s: Send): Write {
    match s
    case All(ffi, table, flags, i, n) =>
      Remaining(if ffi then FfiSendAll(accepts, at, table, flags, i, n) else CSendAll(accepts, at, table, flags, i, n),
                flags == SNDMORE)
    case Args(ffi, parts, more) =>
      if ffi && parts == [] then Multipart([], true) else Remaining(Deliver(accepts, at, parts, 1, |parts|), more)
    case Joint(_, parts, more) => if accepts(at) then Joined(parts, more) else Multipart([], true)
  }

  /** How often a call calls zmq_msg_send. */
  function Tries(accepts: nat -> bool, at: nat, s: Send): nat {
    match s
    case All(ffi, table, flags, i, n) =>
      if ffi then FfiSendAll(accepts, at, table, flags, i, n).sends else CSendAll(accepts, at, table, flags, i, n).sends
    case Args(ffi, parts, _) => if ffi && parts == [] then 0 else Deliver(accepts, at, parts, 1, |parts|).sends
    case Joint(_, _, _) => 1
  }

  /** How often zmq_msg_send was called before the k-th call. */
  function TriesBefore(accepts: nat -> bool, at: nat, sends: seq<Send>, k: nat): nat
    requires k <= |sends|
  {
    if k == 0 then at
    else
      var before := TriesBefore(accepts, at, sends, k - 1);
      before + Tries(accepts, before, sends[k - 1])
  }

  function WrittenBy(accepts: nat -> bool, at: nat, sends: seq<Send>, k: nat): Write
    requires k < |sends|
  {
    Wrote(accepts, TriesBefore(accepts, at, sends, k), sends[k])
  }

  /** What the first k calls leave, one write each. */
  function AllWritten(accepts: nat -> bool, at: nat, sends: seq<Send>, k: nat): seq<Write>
    requires k <= |sends|
  {
    if k == 0 then [] else AllWritten(accepts, at, sends, k - 1) + [WrittenBy(accepts, at, sends, k - 1)]
  }

  /** One call. */
  method Perform(p: Pipe, s: Send)
    modifies p`sent, p`sends
    ensures p.sent == old(p.sent) + Frames(Wrote(p.accepts, old(p.sends), s))
    ensures p.sends == old(p.sends) + Tries(p.accepts, old(p.sends), s)
  {
    var reply;
    match s {
      case All(true, table, flags, i, n) => reply := FfiFraming.SendAll(p, table, flags, i, n);
      case All(false, table, flags, i, n) => reply := CFraming.SendAll(p, table, flags, i, n);
      case Args(true, parts, more) => reply := FfiFraming.Sendx(p, parts, more);
      case Args(false, parts, more) => reply := CFraming.Sendx(p, parts, more);
      case Joint(true, parts, more) => reply := FfiFraming.Sendv(p, parts, more);
      case Joint(false, parts, more) => reply := CFraming.Sendv(p, parts, more);
    }
  }

  /** A run of calls: the queue holds what they wrote. */
  method Sending(p: Pipe, sends: seq<Send>)
    requires p.taken == |p.sent|
    modifies p`sent, p`sends
    ensures p.Valid() && Holds(p.sent, p.taken, AllWritten(p.accepts, old(p.sends), sends, |sends|), 0)
  {
    ghost var at := p.sends;
    var k := 0;
    while k < |sends|
      invariant k <= |sends| && p.Valid() && Holds(p.sent, p.taken, AllWritten(p.accepts, at, sends, k), 0)
      invariant p.sends == TriesBefore(p.accepts, at, sends, k)
    {
      PerformNext(p, sends, k, at);
      k := k + 1;
    }
  }

  /** The k-th call of a run. */
  method PerformNext(p: Pipe, sends: seq<Send>, k: nat, ghost at: nat)
    requires k < |sends| && p.sends == TriesBefore(p.accepts, at, sends, k)
    requires p.Valid() && Holds(p.sent, p.taken, AllWritten(p.accepts, at, sends, k), 0)
    modifies p`sent, p`sends
    ensures p.Valid() && Holds(p.sent, p.taken, AllWritten(p.accepts, at, sends, k + 1), 0)
    ensures p.sends == TriesBefore(p.accepts, at, sends, k + 1)
  {
    WriteExtends(p.sent, p.taken, AllWritten(p.accepts, at, sends, k), WrittenBy(p.accepts, at, sends, k));
    Perform(p, sends[k]);
  }

  /** One call of recv_all of either library. */
  method Receive(p: Pipe, ffi: bool) returns (r: Option<seq<String>>)
    requires p.Valid()
    modifies p`taken, p`receives
    ensures p.Valid() && old(p.taken) <= p.taken && old(p.receives) < p.receives
    ensures r.Some? ==> Complete(p.sent, old(p.taken)) && p.taken == EndFrom(p.sent, old(p.taken))
    ensures r.Some? ==> r.value == Span(p.sent, old(p.taken), p.taken)
    ensures r.None? ==> !p.delivers(p.receives - 1) || (p.taken == |p.sent| && !Complete(p.sent, old(p.taken)))
  {
    if ffi {
      r := FfiFraming.RecvAll(p);
    } else {
      var table, ok := CFraming.RecvAll(p);
      r := if ok then Some(table) else None;
    }
  }

  /** Calls of recv_all, the k-th of the library that `ffi` says, until one finds no whole message. */
  method Receiving(p: Pipe, ffi: nat -> bool) returns (messages: seq<seq<String>>)
    requires p.Valid() && forall k :: p.receives <= k ==> p.delivers(k)
    modifies p`taken, p`receives
    ensures p.Valid() && messages == Read(p.sent, old(p.taken)).messages
    ensures Read(p.sent, old(p.taken)).rest <= p.taken == |p.sent|
  {
    messages := [];
    ghost var i := p.taken;
    var k, ok := 0, true;
    while ok
      invariant p.Valid() && i <= p.taken && old(p.receives) <= p.receives
      invariant ok ==> Read(p.sent, i) == Reading(messages + Read(p.sent, p.taken).messages, Read(p.sent, p.taken).rest)
      invariant !ok ==> messages == Read(p.sent, i).messages && Read(p.sent, i).rest <= p.taken == |p.sent|
      decreases ok, |p.sent| - p.taken
    {
      ghost var at, was := p.taken, messages;
      var r := Receive(p, ffi(k));
      k, ok := k + 1, r.Some?;
      if ok {
        assert Read(p.sent, at).messages == [r.value] + Read(p.sent, p.taken).messages;
        messages := messages + [r.value];
        assert was + ([r.value] + Read(p.sent, p.taken).messages) == messages + Read(p.sent, p.taken).messages;
      } else {
        assert Read(p.sent, at) == Reading([], at);
        assert was + [] == was;
      }
    }
  }

  /** Whatever is sent, by whichever operations of either library and with whatever refusals, successive calls of
      recv_all, again of either, get exactly the messages written; the parts they do not return are those of the message
      under way. */
  method SendThenReceive(p: Pipe, sends: seq<Send>, ffi: nat -> bool) returns (messages: seq<seq<String>>)
    requires p.taken == |p.sent| && forall k :: p.receives <= k ==> p.delivers(k)
    modifies p`sent, p`sends, p`taken, p`receives
    ensures messages == Written([], AllWritten(p.accepts, old(p.sends), sends, |sends|), 0)
    ensures p.Valid() && old(p.taken) <= p.taken == |p.sent|
    ensures var rest := Read(p.sent, old(p.taken)).rest;
      Span(p.sent, rest, |p.sent|) == Pending([], AllWritten(p.accepts, old(p.sends), sends, |sends|), 0)
  {
    ghost var at := p.sends;
    Sending(p, sends);
    WritesAreReadBack(p.sent, p.taken, AllWritten(p.accepts, at, sends, |sends|));
    messages := Receiving(p, ffi);
  }
}
