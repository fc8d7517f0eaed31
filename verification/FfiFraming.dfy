/** The send and receive loops of the FFI library (src/lua/lzmq/ffi.lua). */
module FfiFraming {
  import opened Bytes
  import opened Framing
  import opened Options
  import opened Pipes

  /** Socket:send_all: all parts but the last with SNDMORE in a loop, and the last after it. */
  method SendAll(p: Pipe, table: seq<String>, flags: int, i: int, n: Option<int>) returns (reply: Reply)
    modifies p`sent, p`sends
    ensures var d := FfiSendAll(p.accepts, old(p.sends), table, flags, i, n);
      reply == d.reply && p.sends == old(p.sends) + d.sends && p.sent == old(p.sent) + Left(d, flags == SNDMORE)
  {
    var end := if n.Some? then n.value else |table|;
    if end < i { return Raised; }
    if flags != 0 && flags != SNDMORE { return Unsupported; }
    reply := SendParts(p, table, flags, i, end);
  }

  method SendParts(p: Pipe, table: seq<String>, flags: int, first: int, n: int) returns (reply: Reply)
    requires first <= n
    modifies p`sent, p`sends
    ensures Job(p.accepts, old(p.sends), table, first, n, flags == SNDMORE, old(p.sent)).Done(p.sends, p.sent, reply)
  {
    ghost var job := Job(p.accepts, p.sends, table, first, n, flags == SNDMORE, p.sent);
    var i := first;
    job.Start();
    while i <= n - 1
      invariant first <= i <= n
      invariant job.After(i - first, p.sends, p.sent)
      decreases n - i
    {
      reply := SendPart(p, table, i, true, job);
      if !reply.Pass? { return; }
      i := i + 1;
    }
    reply := SendPart(p, table, n, flags == SNDMORE, job);
    if reply.Pass? { job.Passes(Count(first, n), p.sends, p.sent); }
  }

  /** Socket:sendx and Socket:sendx_more */
  method Sendx(p: Pipe, parts: seq<String>, more: bool) returns (reply: Reply)
    modifies p`sent, p`sends
    ensures parts == [] ==> reply == Raised && p.sent == old(p.sent) && p.sends == old(p.sends)
    ensures parts != [] ==> var d := Deliver(p.accepts, old(p.sends), parts, 1, |parts|);
      reply == d.reply && p.sends == old(p.sends) + d.sends && p.sent == old(p.sent) + Left(d, more)
  {
    reply := SendAll(p, parts, if more then SNDMORE else 0, 1, Some(|parts|));
  }

  /** Socket:sendv and Socket:sendv_more */
  method Sendv(p: Pipe, parts: seq<String>, more: bool) returns (reply: Reply)
    modifies p`sent, p`sends
    ensures p.sends == old(p.sends) + 1
    ensures reply == if p.accepts(old(p.sends)) then Pass else Refused
    ensures p.sent == old(p.sent) + (if reply.Pass? then Frames(Joined(parts, more)) else [])
  {
    var ok := p.MsgSend(Concat(parts), more);
    return if ok then Pass else Refused;
  }

  /** Socket:recv_all: the parts of one message; those received before an error are dropped. */
  method RecvAll(p: Pipe) returns (r: Option<seq<String>>)
    requires p.Valid()
    modifies p`taken, p`receives
    ensures p.Valid() && old(p.taken) <= p.taken && old(p.receives) < p.receives
    ensures r.Some? ==> Complete(p.sent, old(p.taken)) && p.taken == EndFrom(p.sent, old(p.taken))
    ensures r.Some? ==> r.value == Span(p.sent, old(p.taken), p.taken)
    ensures r.None? ==> Open(p.sent, old(p.taken), p.taken)
    ensures r.None? ==> !p.delivers(p.receives - 1) || (p.taken == |p.sent| && !Complete(p.sent, old(p.taken)))
  {
    var res: seq<String> := [];
    ghost var i := p.taken;
    assert Span(p.sent, i, i) == [];
    while true
      invariant p.Valid() && i <= p.taken && Open(p.sent, i, p.taken)
      invariant res == Span(p.sent, i, p.taken)
      invariant old(p.receives) <= p.receives
      decreases |p.sent| - p.taken
    {
      var frame := p.MsgRecv();
      if frame.None? {
        if p.taken == |p.sent| { EndOfOpen(p.sent, i); }
        return None;
      }
      res := res + [frame.value.data];
      if !frame.value.more {
        EndIs(p.sent, i, p.taken);
        return Some(res);
      }
    }
  }
}
