/** The send and receive loops of the C library (src/zsocket.c). */
module CFraming {
  import opened Bytes
  import opened Framing
  import Messages
  import opened Options
  import opened Pipes

  /** send_all: parts i..n of a table; n is the length of the table when it is left out. */
  method SendAll(p: Pipe, table: seq<String>, flags: int, i: int, n: Option<int>) returns (reply: Reply)
    modifies p`sent, p`sends
    ensures var d := CSendAll(p.accepts, old(p.sends), table, flags, i, n);
      reply == d.reply && p.sends == old(p.sends) + d.sends && p.sent == old(p.sent) + Left(d, flags == SNDMORE)
  {
    var end;
    if n.None? {
      end := |table|;
    } else {
      end := n.value;
      if end < i { return Raised; }
    }
    if flags != 0 && flags != SNDMORE { return Unsupported; }
    reply := SendParts(p, table, flags, i, end);
  }

  method SendParts(p: Pipe, table: seq<String>, flags: int, first: int, n: int) returns (reply: Reply)
    modifies p`sent, p`sends
    ensures Job(p.accepts, old(p.sends), table, first, n, flags == SNDMORE, old(p.sent)).Done(p.sends, p.sent, reply)
  {
    ghost var job := Job(p.accepts, p.sends, table, first, n, flags == SNDMORE, p.sent);
    var i := first;
    job.Start();
    while i <= n
      invariant first <= i && (i <= n || i - first == Count(first, n))
      invariant job.After(i - first, p.sends, p.sent)
      decreases n - i
    {
      reply := SendPart(p, table, i, if i == n then flags == SNDMORE else true, job);
      if !reply.Pass? { return; }
      i := i + 1;
    }
    job.Passes(i - first, p.sends, p.sent);
    return Pass;
  }

  /** sendx and sendx_more: the arguments are at stack indices 2 and up, and so is the index of a refused one. */
  method Sendx(p: Pipe, parts: seq<String>, more: bool) returns (reply: Reply)
    modifies p`sent, p`sends
    ensures var d := Deliver(p.accepts, old(p.sends), parts, 1, |parts|);
      && reply == (if d.reply.Failed? then Failed(d.reply.part + 1) else d.reply)
      && p.sends == old(p.sends) + d.sends && p.sent == old(p.sent) + Left(d, more)
  {
    ghost var job := Job(p.accepts, p.sends, parts, 1, |parts|, more, p.sent);
    var n, i := |parts| + 1, 2;
    job.Start();
    while i <= n
      invariant 2 <= i <= n + 1
      invariant job.After(i - 2, p.sends, p.sent)
    {
      ghost var sends, sent := p.sends, p.sent;
      var ok := p.MsgSend(parts[i - 2], if i == n then more else true);
      if !ok {
        job.Fails(i - 2, sends, sent);
        return Failed(i);
      }
      job.Next(i - 2, sends, sent);
      i := i + 1;
    }
    job.Passes(i - 2, p.sends, p.sent);
    return Pass;
  }

  /** sendv and sendv_more: the parts joined into one frame. */
  method Sendv(p: Pipe, parts: seq<String>, more: bool) returns (reply: Reply)
    modifies p`sent, p`sends
    ensures p.sends == old(p.sends) + 1
    ensures reply == if p.accepts(old(p.sends)) then Pass else Refused
    ensures p.sent == old(p.sent) + (if reply.Pass? then Frames(Joined(parts, more)) else [])
  {
    var buffer := Messages.Gather(parts);
    var ok := p.MsgSend(buffer[..], more);
    return if ok then Pass else Refused;
  }

  /** recv_all: the parts of one message; or, with the error, those received before it. */
  method RecvAll(p: Pipe) returns (table: seq<String>, ok: bool)
    requires p.Valid()
    modifies p`taken, p`receives
    ensures p.Valid() && old(p.taken) <= p.taken && old(p.receives) < p.receives
    ensures table == Span(p.sent, old(p.taken), p.taken)
    ensures ok ==> Complete(p.sent, old(p.taken)) && p.taken == EndFrom(p.sent, old(p.taken))
    ensures ok ==> var later := Read(p.sent, p.taken);
                   Read(p.sent, old(p.taken)) == Reading([table] + later.messages, later.rest)
    ensures !ok ==> Open(p.sent, old(p.taken), p.taken)
    ensures !ok ==> !p.delivers(p.receives - 1) || (p.taken == |p.sent| && !Complete(p.sent, old(p.taken)))
  {
    table := [];
    ghost var i := p.taken;
    assert Span(p.sent, i, i) == [];
    while true
      invariant p.Valid() && i <= p.taken && Open(p.sent, i, p.taken)
      invariant table == Span(p.sent, i, p.taken)
      invariant old(p.receives) <= p.receives
      decreases |p.sent| - p.taken
    {
      var frame := p.MsgRecv();
      if frame.None? {
        if p.taken == |p.sent| { EndOfOpen(p.sent, i); }
        return table, false;
      }
      table := table + [frame.value.data];
      if !frame.value.more {
        EndIs(p.sent, i, p.taken);
        return table, true;
      }
    }
  }

  // ----- recvx -----

  /** What a slot of the Lua stack holds; Handle is the socket, the first argument. */
  datatype Value = Nil | Error | Handle | Text(data: String)

  function Texts(parts: seq<String>): (r: seq<Value>)
    ensures |r| == |parts|
  {
    if parts == [] then [] else Texts(parts[..|parts| - 1]) + [Text(parts[|parts| - 1])]
  }

  /** The stack of recvx when it has received these parts. */
  function Pushed(parts: seq<String>): (r: seq<Value>)
    ensures |r| == |parts| + 1
  {
    [Handle] + Texts(parts)
  }

  lemma {:induction false} PushedNext(parts: seq<String>, part: String)
    ensures Pushed(parts + [part]) == Pushed(parts) + [Text(part)]
  {
    assert (parts + [part])[..|parts|] == parts;
    assert [Handle] + (Texts(parts) + [Text(part)]) == [Handle] + Texts(parts) + [Text(part)];
  }

  /** Its last results. */
  lemma {:induction false} PushedAbove(parts: seq<String>)
    ensures Pushed(parts)[1..] == Texts(parts)
  {
  }

  /** lua_insert(L, 1): the top of the stack goes to the bottom. */
  function Inserted(stack: seq<Value>): seq<Value>
    requires stack != []
  {
    [stack[|stack| - 1]] + stack[..|stack| - 1]
  }

  /** The stack turned k times. */
  function Turned(stack: seq<Value>, k: nat): (r: seq<Value>)
    requires k <= |stack|
    ensures |r| == |stack|
  {
    stack[|stack| - k..] + stack[..|stack| - k]
  }

  lemma {:induction false} TurnedNext(stack: seq<Value>, k: nat)
    requires k < |stack|
    ensures Inserted(Turned(stack, k)) == Turned(stack, k + 1)
  {
  }

  /** What recvx returns with an error after these parts: the stack is turned once too often, so that the socket is
      among the results and the last part is not. */
  function Failure(parts: seq<String>): seq<Value> {
    [Nil, Error] + Pushed(parts)[..|parts|]
  }

  lemma {:induction false} TurnedThrice(parts: seq<String>)
    ensures Turned(Pushed(parts) + [Nil, Error], 3)[1..] == Failure(parts)
  {
    var full, n := Pushed(parts) + [Nil, Error], |parts|;
    assert full[n..] == [full[n], Nil, Error] && full[..n] == Pushed(parts)[..n];
  }

  /** The documentation has it return nil, the error and the parts received: so it does exactly when there are none. */
  lemma {:induction false} FailureIsDocumentedIff(parts: seq<String>)
    ensures Failure(parts) == [Nil, Error] + Texts(parts) <==> parts == []
  {
    if parts != [] {
      assert Failure(parts)[2] == Handle;
      TextsAt(parts, 0);
      assert ([Nil, Error] + Texts(parts))[2] == Text(parts[0]);
    }
  }

  /** The socket stands where the first part should, and each part but the last one place further on. */
  lemma {:induction false} FailureAt(parts: seq<String>, k: nat)
    requires k < |parts|
    ensures |Failure(parts)| == |parts| + 2 && Failure(parts)[..2] == [Nil, Error]
    ensures Failure(parts)[2 + k] == if k == 0 then Handle else Text(parts[k - 1])
  {
    if k > 0 { TextsAt(parts, k - 1); }
  }

  lemma {:induction false} TextsAt(parts: seq<String>, k: nat)
    requires k < |parts|
    ensures Texts(parts)[k] == Text(parts[k])
  {
    if k < |parts| - 1 { TextsAt(parts[..|parts| - 1], k); }
  }

  /** recvx: the parts as results, or what is left of them with an error. */
  method Recvx(p: Pipe) returns (results: seq<Value>, ok: bool)
    requires p.Valid()
    modifies p`taken, p`receives
    ensures p.Valid() && old(p.taken) <= p.taken && old(p.receives) < p.receives
    ensures ok ==> Complete(p.sent, old(p.taken)) && p.taken == EndFrom(p.sent, old(p.taken))
    ensures ok ==> results == Texts(Span(p.sent, old(p.taken), p.taken))
    ensures !ok ==> Open(p.sent, old(p.taken), p.taken) && results == Failure(Span(p.sent, old(p.taken), p.taken))
    ensures !ok ==> !p.delivers(p.receives - 1) || (p.taken == |p.sent| && !Complete(p.sent, old(p.taken)))
  {
    ghost var start, parts := p.taken, [];
    var stack, i := [Handle], 0;
    while true
      invariant p.Valid() && p.taken == start + i && Open(p.sent, start, p.taken) && old(p.receives) <= p.receives
      invariant parts == Span(p.sent, start, p.taken) && stack == Pushed(parts)
      decreases |p.sent| - p.taken
    {
      var frame := p.MsgRecv();
      if frame.None? {
        if p.taken == |p.sent| { EndOfOpen(p.sent, start); }
        results := Fail(stack, parts);
        return results, false;
      }
      i := i + 1;
      PushedNext(parts, frame.value.data);
      stack, parts := stack + [Text(frame.value.data)], parts + [frame.value.data];
      SpanNext(p.sent, start, p.taken - 1);
      if !frame.value.more {
        EndIs(p.sent, start, p.taken);
        PushedAbove(parts);
        return stack[|stack| - i..], true;
      }
    }
  }

  /** nil and the error are pushed, and put in front of what is on the stack. */
  method Fail(parts: seq<Value>, ghost received: seq<String>) returns (results: seq<Value>)
    requires parts == Pushed(received)
    ensures results == Failure(received)
  {
    var stack, i := parts + [Nil, Error], |parts| - 1;
    ghost var full := stack;
    for j := 0 to 3
      invariant stack == Turned(full, j)
    {
      TurnedNext(full, j);
      stack := Inserted(stack);
    }
    TurnedThrice(received);
    return stack[|stack| - (2 + i)..];
  }
}
