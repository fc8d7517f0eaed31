/** A socket as a FIFO of frames, and what sending a range of parts does to it. */
module Pipes {
  import opened Bytes
  import opened Framing
  import opened Options

  datatype Reply =
    | Pass
    | Failed(part: int) // the error, and which part was refused
    | Refused           // the error alone
    | Unsupported       // ENOTSUP
    | Raised            // a Lua error

  class Pipe {
    /** Every frame accepted so far, and how many of them were received. */
    var sent: seq<Frame>
    var taken: nat

    /** zmq_msg_send and zmq_msg_recv are oracles: what they answer when called for the k-th time. */
    const accepts: nat -> bool
    const delivers: nat -> bool
    var sends: nat
    var receives: nat

    predicate Valid()
      reads this
    {
      taken <= |sent|
    }

    constructor (accepts: nat -> bool, delivers: nat -> bool)
      ensures Valid() && sent == [] && sends == 0 && receives == 0
      ensures this.accepts == accepts && this.delivers == delivers
    {
      sent, taken, sends, receives := [], 0, 0, 0;
      this.accepts, this.delivers := accepts, delivers;
    }

    method MsgSend(data: String, more: bool) returns (ok: bool)
      modifies `sent, `sends
      ensures ok == accepts(old(sends)) && sends == old(sends) + 1
      ensures sent == if ok then old(sent) + [Frame(data, more)] else old(sent)
    {
      ok := accepts(sends);
      sends := sends + 1;
      if ok { sent := sent + [Frame(data, more)]; }
    }

    /** There is nothing to receive, or the oracle says no, or the next frame is taken. */
    method MsgRecv() returns (r: Option<Frame>)
      requires Valid()
      modifies `taken, `receives
      ensures Valid() && receives == old(receives) + 1
      ensures r.Some? <==> old(taken) < |sent| && delivers(old(receives))
      ensures r == (if r.Some? then Some(sent[old(taken)]) else None)
      ensures taken == if r.Some? then old(taken) + 1 else old(taken)
    {
      var ok := taken < |sent| && delivers(receives);
      receives := receives + 1;
      if !ok { return None; }
      r := Some(sent[taken]);
      taken := taken + 1;
    }
  }

  // ----- sending the parts i..n of a table -----

  /** table[i], with positions from 1; anything outside is nil. */
  function At(table: seq<String>, i: int): Option<String> {
    if 1 <= i <= |table| then Some(table[i - 1]) else None
  }

  function Count(i: int, n: int): nat {
    if n < i then 0 else n - i + 1
  }

  /** How many parts there are before the first nil. */
  function Present(table: seq<String>, i: int, n: int): (p: nat)
    ensures p <= Count(i, n)
    ensures p > 0 ==> 1 <= i && i - 1 + p <= |table|
    ensures p < Count(i, n) ==> At(table, i + p).None?
  {
    if i < 1 || i > |table| then 0
    else if n <= |table| then Count(i, n)
    else |table| - i + 1
  }

  /** What was sent of a range, how often zmq_msg_send was called, and the reply. */
  datatype Delivery = Delivery(parts: seq<String>, sends: nat, reply: Reply)

  /** The parts go out in order until one is refused or is nil. */
  function Deliver(accepts: nat -> bool, at: nat, table: seq<String>, i: int, n: int): (d: Delivery)
    ensures d.reply.Pass? ==> |d.parts| == Count(i, n)
    ensures d.reply.Failed? ==> i <= d.reply.part <= n && |d.parts| == d.reply.part - i
  {
    var p := Present(table, i, n);
    var k := Accepted(accepts, at, p);
    Delivery(Portion(table, i, k), if k < p then k + 1 else k,
             if k < p then Failed(i + k) else if k < Count(i, n) then Raised else Pass)
  }

  function Portion(table: seq<String>, i: int, k: nat): seq<String>
    requires k > 0 ==> 1 <= i && i - 1 + k <= |table|
  {
    if k == 0 then [] else table[i - 1..i - 1 + k]
  }

  /** The frames it leaves: the last has the given flag if all went out, and otherwise all have MORE. */
  function Left(d: Delivery, last: bool): seq<Frame> {
    Framed(d.parts, if d.reply.Pass? then last else true)
  }

  /** A range being sent, into a socket that held these frames and whose zmq_msg_send was called `at` times. */
  datatype Job = Job(accepts: nat -> bool, at: nat, table: seq<String>, i: int, n: int, last: bool, sent: seq<Frame>) {

    /** The state after k parts: all accepted, and with MORE but for the last. */
    ghost predicate After(k: nat, sends: nat, now: seq<Frame>) {
      && k <= Present(table, i, n)
      && sends == at + k && (forall j {:trigger accepts(j)} :: at <= j < at + k ==> accepts(j))
      && now == sent + Upto(k)
    }

    ghost function Upto(k: nat): seq<Frame>
      requires k <= Present(table, i, n)
    {
      Framed(Portion(table, i, k), if k == Count(i, n) then last else true)
    }

    ghost predicate Done(sends: nat, now: seq<Frame>, reply: Reply) {
      var d := Deliver(accepts, at, table, i, n);
      reply == d.reply && sends == at + d.sends && now == sent + Left(d, last)
    }

    lemma {:induction false} Start()
      ensures After(0, at, sent)
    {
      assert Upto(0) == [];
    }

    /** The next part is there and is accepted. */
    lemma {:induction false} Next(k: nat, sends: nat, now: seq<Frame>)
      requires After(k, sends, now) && k < Present(table, i, n) && accepts(sends)
      ensures After(k + 1, sends + 1, now + [Frame(table[i - 1 + k], k + 1 < Count(i, n) || last)])
    {
      assert Upto(k + 1) == Upto(k) + [Frame(table[i - 1 + k], k + 1 < Count(i, n) || last)];
    }

    lemma {:induction false} Passes(k: nat, sends: nat, now: seq<Frame>)
      requires After(k, sends, now) && k == Count(i, n)
      ensures Done(sends, now, Pass)
    {
      AcceptedIs(accepts, at, Present(table, i, n), k);
    }

    lemma {:induction false} Fails(k: nat, sends: nat, now: seq<Frame>)
      requires After(k, sends, now) && k < Present(table, i, n) && !accepts(sends)
      ensures Done(sends + 1, now, Failed(i + k))
    {
      AcceptedIs(accepts, at, Present(table, i, n), k);
    }

    /** Part j is next. */
    lemma {:induction false} Step(j: int, sends: nat, now: seq<Frame>, more: bool)
      requires i <= j <= n && After(j - i, sends, now) && more == (j < n || last)
      ensures At(table, j).None? ==> Done(sends, now, Raised)
      ensures At(table, j).Some? && accepts(sends) ==>
        After(j + 1 - i, sends + 1, now + [Frame(At(table, j).value, more)])
      ensures At(table, j).Some? && !accepts(sends) ==> Done(sends + 1, now, Failed(j))
    {
      if At(table, j).None? {
        Raises(j - i, sends, now);
      } else if accepts(sends) {
        Next(j - i, sends, now);
      } else {
        Fails(j - i, sends, now);
      }
    }

    lemma {:induction false} Raises(k: nat, sends: nat, now: seq<Frame>)
      requires After(k, sends, now) && k < Count(i, n) && At(table, i + k).None?
      ensures Done(sends, now, Raised)
    {
      AcceptedIs(accepts, at, Present(table, i, n), k);
    }
  }

  /** One part, in either library: nil raises a Lua error; anything else goes to zmq_msg_send. */
  method SendPart(p: Pipe, table: seq<String>, i: int, more: bool, ghost job: Job) returns (reply: Reply)
    requires job.accepts == p.accepts && job.table == table && job.i <= i <= job.n
    requires job.After(i - job.i, p.sends, p.sent) && more == (i < job.n || job.last)
    modifies p`sent, p`sends
    ensures reply.Pass? ==> job.After(i + 1 - job.i, p.sends, p.sent)
    ensures !reply.Pass? ==> job.Done(p.sends, p.sent, reply)
  {
    job.Step(i, p.sends, p.sent, more);
    var part := At(table, i);
    if part.None? { return Raised; }
    var ok := p.MsgSend(part.value, more);
    return if ok then Pass else Failed(i);
  }

  // ----- send_all: the C and the FFI form -----

  /** send_all of the C library: an explicit range must not be empty, then the flags are checked. */
  function CSendAll(accepts: nat -> bool, at: nat, table: seq<String>, flags: int, i: int, n: Option<int>): Delivery {
    if n.Some? && n.value < i then Delivery([], 0, Raised)
    else if flags != 0 && flags != SNDMORE then Delivery([], 0, Unsupported)
    else Deliver(accepts, at, table, i, if n.Some? then n.value else |table|)
  }

  /** send_all of the FFI library: no range may be empty. */
  function FfiSendAll(accepts: nat -> bool, at: nat, table: seq<String>, flags: int, i: int, n: Option<int>): Delivery {
    var end := if n.Some? then n.value else |table|;
    if end < i then Delivery([], 0, Raised)
    else if flags != 0 && flags != SNDMORE then Delivery([], 0, Unsupported)
    else Deliver(accepts, at, table, i, end)
  }

  /** The two send the same and reply the same, except when the range is empty and not explicit: there C sends
      nothing and passes, or refuses the flags, where FFI raises. */
  lemma {:induction false} SendAllAgreesIff(accepts: nat -> bool, at: nat, table: seq<String>, flags: int, i: int,
                                            n: Option<int>)
    ensures CSendAll(accepts, at, table, flags, i, n) == FfiSendAll(accepts, at, table, flags, i, n)
      <==> !(n.None? && |table| < i)
  {
    if n.None? && |table| < i {
      assert Count(i, |table|) == 0;
    }
  }

  /** The reply names part k exactly when the parts before it are there and were accepted, and part k is there and
      was refused; the frames left are those of the parts before it, all with MORE. */
  lemma {:induction false} FailedAt(accepts: nat -> bool, at: nat, table: seq<String>, i: int, n: int, last: bool,
                                    k: int)
    ensures Deliver(accepts, at, table, i, n).reply == Failed(k) <==>
      && i <= k <= n && At(table, k).Some? && !accepts(at + (k - i))
      && forall x :: i <= x < k ==> At(table, x).Some? && accepts(at + (x - i))
    ensures var d := Deliver(accepts, at, table, i, n);
      d.reply == Failed(k) ==>
        && |Left(d, last)| == k - i && d.sends == k - i + 1
        && forall x :: i <= x < k ==> Left(d, last)[x - i] == Frame(At(table, x).value, true)
  {
    var d, p := Deliver(accepts, at, table, i, n), Present(table, i, n);
    if d.reply == Failed(k) {
      forall x | i <= x < k
        ensures At(table, x).Some? && accepts(at + (x - i))
      {
      }
      assert At(table, k).Some?;
    }
    if && i <= k <= n && At(table, k).Some? && !accepts(at + (k - i))
       && forall x :: i <= x < k ==> At(table, x).Some? && accepts(at + (x - i))
    {
      assert At(table, i).Some?;
      assert k - i < p;
      forall j {:trigger accepts(j)} | at <= j < at + (k - i)
        ensures accepts(j)
      {
        assert At(table, i + (j - at)).Some? && accepts(at + (i + (j - at) - i));
      }
      AcceptedIs(accepts, at, p, k - i);
    }
  }

  /** A range passes exactly when all its parts are there and accepted, and raises an error exactly when those before
      the first nil are accepted. */
  lemma {:induction false} DeliversIff(accepts: nat -> bool, at: nat, table: seq<String>, i: int, n: int)
    ensures var d := Deliver(accepts, at, table, i, n);
      && (d.reply == Pass <==> forall x :: i <= x <= n ==> At(table, x).Some? && accepts(at + (x - i)))
      && (d.reply == Raised <==>
            exists k :: i <= k <= n && At(table, k).None? && AllGoOut(accepts, at, table, i, k))
      && (d.reply.Pass? || d.reply.Raised? ==> d.sends == |d.parts|)
  {
    var d, p := Deliver(accepts, at, table, i, n), Present(table, i, n);
    var k := Accepted(accepts, at, p);
    forall x | i <= x < i + k
      ensures At(table, x).Some? && accepts(at + (x - i))
    {
    }
    if k < p {
      assert At(table, i + k).Some? && !accepts(at + (i + k - i));
    } else if k < Count(i, n) {
      assert AllGoOut(accepts, at, table, i, i + k);
    }
  }

  /** The parts from i to before k are there and accepted. */
  ghost predicate AllGoOut(accepts: nat -> bool, at: nat, table: seq<String>, i: int, k: int) {
    forall x :: i <= x < k ==> At(table, x).Some? && accepts(at + (x - i))
  }

  /** What the two do with a range that is empty: C passes, sending nothing, only when its end was left out and the
      flags are good. */
  lemma {:induction false} EmptyRange(accepts: nat -> bool, at: nat, table: seq<String>, flags: int, i: int,
                                      n: Option<int>)
    requires (if n.Some? then n.value else |table|) < i
    ensures FfiSendAll(accepts, at, table, flags, i, n) == Delivery([], 0, Raised)
    ensures CSendAll(accepts, at, table, flags, i, n) ==
      Delivery([], 0, if n.Some? then Raised else if flags == 0 || flags == SNDMORE then Pass else Unsupported)
  {
  }

  /** And with one that is not: all goes out as in Deliver, when the flags are good. */
  lemma {:induction false} GoodRange(accepts: nat -> bool, at: nat, table: seq<String>, flags: int, i: int,
                                     n: Option<int>)
    requires i <= if n.Some? then n.value else |table|
    ensures var d := CSendAll(accepts, at, table, flags, i, n);
      && d == FfiSendAll(accepts, at, table, flags, i, n)
      && (d.reply == Unsupported <==> flags !in {0, SNDMORE})
      && (d.reply == Unsupported ==> d.parts == [] && d.sends == 0)
      && (d.reply != Unsupported ==> d == Deliver(accepts, at, table, i, if n.Some? then n.value else |table|))
  {
  }

  /** A range sent whole is one write of its parts; what is left of a refused one is a write of the earlier ones with
      SNDMORE.  Only a range that reaches out of the table can raise an error. */
  lemma {:induction false} DeliveryIsAWrite(accepts: nat -> bool, at: nat, table: seq<String>, i: int, n: int,
                                            last: bool)
    ensures var d := Deliver(accepts, at, table, i, n);
      && (i == 1 && n == |table| ==> !d.reply.Raised?)
      && (d.reply.Pass? && i <= n ==>
            1 <= i && n <= |table| && Left(d, last) == Frames(Multipart(table[i - 1..n], last)))
      && (d.reply.Pass? && n < i ==> Left(d, last) == [])
      && (d.reply.Failed? ==>
            var k := d.reply.part;
            1 <= i <= k <= |table| && Left(d, last) == Frames(Multipart(table[i - 1..k - 1], true)))
  {
    var d := Deliver(accepts, at, table, i, n);
    if d.reply.Pass? && i <= n {
      assert At(table, i).Some?;
      assert d.parts == table[i - 1..n];
    }
    if d.reply.Failed? {
      assert At(table, d.reply.part).Some?;
      assert d.parts == table[i - 1..d.reply.part - 1];
    }
  }

  // ----- receiving -----

  /** After a read that stopped short, the next one goes on where it stopped: the two parts make up the message. */
  lemma {:induction false} ResumedReadCompletes(q: seq<Frame>, i: nat, t: nat)
    requires i <= t < |q| && Open(q, i, t)
    ensures EndFrom(q, t) == EndFrom(q, i) && (Complete(q, t) <==> Complete(q, i))
    ensures Span(q, i, EndFrom(q, i)) == Span(q, i, t) + Span(q, t, EndFrom(q, i))
    decreases t - i
  {
    if i < t {
      ResumedReadCompletes(q, i + 1, t);
    }
  }
}
