/** Multipart messages over a FIFO of frames: what writing leaves in the queue, and what reading gets back. */
module Framing {
  import opened Bytes

  datatype Frame = Frame(data: String, more: bool)

  /** ZMQ_SNDMORE */
  const SNDMORE: int := 2

  // ----- writing -----

  /** One part after another, MORE on all but the last, which has the given flag. */
  function Framed(parts: seq<String>, last: bool): (r: seq<Frame>)
    ensures |r| == |parts|
    ensures forall k {:trigger r[k]} :: 0 <= k < |r| ==> r[k] == Frame(parts[k], k + 1 < |parts| || last)
  {
    seq(|parts|, k requires 0 <= k < |parts| => Frame(parts[k], k + 1 < |parts| || last))
  }

  /** How many parts are sent before one is refused: zmq_msg_send is an oracle, asked for the at-th time and on. */
  function Accepted(accepts: nat -> bool, at: nat, n: nat): (k: nat)
    ensures k <= n
    ensures forall j {:trigger accepts(j)} :: at <= j < at + k ==> accepts(j)
    ensures k < n ==> !accepts(at + k)
    decreases n
  {
    if n == 0 || !accepts(at) then 0 else 1 + Accepted(accepts, at + 1, n - 1)
  }

  lemma {:induction false} AcceptedIs(accepts: nat -> bool, at: nat, n: nat, k: nat)
    requires k <= n && (k < n ==> !accepts(at + k))
    requires forall j {:trigger accepts(j)} :: at <= j < at + k ==> accepts(j)
    ensures Accepted(accepts, at, n) == k
    decreases k
  {
    if k > 0 {
      assert accepts(at);
      AcceptedIs(accepts, at + 1, n - 1, k - 1);
    }
  }

  /** A write that is refused at part k leaves the earlier parts, all with MORE: what a write with SNDMORE of just
      those parts leaves. */
  lemma {:induction false} RefusedWriteIsAMoreWrite(parts: seq<String>, last: bool, k: nat)
    requires k < |parts|
    ensures Framed(parts, last)[..k] == Framed(parts[..k], true)
    ensures forall j :: 0 <= j < k ==> Framed(parts, last)[j] == Frame(parts[j], true)
  {
  }

  /** A write: by send_all or sendx part by part, or by sendv joined into one frame; `more` for the _more forms,
      and for what is left of a refused write. */
  datatype Write =
    | Multipart(parts: seq<String>, more: bool)
    | Joined(parts: seq<String>, more: bool)

  /** The parts a write contributes to the message under way. */
  function Parts(w: Write): seq<String> {
    match w
    case Multipart(parts, _) => parts
    case Joined(parts, _) => [Concat(parts)]
  }

  /** The frames it puts into the queue. */
  function Frames(w: Write): seq<Frame> {
    Framed(Parts(w), w.more)
  }

  /** A joined write is one frame that holds all its parts. */
  lemma {:induction false} JoinedIsOneFrame(parts: seq<String>, more: bool)
    ensures Frames(Joined(parts, more)) == [Frame(Concat(parts), more)]
  {
  }

  // ----- what was written, without frames -----

  /** Whether the message ends with this write.  A write of no parts has no frame to carry the flag. */
  predicate Ends(w: Write) {
    !w.more && Parts(w) != []
  }

  /** The messages written by the writes from the k-th on, when `begun` is what came before: a message ends with
      the first write that is not a _more form. */
  function Written(begun: seq<String>, ws: seq<Write>, k: nat): seq<seq<String>>
    requires k <= |ws|
    decreases |ws| - k
  {
    if k == |ws| then []
    else if Ends(ws[k]) then [begun + Parts(ws[k])] + Written([], ws, k + 1)
    else Written(begun + Parts(ws[k]), ws, k + 1)
  }

  /** The parts of the message that is not ended yet. */
  function Pending(begun: seq<String>, ws: seq<Write>, k: nat): seq<String>
    requires k <= |ws|
    decreases |ws| - k
  {
    if k == |ws| then begun
    else if Ends(ws[k]) then Pending([], ws, k + 1)
    else Pending(begun + Parts(ws[k]), ws, k + 1)
  }

  /** The frames of q from position i on are those of the writes from the k-th on, one after another. */
  ghost predicate Holds(q: seq<Frame>, i: nat, ws: seq<Write>, k: nat)
    requires k <= |ws|
    decreases |ws| - k
  {
    if k == |ws| then i == |q|
    else Matches(q, i, Parts(ws[k]), ws[k].more) && Holds(q, i + |Parts(ws[k])|, ws, k + 1)
  }

  /** The frames from position i on are those of these parts. */
  predicate Matches(q: seq<Frame>, i: nat, parts: seq<String>, last: bool) {
    && i + |parts| <= |q|
    && forall k :: i <= k < i + |parts| ==> q[k] == Frame(parts[k - i], k + 1 < i + |parts| || last)
  }

  // ----- reading -----

  /** The data of the frames from position i to position n. */
  function Span(q: seq<Frame>, i: nat, n: nat): (r: seq<String>)
    requires i <= n <= |q|
    ensures |r| == n - i
    ensures forall k {:trigger r[k]} :: 0 <= k < |r| ==> r[k] == q[i + k].data
  {
    seq(n - i, k requires 0 <= k < n - i => q[i + k].data)
  }

  lemma {:induction false} SpanNext(q: seq<Frame>, i: nat, n: nat)
    requires i <= n < |q|
    ensures Span(q, i, n + 1) == Span(q, i, n) + [q[n].data]
  {
  }

  /** Where the message that begins at position i ends, or the end of the queue. */
  function EndFrom(q: seq<Frame>, i: nat): (n: nat)
    requires i <= |q|
    ensures i <= n <= |q|
    ensures forall j :: i <= j < n - 1 ==> q[j].more
    ensures n < |q| ==> i < n && !q[n - 1].more
    decreases |q| - i
  {
    if i == |q| then i else if !q[i].more then i + 1 else EndFrom(q, i + 1)
  }

  lemma {:induction false} EndIs(q: seq<Frame>, i: nat, n: nat)
    requires i < n <= |q| && !q[n - 1].more && forall k :: i <= k < n - 1 ==> q[k].more
    ensures EndFrom(q, i) == n
    decreases n - i
  {
    if q[i].more { EndIs(q, i + 1, n); }
  }

  /** Whether a whole message begins at position i. */
  predicate Complete(q: seq<Frame>, i: nat) {
    i < |q| && !q[EndFrom(q, i) - 1].more
  }

  /** What successive calls of recv_all get from position i on, while there are complete messages, and the
      position of the frames left then. */
  datatype Reading = Reading(messages: seq<seq<String>>, rest: nat)

  function Read(q: seq<Frame>, i: nat): (r: Reading)
    requires i <= |q|
    ensures i <= r.rest <= |q|
    decreases |q| - i
  {
    if !Complete(q, i) then Reading([], i)
    else
      var n := EndFrom(q, i);
      var later := Read(q, n);
      Reading([Span(q, i, n)] + later.messages, later.rest)
  }

  // ----- unique decodability -----

  /** Frames of a message that is under way. */
  predicate Open(q: seq<Frame>, i: nat, n: nat) {
    forall k :: i <= k < n && k < |q| ==> q[k].more
  }

  lemma {:induction false} SpanOf(q: seq<Frame>, i: nat, n: nat, parts: seq<String>, last: bool)
    requires i <= n <= |q| && Matches(q, n, parts, last)
    ensures Span(q, i, n + |parts|) == Span(q, i, n) + parts
  {
    var m := n + |parts|;
    var now, was := Span(q, i, m), Span(q, i, n);
    forall k | 0 <= k < m - i
      ensures now[k] == (was + parts)[k]
    {
    }
  }

  lemma {:induction false} OpenOf(q: seq<Frame>, i: nat, n: nat, parts: seq<String>, last: bool)
    requires i <= n <= |q| && Open(q, i, n) && Matches(q, n, parts, last)
    ensures var m := n + |parts|;
      if !last && parts != [] then m > i && Complete(q, i) && EndFrom(q, i) == m else Open(q, i, m)
  {
    var m := n + |parts|;
    if !last && parts != [] {
      assert !q[m - 1].more;
      EndIs(q, i, m);
    }
  }

  lemma {:induction false} EndOfOpen(q: seq<Frame>, i: nat)
    requires i <= |q| && Open(q, i, |q|)
    ensures EndFrom(q, i) == |q| && !Complete(q, i)
    decreases |q| - i
  {
    if i < |q| { EndOfOpen(q, i + 1); }
  }

  /** Reading from position i on gets what these writes write, when `begun` is what came before, and leaves the
      message under way. */
  ghost predicate ReadsAs(q: seq<Frame>, i: nat, begun: seq<String>, ws: seq<Write>, k: nat) {
    && i <= |q| && k <= |ws|
    && Read(q, i).messages == Written(begun, ws, k)
    && Span(q, Read(q, i).rest, |q|) == Pending(begun, ws, k) && Open(q, Read(q, i).rest, |q|)
  }

  lemma {:induction false} NothingWritten(q: seq<Frame>, i: nat, begun: seq<String>, ws: seq<Write>)
    requires i <= |q| && Open(q, i, |q|) && begun == Span(q, i, |q|)
    ensures ReadsAs(q, i, begun, ws, |ws|)
  {
    EndOfOpen(q, i);
  }

  /** A write that ends the message. */
  lemma {:induction false} EndedWrite(q: seq<Frame>, i: nat, begun: seq<String>, ws: seq<Write>, k: nat, m: nat)
    requires k < |ws| && Ends(ws[k]) && i < m <= |q| && Complete(q, i) && EndFrom(q, i) == m
    requires Span(q, i, m) == begun + Parts(ws[k]) && ReadsAs(q, m, [], ws, k + 1)
    ensures ReadsAs(q, i, begun, ws, k)
  {
  }

  /** A write that leaves it under way. */
  lemma {:induction false} OpenWrite(q: seq<Frame>, i: nat, begun: seq<String>, ws: seq<Write>, k: nat)
    requires k < |ws| && !Ends(ws[k]) && ReadsAs(q, i, begun + Parts(ws[k]), ws, k + 1)
    ensures ReadsAs(q, i, begun, ws, k)
  {
  }

  /** The next write in the queue ends at position m. */
  lemma {:induction false} NextWrite(q: seq<Frame>, i: nat, n: nat, ws: seq<Write>, k: nat) returns (m: nat)
    requires i <= n <= |q| && k < |ws| && Open(q, i, n) && Holds(q, n, ws, k)
    ensures n <= m <= |q| && Holds(q, m, ws, k + 1) && Span(q, i, m) == Span(q, i, n) + Parts(ws[k])
    ensures if Ends(ws[k]) then m > i && Complete(q, i) && EndFrom(q, i) == m else Open(q, i, m)
  {
    var parts := Parts(ws[k]);
    m := n + |parts|;
    SpanOf(q, i, n, parts, ws[k].more);
    OpenOf(q, i, n, parts, ws[k].more);
  }

  /** Reading a queue whose frames from i to n belong to a message under way, and which then holds some writes. */
  lemma {:induction false} WritesAreReadFrom(q: seq<Frame>, i: nat, n: nat, ws: seq<Write>, k: nat)
    requires i <= n <= |q| && k <= |ws| && Open(q, i, n) && Holds(q, n, ws, k)
    ensures ReadsAs(q, i, Span(q, i, n), ws, k)
    decreases |ws| - k
  {
    if k == |ws| {
      NothingWritten(q, i, Span(q, i, n), ws);
    } else {
      var m := NextWrite(q, i, n, ws, k);
      if Ends(ws[k]) {
        WritesAreReadFrom(q, m, m, ws, k + 1);
        EndedWrite(q, i, Span(q, i, n), ws, k, m);
      } else {
        WritesAreReadFrom(q, i, m, ws, k + 1);
        OpenWrite(q, i, Span(q, i, n), ws, k);
      }
    }
  }

  /** Any run of writes, by any mix of the operations and their _more forms and with refused ones among them, is
      read back exactly: successive calls of recv_all get the messages written, part by part, and what is left in
      the queue is the message not ended yet. */
  lemma {:induction false} WritesAreReadBack(q: seq<Frame>, i: nat, ws: seq<Write>)
    requires i <= |q| && Holds(q, i, ws, 0)
    ensures var r := Read(q, i);
      && r.messages == Written([], ws, 0)
      && Span(q, r.rest, |q|) == Pending([], ws, 0) && Open(q, r.rest, |q|)
  {
    WritesAreReadFrom(q, i, i, ws, 0);
    assert Span(q, i, i) == [];
  }

  lemma {:induction false} HoldsLonger(q: seq<Frame>, i: nat, ws: seq<Write>, k: nat, now: seq<Frame>, more: seq<Write>)
    requires k <= |ws| && Holds(q, i, ws, k) && q <= now && ws <= more
    requires Holds(now, |q|, more, |ws|)
    ensures Holds(now, i, more, k)
    decreases |ws| - k
  {
    if k < |ws| {
      HoldsLonger(q, i + |Parts(ws[k])|, ws, k + 1, now, more);
    }
  }

  /** What one more write adds to a queue. */
  lemma {:induction false} WriteExtends(q: seq<Frame>, i: nat, ws: seq<Write>, w: Write)
    requires i <= |q| && Holds(q, i, ws, 0)
    ensures Holds(q + Frames(w), i, ws + [w], 0)
  {
    var now, more := q + Frames(w), ws + [w];
    assert more[|ws|] == w;
    assert Matches(now, |q|, Parts(w), w.more);
    HoldsLonger(q, i, ws, 0, now, more);
  }

  predicate AllEnd(ws: seq<Write>) {
    forall k :: 0 <= k < |ws| ==> Ends(ws[k])
  }

  /** A run of writes none of which is a _more form: the messages are the writes, one each. */
  lemma {:induction false} EachWriteIsAMessage(q: seq<Frame>, i: nat, ws: seq<Write>)
    requires i <= |q| && Holds(q, i, ws, 0) && AllEnd(ws)
    ensures var r := Read(q, i);
      |r.messages| == |ws| && r.rest == |q| && forall k :: 0 <= k < |ws| ==> r.messages[k] == Parts(ws[k])
  {
    WritesAreReadBack(q, i, ws);
    NoneIsPending(ws, 0);
    var ms := Read(q, i).messages;
    forall k | 0 <= k < |ws|
      ensures ms[k] == Parts(ws[k])
    {
      WrittenAt(ws, 0, k);
    }
  }

  lemma {:induction false} NoneIsPending(ws: seq<Write>, k: nat)
    requires k <= |ws| && AllEnd(ws)
    ensures |Written([], ws, k)| == |ws| - k && Pending([], ws, k) == []
    decreases |ws| - k
  {
    if k < |ws| { NoneIsPending(ws, k + 1); }
  }

  lemma {:induction false} WrittenAt(ws: seq<Write>, k: nat, j: nat)
    requires k <= j < |ws| && AllEnd(ws)
    ensures |Written([], ws, k)| == |ws| - k && Written([], ws, k)[j - k] == Parts(ws[j])
    decreases j - k
  {
    NoneIsPending(ws, k);
    if k < j {
      WrittenAt(ws, k + 1, j);
    } else {
      assert [] + Parts(ws[k]) == Parts(ws[k]);
    }
  }

  /** The frames of q from position i to position end are those of the messages, each sent on its own. */
  ghost predicate Carries(q: seq<Frame>, i: nat, ms: seq<seq<String>>, end: nat)
    decreases |ms|
  {
    if ms == [] then i == end
    else ms[0] != [] && Matches(q, i, ms[0], false) && Carries(q, i + |ms[0]|, ms[1..], end)
  }

  /** Nothing is invented or lost: the frames read are exactly those that carry the messages, and all that is left
      is a message under way. */
  lemma {:induction false} ReadingLosesNothing(q: seq<Frame>, i: nat)
    requires i <= |q|
    ensures Carries(q, i, Read(q, i).messages, Read(q, i).rest) && Open(q, Read(q, i).rest, |q|)
    decreases |q| - i
  {
    if Complete(q, i) {
      var n := EndFrom(q, i);
      ReadingLosesNothing(q, n);
      FirstMatches(q, i);
      assert Read(q, i).messages[1..] == Read(q, n).messages;
    }
  }

  lemma {:induction false} FirstMatches(q: seq<Frame>, i: nat)
    requires i <= |q| && Complete(q, i)
    ensures Matches(q, i, Span(q, i, EndFrom(q, i)), false)
  {
  }
}
