/** Message buffers (src/zmsg.c): the two-pass builders, set_data as a splice, set_size, move. */
module Messages {
  import opened Bytes

  // ----- what the operations mean -----

  /** `now` is `was` with `data` written at offset `at`.  A gap between the old end and `at` may hold anything. */
  ghost predicate IsSplice(was: String, at: nat, data: String, now: String) {
    && |now| == (if at + |data| > |was| then at + |data| else |was|)
    && now[at..at + |data|] == data
    && forall k :: 0 <= k < |was| && !(at <= k < at + |data|) ==> now[k] == was[k]
  }

  /** `now` has the given size and shares with `was` all that both have room for. */
  ghost predicate IsResized(was: String, size: nat, now: String) {
    |now| == size && forall k :: 0 <= k < size && k < |was| ==> now[k] == was[k]
  }

  function Splice(was: String, at: nat, data: String): String
    requires at <= |was|
  {
    was[..at] + data + (if at + |data| < |was| then was[at + |data|..] else [])
  }

  lemma {:induction false} GrownThenCopied(was: String, at: nat, data: String, grown: String, now: String)
    requires |was| <= |grown| && at + |data| <= |grown| && IsResized(was, |grown|, grown)
    requires |grown| == |was| || |grown| == at + |data|
    requires now == grown[..at] + data + grown[at + |data|..]
    ensures IsSplice(was, at, data, now)
  {
  }

  /** Without a gap, a splice is determined. */
  lemma {:induction false} SpliceIsDetermined(was: String, at: nat, data: String, now: String)
    requires at <= |was|
    ensures IsSplice(was, at, data, now) <==> now == Splice(was, at, data)
  {
    var end := at + |data|;
    if IsSplice(was, at, data, now) {
      forall k | 0 <= k < |now|
        ensures now[k] == Splice(was, at, data)[k]
      {
        if at <= k < end { assert now[k] == now[at..end][k - at]; }
      }
    }
  }

  /** The content after writing each part in turn at the end of what is there, from an empty message. */
  function Appended(parts: seq<String>): String {
    if parts == [] then []
    else
      var n := |parts| - 1;
      var was := Appended(parts[..n]);
      Splice(was, |was|, parts[n])
  }

  /** Appending parts one by one is building the message from all of them. */
  lemma {:induction false} AppendingIsConcatenating(parts: seq<String>)
    ensures Appended(parts) == Concat(parts)
  {
    if parts != [] {
      AppendingIsConcatenating(parts[..|parts| - 1]);
    }
  }

  /** Writes to disjoint ranges may be made in either order. */
  lemma {:induction false} DisjointSplicesCommute(was: String, at: nat, data: String, later: nat, more: String)
    requires at + |data| <= later <= |was|
    ensures Splice(Splice(was, at, data), later, more) == Splice(Splice(was, later, more), at, data)
  {
    var x, y := Splice(Splice(was, at, data), later, more), Splice(Splice(was, later, more), at, data);
    forall k | 0 <= k < |x|
      ensures x[k] == y[k]
    {
    }
  }

  /** Cutting a message back to what it was undoes writing past its end. */
  lemma {:induction false} CuttingBackUndoes(was: String, at: nat, data: String, grown: String, now: String)
    requires at >= |was| && IsSplice(was, at, data, grown) && IsResized(grown, |was|, now)
    ensures now == was
  {
  }

  // ----- where set_data copies to -----

  const SIZE_T: int := 0x1_0000_0000_0000_0000

  /** The size of the buffer when set_data copies: a larger one is made for the end of the copy, which is computed as a
      size_t. */
  function Room(size: nat, position: int, length: nat): nat {
    var end := (position - 1 + length) % SIZE_T;
    if end > size then end else size
  }

  /** A copy of no bytes touches nothing. */
  predicate CopyInBounds(size: nat, position: int, length: nat) {
    length == 0 || (0 <= position - 1 && position - 1 + length <= Room(size, position, length))
  }

  /** Of the positions that set_data lets through, exactly those from 1 on make a copy of some data that stays in the
      buffer. */
  lemma {:induction false} CopyInBoundsIff(size: nat, position: int, length: nat)
    requires 0 <= position < 0x8000_0000 && length < 0x4000_0000_0000_0000
    ensures CopyInBounds(size, position, length) <==> position >= 1 || length == 0
  {
  }

  // ----- the operations -----

  /** memcpy: the requires clause is that the copy stays in bounds. */
  method Memcpy(buffer: array<Byte>, at: nat, data: String)
    requires at + |data| <= buffer.Length
    modifies buffer
    ensures buffer[..] == old(buffer[..at]) + data + old(buffer[at + |data|..])
  {
    ghost var was := buffer[..];
    forall k | 0 <= k < |data| {
      buffer[at + k] := data[k];
    }
    assert forall k :: 0 <= k < buffer.Length && !(at <= k < at + |data|) ==> buffer[k] == was[k];
  }

  /** Both passes over the parts: their total size, then the copies. */
  method Gather(parts: seq<String>) returns (buffer: array<Byte>)
    ensures fresh(buffer) && buffer[..] == Concat(parts)
  {
    var size, i := 0, 0;
    while i < |parts|
      invariant i <= |parts| && size == |Concat(parts[..i])|
    {
      ConcatNext(parts, i);
      size := size + |parts[i]|;
      i := i + 1;
    }
    assert parts[..i] == parts;
    buffer := new Byte[size];
    if size == 0 { return; }
    var pos := 0;
    i := 0;
    while i < |parts|
      invariant i <= |parts| && pos == |Concat(parts[..i])| <= buffer.Length == |Concat(parts)|
      invariant buffer[..pos] == Concat(parts[..i])
    {
      ConcatNext(parts, i);
      ConcatFits(parts, i + 1);
      Memcpy(buffer, pos, parts[i]);
      assert buffer[..pos + |parts[i]|] == buffer[..][..pos + |parts[i]|];
      pos := pos + |parts[i]|;
      i := i + 1;
    }
    assert parts[..i] == parts;
  }

  datatype Reply = Pass | BadArgument

  class Message {
    var data: array<Byte>

    function Content(): String
      reads this, data
    {
      data[..]
    }

    /** msg_init */
    constructor ()
      ensures Content() == [] && fresh(data)
    {
      data := new Byte[0];
    }

    /** msg_init_size: the bytes may be anything. */
    constructor InitSize(size: nat)
      ensures |Content()| == size && fresh(data)
    {
      data := new Byte[size];
    }

    /** msg_init_data_multi, and msg_init_data_array for a table of strings. */
    constructor InitDataMulti(parts: seq<String>)
      ensures Content() == Concat(parts) && fresh(data)
    {
      var buffer := Gather(parts);
      data := buffer;
    }

    /** set_data: positions count from 1; a negative one is refused. */
    method SetData(position: int, bytes: String) returns (r: Reply)
      requires position != 0
      modifies this, data
      ensures r == (if position < 0 then BadArgument else Pass)
      ensures r.BadArgument? ==> data == old(data) && Content() == old(Content())
      ensures r.Pass? ==> IsSplice(old(Content()), position - 1, bytes, Content())
      ensures r.Pass? && position - 1 <= |old(Content())| ==> Content() == Splice(old(Content()), position - 1, bytes)
      ensures data == old(data) || fresh(data)
    {
      if position < 0 { return BadArgument; }
      ghost var was := Content();
      var start := position - 1;
      if start + |bytes| > data.Length { Grow(start + |bytes|); }
      ghost var grown := Content();
      Memcpy(data, start, bytes);
      GrownThenCopied(was, start, bytes, grown, Content());
      if start <= |was| { SpliceIsDetermined(was, start, bytes, Content()); }
      return Pass;
    }

    /** A larger buffer takes the place of the old one, and starts with its bytes. */
    method Grow(size: nat)
      requires size > data.Length
      modifies this
      ensures IsResized(old(Content()), size, Content()) && fresh(data)
    {
      var larger := new Byte[size];
      Memcpy(larger, 0, data[..]);
      data := larger;
    }

    /** set_size */
    method SetSize(size: nat)
      modifies this
      ensures IsResized(old(Content()), size, Content())
      ensures size == |old(Content())| ==> Content() == old(Content())
      ensures data == old(data) || fresh(data)
    {
      if size == data.Length { return; }
      var other := new Byte[size];
      Memcpy(other, 0, data[..if size > data.Length then data.Length else size]);
      data := other;
    }

    /** move into this message: the source is left empty.  (Moving a message onto itself is libzmq's affair.) */
    method Move(src: Message)
      requires src != this
      modifies this, src
      ensures Content() == old(src.Content()) && src.Content() == [] && fresh(src.data)
    {
      data := src.data;
      src.data := new Byte[0];
    }
  }
}
