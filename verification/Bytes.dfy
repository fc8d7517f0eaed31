/** Byte strings. */
module Bytes {
  newtype Byte = x: int | 0 <= x < 256

  type String = seq<Byte>

  function Concat(parts: seq<String>): String {
    if parts == [] then [] else Concat(parts[..|parts| - 1]) + parts[|parts| - 1]
  }

  lemma {:induction false} ConcatNext(parts: seq<String>, i: nat)
    requires i < |parts|
    ensures Concat(parts[..i + 1]) == Concat(parts[..i]) + parts[i]
  {
    assert parts[..i + 1][..i] == parts[..i];
  }

  /** Joining is one string after another, whichever are joined first. */
  lemma {:induction false} ConcatJoin(a: seq<String>, b: seq<String>)
    ensures Concat(a + b) == Concat(a) + Concat(b) && (|a| == 1 ==> Concat(a) == a[0])
    decreases |b|
  {
    if b == [] {
      assert a + b == a;
    } else {
      var n := |b| - 1;
      assert (a + b)[..|a| + n] == a + b[..n];
      ConcatJoin(a, b[..n]);
    }
    if |a| == 1 { assert a[..0] == []; }
  }

  /** What the first parts take up fits into what all take up. */
  lemma {:induction false} ConcatFits(parts: seq<String>, i: nat)
    requires i <= |parts|
    ensures |Concat(parts[..i])| <= |Concat(parts)|
    decreases |parts| - i
  {
    if i < |parts| {
      ConcatNext(parts, i);
      ConcatFits(parts, i + 1);
    } else {
      assert parts[..i] == parts;
    }
  }
}
