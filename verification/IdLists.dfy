/** Lists of identifiers: removing a set of them keeps the order of the rest. */
module IdLists {

  function Without(list: seq<nat>, gone: set<nat>): (r: seq<nat>)
    ensures |r| <= |list|
  {
    if list == [] then []
    else if list[0] in gone then Without(list[1..], gone)
    else [list[0]] + Without(list[1..], gone)
  }

  /** The identifiers lo, lo+1, ..., hi-1. */
  function Range(lo: nat, hi: nat): (r: seq<nat>)
    requires lo <= hi
    ensures |r| == hi - lo
    ensures forall k :: 0 <= k < |r| ==> r[k] == lo + k
  {
    seq(hi - lo, k requires 0 <= k < hi - lo => lo + k)
  }

  ghost predicate Distinct<T>(list: seq<T>) {
    forall j, k :: 0 <= j < k < |list| ==> list[j] != list[k]
  }

  lemma {:induction false} RangeSplit(lo: nat, mid: nat, hi: nat)
    requires lo <= mid <= hi
    ensures Range(lo, hi) == Range(lo, mid) + Range(mid, hi)
  {
  }

  lemma {:induction false} WithoutConcat(a: seq<nat>, b: seq<nat>, gone: set<nat>)
    ensures Without(a + b, gone) == Without(a, gone) + Without(b, gone)
  {
    if a == [] {
      assert a + b == b;
    } else {
      assert (a + b)[1..] == a[1..] + b;
      WithoutConcat(a[1..], b, gone);
    }
  }

  lemma {:induction false} WithoutCons(x: nat, rest: seq<nat>, gone: set<nat>)
    ensures Without([x] + rest, gone) == if x in gone then Without(rest, gone) else [x] + Without(rest, gone)
  {
    assert ([x] + rest)[1..] == rest;
  }

  lemma {:induction false} WithoutMember(list: seq<nat>, gone: set<nat>, x: nat)
    ensures x in Without(list, gone) <==> x in list && x !in gone
  {
    if list != [] {
      assert list == [list[0]] + list[1..];
      WithoutMember(list[1..], gone, x);
    }
  }

  lemma {:induction false} WithoutUnion(list: seq<nat>, first: set<nat>, second: set<nat>)
    ensures Without(Without(list, first), second) == Without(list, first + second)
  {
    if list != [] {
      WithoutUnion(list[1..], first, second);
      if list[0] !in first {
        var tail := Without(list[1..], first);
        assert ([list[0]] + tail)[1..] == tail;
      }
    }
  }

  lemma {:induction false} WithoutNothing(list: seq<nat>, gone: set<nat>)
    requires forall x :: x in list ==> x !in gone
    ensures Without(list, gone) == list
  {
    if list != [] {
      WithoutNothing(list[1..], gone);
    }
  }

  lemma {:induction false} WithoutDistinct(list: seq<nat>, gone: set<nat>)
    requires Distinct(list)
    ensures Distinct(Without(list, gone))
  {
    if list != [] {
      WithoutDistinct(list[1..], gone);
      WithoutMember(list[1..], gone, list[0]);
    }
  }

  /** Taking one position out of a list of distinct identifiers. */
  lemma {:induction false} WithoutOne(list: seq<nat>, i: nat)
    requires Distinct(list) && i < |list|
    ensures Without(list, {list[i]}) == list[..i] + list[i + 1..]
  {
    if i == 0 {
      WithoutNothing(list[1..], {list[0]});
    } else {
      var tail := list[1..];
      WithoutOne(tail, i - 1);
      assert list[..i] == [list[0]] + tail[..i - 1];
      assert list[i + 1..] == tail[i..];
    }
  }

  /** Positions only ever decrease: what stood before position i and survives still stands before i. */
  lemma {:induction false} PrefixStays(list: seq<nat>, extra: seq<nat>, gone: set<nat>, i: nat, x: nat)
    requires i <= |list| && x in list[..i] && x !in gone
    ensures var after := Without(list + extra, gone); x in if i <= |after| then after[..i] else after
  {
    var first, later := Without(list[..i], gone), Without(list[i..] + extra, gone);
    assert list + extra == list[..i] + (list[i..] + extra);
    WithoutConcat(list[..i], list[i..] + extra, gone);
    assert Without(list + extra, gone) == first + later;
    WithoutMember(list[..i], gone, x);
    assert x in first && |first| <= i;
  }
}
