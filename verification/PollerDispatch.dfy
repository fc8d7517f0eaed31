/** Dispatch is safe under removal: one poll of the C stack serves exactly the ready entries. */
module PollerDispatch {
  import opened PollerModel

  /** The entries the cursor has not passed are those of `was`, up to their events and callbacks. */
  ghost predicate SameBelow(was: seq<Entry>, es: seq<Entry>, top: int) {
    && top < |was| && top < |es|
    && forall j :: 0 <= j <= top ==> es[j].key == was[j].key && es[j].revents == was[j].revents
  }

  /** A modification that keeps the registration. */
  predicate Updates(op: Op) {
    op.Modify? && !Removes(op)
  }

  lemma {:induction false} ApplyKeepsBelow(es: seq<Entry>, top: int, op: Op)
    requires -1 <= top < |es| && Allowed(es, top, op)
    ensures SameBelow(es, Apply(es, op), top)
    ensures forall j :: 0 <= j <= top && (Updates(op) ==> es[j].key != op.key) ==> Apply(es, op)[j] == es[j]
  {
    var i := Find(es, op.key);
    if Removes(op) {
      assert Apply(es, op) == Drop(es, i) && i > top;
    } else if op.Modify? && i >= 0 {
      var e := es[i].(events := ToShort(op.events), cb := op.change.value);
      assert Apply(es, op) == es[i := e];
    } else {
      var cb := if op.Add? then op.cb else op.change.value;
      assert Apply(es, op) == Append(es, op.key, op.events, cb);
    }
  }

  /** Whatever a callback adds, modifies or removes among the entries the cursor has passed. */
  lemma {:induction false} ObeyKeepsBelow(es: seq<Entry>, top: int, ops: seq<Op>)
    requires -1 <= top < |es|
    ensures SameBelow(es, Obey(es, top, ops), top)
    decreases |ops|
  {
    if ops != [] {
      if Allowed(es, top, ops[0]) {
        ApplyKeepsBelow(es, top, ops[0]);
        ObeyKeepsBelow(Apply(es, ops[0]), top, ops[1..]);
      } else {
        ObeyKeepsBelow(es, top, ops[1..]);
      }
    }
  }

  /** An entry that the callback does not modify stays as it is. */
  lemma {:induction false} ObeyKeepsUnmodified(es: seq<Entry>, top: int, ops: seq<Op>, at: nat)
    requires at <= top < |es|
    requires forall op :: op in ops && Updates(op) ==> op.key != es[at].key
    ensures at < |Obey(es, top, ops)| && Obey(es, top, ops)[at] == es[at]
    decreases |ops|
  {
    if ops != [] {
      if Allowed(es, top, ops[0]) {
        ApplyKeepsBelow(es, top, ops[0]);
        ObeyKeepsUnmodified(Apply(es, ops[0]), top, ops[1..], at);
      } else {
        ObeyKeepsUnmodified(es, top, ops[1..], at);
      }
    }
  }

  /** The entries up to `top` keep their revents. */
  ghost predicate SameRevents(was: seq<Entry>, es: seq<Entry>, top: int) {
    top < |was| && top < |es| && forall j :: 0 <= j <= top ==> es[j].revents == was[j].revents
  }

  /** And those that are ready keep their keys: what is pending below the cursor stays as it is. */
  ghost predicate SamePending(was: seq<Entry>, es: seq<Entry>, top: int) {
    SameRevents(was, es, top) && forall j :: 0 <= j <= top && was[j].revents != 0 ==> es[j].key == was[j].key
  }

  lemma {:induction false} SameReady(was: seq<Entry>, es: seq<Entry>, top: int)
    requires -1 <= top && SameRevents(was, es, top)
    ensures NextReady(es, top) == NextReady(was, top) && ReadyDown(es, top) == ReadyDown(was, top)
    decreases top
  {
    if top >= 0 {
      SameReady(was, es, top - 1);
    }
  }

  lemma {:induction false} NextIsFirst(es: seq<Entry>, cursor: int)
    requires -1 <= cursor < |es|
    ensures NextReady(es, cursor) < 0 <==> ReadyDown(es, cursor) == []
    ensures NextReady(es, cursor) >= 0 ==>
              ReadyDown(es, cursor) == [NextReady(es, cursor)] + ReadyDown(es, NextReady(es, cursor) - 1)
    decreases cursor
  {
    if cursor >= 0 && es[cursor].revents == 0 {
      NextIsFirst(es, cursor - 1);
    }
  }

  lemma {:induction false} NextReadyIs(es: seq<Entry>, cursor: int, i: int)
    requires -1 <= i <= cursor < |es| && (i >= 0 ==> es[i].revents != 0)
    requires forall j :: i < j <= cursor ==> es[j].revents == 0
    ensures NextReady(es, cursor) == i
    decreases cursor
  {
    if i < cursor { NextReadyIs(es, cursor - 1, i); }
  }

  /** The positions in ReadyDown are the ready ones, all of them, from the highest down. */
  lemma {:induction false} ReadyDownIsExact(es: seq<Entry>, cursor: int)
    requires -1 <= cursor < |es|
    ensures forall i :: 0 <= i <= cursor ==> (es[i].revents != 0 <==> i in ReadyDown(es, cursor))
    ensures forall j, k :: 0 <= j < k < |ReadyDown(es, cursor)| ==> ReadyDown(es, cursor)[j] > ReadyDown(es, cursor)[k]
    decreases cursor
  {
    if cursor >= 0 {
      ReadyDownIsExact(es, cursor - 1);
    }
  }

  // ----- the dispatch loop -----

  /** A run of the dispatch loop: states[j] and cursors[j] before step j, and the callback served in step j.
      What the callbacks do to the entries is left open. */
  datatype Run = Run(states: seq<seq<Entry>>, cursors: seq<int>, served: seq<Served>) {

    ghost predicate Valid() {
      && |states| == |cursors| == |served| + 1
      && (forall j :: 0 <= j < |states| ==> -1 <= cursors[j] < |states[j]|)
      && (forall j :: 0 <= j < |served| ==> ServesAt(j))
    }

    /** Step j serves the entry the cursor finds, and the cursor goes below it. */
    ghost predicate ServesAt(j: nat)
      requires j < |served| && |states| == |cursors| == |served| + 1 && -1 <= cursors[j] < |states[j]|
    {
      && NextReady(states[j], cursors[j]) >= 0
      && served[j] == Serve(states[j], NextReady(states[j], cursors[j]))
      && cursors[j + 1] == served[j].at - 1
    }

    /** The first n callbacks leave alone what is pending. */
    ghost predicate SparesUpTo(n: nat)
      requires Valid() && n <= |served|
    {
      forall j :: 0 <= j < n ==> SamePending(states[j], states[j + 1], cursors[j + 1])
    }

    /** All of them do. */
    ghost predicate SparesPending()
      requires Valid()
    {
      SparesUpTo(|served|)
    }

    /** The first n callbacks do not change revents of what the cursor has not passed. */
    ghost predicate KeepsRevents(n: nat)
      requires Valid() && n <= |served|
    {
      forall j :: 0 <= j < n ==> SameRevents(states[j], states[j + 1], cursors[j + 1])
    }

    ghost function Es(): seq<Entry>
      requires Valid()
    {
      states[0]
    }

    ghost function Ready(): seq<nat>
      requires Valid()
    {
      ReadyDown(states[0], cursors[0])
    }

    function Extend(es: seq<Entry>, i: nat, s: Served): Run {
      Run(states + [es], cursors + [i - 1], served + [s])
    }
  }

  /** One more step: what the cursor finds is served, and its callback leaves `after`. */
  lemma {:induction false} ExtendValid(run: Run, after: seq<Entry>, i: nat) returns (longer: Run)
    requires run.Valid() && i == NextReady(Last(run), run.cursors[|run.served|]) && i - 1 < |after|
    ensures longer == run.Extend(after, i, Serve(Last(run), i)) && longer.Valid()
  {
    var n := |run.served|;
    longer := run.Extend(after, i, Serve(run.states[n], i));
    forall j | 0 <= j < n + 1
      ensures longer.ServesAt(j)
    {
      if j < n { assert run.ServesAt(j); }
    }
  }

  /** The entries a run has led to. */
  ghost function Last(run: Run): seq<Entry> {
    if run.Valid() then run.states[|run.served|] else []
  }

  /** The cursor finds nothing more. */
  predicate Exhausted(es: seq<Entry>, cursor: int) {
    -1 <= cursor < |es| && NextReady(es, cursor) == -1
  }

  /** After j steps, the positions pending are those that were, below the cursor. */
  lemma {:induction false} PositionsAfter(r: Run, j: nat)
    requires r.Valid() && j <= |r.served| && r.KeepsRevents(j)
    ensures r.cursors[j] <= r.cursors[0] && SameRevents(r.Es(), r.states[j], r.cursors[j])
    ensures j <= |r.Ready()| && r.Ready()[j..] == ReadyDown(r.Es(), r.cursors[j])
    decreases j
  {
    if j > 0 {
      PositionsAfter(r, j - 1);
      PositionAt(r, j - 1);
      assert r.ServesAt(j - 1);
      assert SameRevents(r.states[j - 1], r.states[j], r.cursors[j]);
      SuffixNext(r.Ready(), j - 1, r.served[j - 1].at, ReadyDown(r.Es(), r.cursors[j]));
    }
  }

  /** The next entry served is the next one pending. */
  lemma {:induction false} PositionAt(r: Run, j: nat)
    requires r.Valid() && j < |r.served| && -1 <= r.cursors[j] && SameRevents(r.Es(), r.states[j], r.cursors[j])
    ensures 0 <= r.served[j].at <= r.cursors[j] < |r.Es()|
    ensures r.cursors[j + 1] == r.served[j].at - 1
    ensures ReadyDown(r.Es(), r.cursors[j]) == [r.served[j].at] + ReadyDown(r.Es(), r.served[j].at - 1)
  {
    assert r.ServesAt(j);
    SameReady(r.Es(), r.states[j], r.cursors[j]);
    NextIsFirst(r.Es(), r.cursors[j]);
  }

  lemma {:induction false} SuffixNext(s: seq<nat>, j: nat, x: nat, rest: seq<nat>)
    requires j <= |s| && s[j..] == [x] + rest
    ensures j < |s| && s[j] == x && s[j + 1..] == rest
  {
    assert s[j] == s[j..][0] && s[j + 1..] == s[j..][1..];
  }

  lemma {:induction false} ServesPosition(r: Run, j: nat)
    requires r.Valid() && j < |r.served| && r.KeepsRevents(j)
    ensures j < |r.Ready()| && r.Ready()[j] == r.served[j].at <= r.cursors[0]
  {
    PositionsAfter(r, j);
    PositionAt(r, j);
    SuffixNext(r.Ready(), j, r.served[j].at, ReadyDown(r.Es(), r.served[j].at - 1));
  }

  /** And so are the keys. */
  lemma {:induction false} PendingAfter(r: Run, j: nat)
    requires r.Valid() && j <= |r.served| && r.SparesUpTo(j)
    ensures r.KeepsRevents(j) && SamePending(r.Es(), r.states[j], r.cursors[j])
    decreases j
  {
    if j > 0 {
      PendingAfter(r, j - 1);
      assert r.ServesAt(j - 1);
      assert SamePending(r.states[j - 1], r.states[j], r.cursors[j]);
    }
    PositionsAfter(r, j);
  }

  /** What is served in step j, when the callbacks before it left alone what is pending. */
  lemma {:induction false} ServesPending(r: Run, j: nat)
    requires r.Valid() && j < |r.served| && r.SparesUpTo(j)
    ensures j < |r.Ready()| && r.served[j].at == r.Ready()[j]
    ensures r.served[j].key == r.Es()[r.Ready()[j]].key && r.served[j].revents == r.Es()[r.Ready()[j]].revents
  {
    PendingAfter(r, j);
    ServesPosition(r, j);
    assert r.ServesAt(j);
  }

  /** While fewer callbacks were called than entries were ready, the cursor finds another one. */
  lemma {:induction false} DispatchGoesOn(r: Run)
    requires r.Valid() && r.SparesPending()
    ensures |r.served| <= |r.Ready()|
    ensures NextReady(r.states[|r.served|], r.cursors[|r.served|]) >= 0 <==> |r.served| < |r.Ready()|
  {
    var j := |r.served|;
    PendingAfter(r, j);
    PositionsAfter(r, j);
    SameReady(r.Es(), r.states[j], r.cursors[j]);
    NextIsFirst(r.Es(), r.cursors[j]);
  }

  /** The j-th callback served belongs to the j-th ready entry, counted from the top, and gets its revents. */
  ghost predicate ServesReady(es: seq<Entry>, ready: seq<nat>, served: seq<Served>)
    requires forall k :: 0 <= k < |ready| ==> ready[k] < |es|
  {
    && |served| == |ready|
    && forall k :: 0 <= k < |ready| ==>
         served[k].at == ready[k] && served[k].key == es[ready[k]].key && served[k].revents == es[ready[k]].revents
  }

  /** When the callbacks leave alone what is pending, as many steps as there are ready entries serve exactly
      those, once each, in strictly descending order of position, each with its own revents; and the cursor
      then finds nothing more. */
  lemma {:induction false} DispatchServesReady(r: Run)
    requires r.Valid() && r.SparesPending() && |r.served| == |r.Ready()|
    ensures ServesReady(r.Es(), r.Ready(), r.served)
    ensures NextReady(r.states[|r.served|], r.cursors[|r.served|]) == -1
  {
    DispatchGoesOn(r);
    forall k | 0 <= k < |r.served|
      ensures r.served[k].at == r.Ready()[k]
      ensures r.served[k].key == r.Es()[r.Ready()[k]].key && r.served[k].revents == r.Es()[r.Ready()[k]].revents
    {
      ServesPending(r, k);
    }
  }

  /** The callbacks run these scripts, as far as they are allowed to. */
  ghost predicate Obeys(r: Run, scripts: seq<seq<Op>>)
    requires r.Valid()
  {
    forall j :: 0 <= j < |r.served| ==>
      r.states[j + 1] == Obey(r.states[j], r.cursors[j + 1], ScriptAt(scripts, j))
  }

  function ScriptAt(scripts: seq<seq<Op>>, j: nat): seq<Op> {
    if j < |scripts| then scripts[j] else []
  }

  /** Callbacks that keep to what is allowed leave alone what is pending. */
  lemma {:induction false} ObeyingSparesPending(r: Run, scripts: seq<seq<Op>>)
    requires r.Valid() && Obeys(r, scripts)
    ensures r.SparesPending()
  {
    forall j | 0 <= j < |r.served|
      ensures SameBelow(r.states[j], r.states[j + 1], r.cursors[j + 1])
    {
      assert r.ServesAt(j);
      ObeyKeepsBelow(r.states[j], r.cursors[j + 1], ScriptAt(scripts, j));
    }
  }

  ghost predicate Unmodified(key: Key, scripts: seq<seq<Op>>, n: nat) {
    forall j, op :: 0 <= j < n && op in ScriptAt(scripts, j) && Updates(op) ==> op.key != key
  }

  /** An entry that no earlier callback modified is served with the callback it had when the poll began. */
  lemma {:induction false} ServedAsRegistered(r: Run, scripts: seq<seq<Op>>, j: nat, at: nat)
    requires r.Valid() && Obeys(r, scripts) && j <= |r.served| && at <= r.cursors[j]
    requires at < |r.Es()| && Unmodified(r.Es()[at].key, scripts, j)
    ensures r.states[j][at] == r.Es()[at]
    ensures j < |r.served| && r.served[j].at == at ==> r.served[j].cb == r.Es()[at].cb
    decreases j
  {
    if j < |r.served| { assert r.ServesAt(j); }
    if j > 0 {
      assert r.ServesAt(j - 1);
      ServedAsRegistered(r, scripts, j - 1, at);
      ObeyKeepsUnmodified(r.states[j - 1], r.cursors[j], ScriptAt(scripts, j - 1), at);
    }
  }

  // ----- what happens when a callback removes a pending entry -----

  ghost predicate DistinctKeys(es: seq<Entry>) {
    forall j, k :: 0 <= j < k < |es| ==> es[j].key != es[k].key
  }

  /** As far as what is pending goes, callback n leaves `after`, and the others, before and after it, do nothing. */
  ghost predicate OnlyStep(r: Run, n: nat, after: seq<Entry>)
    requires r.Valid() && n < |r.served|
  {
    && r.SparesUpTo(n)
    && SamePending(after, r.states[n + 1], r.cursors[n + 1])
    && forall j :: n < j < |r.served| ==> SamePending(r.states[j], r.states[j + 1], r.cursors[j + 1])
  }

  /** Exactly when a callback may remove an entry: when callback n removes position p, and otherwise the callbacks do
      what they like to entries that are not pending, the ready entries are served, each once and with its own
      revents, if and only if p is not below the current entry, or the current one is the last that is ready.
      Otherwise the current entry is served again in the place of a ready one. */
  lemma {:induction false} RemovalIsSafeIff(r: Run, n: nat, p: nat)
    requires r.Valid() && DistinctKeys(r.Es()) && |r.served| == |r.Ready()|
    requires n < |r.served| && p < |r.states[n]| && OnlyStep(r, n, Drop(r.states[n], p))
    ensures ServesReady(r.Es(), r.Ready(), r.served) <==> p >= r.served[n].at || n + 1 == |r.served|
  {
    if p >= r.served[n].at {
      assert r.ServesAt(n);
      assert r.SparesPending();
      DispatchServesReady(r);
    } else if n + 1 == |r.served| {
      LastMayRemove(r, n);
    } else {
      ServedTwice(r, n, p);
      assert r.served[n + 1].key != r.Es()[r.Ready()[n + 1]].key;
    }
  }

  /** What the last callback does comes too late to matter. */
  lemma {:induction false} LastMayRemove(r: Run, n: nat)
    requires r.Valid() && |r.served| == |r.Ready()| == n + 1 && r.SparesUpTo(n)
    ensures ServesReady(r.Es(), r.Ready(), r.served)
  {
    forall k | 0 <= k < |r.served|
      ensures r.served[k].at == r.Ready()[k]
      ensures r.served[k].key == r.Es()[r.Ready()[k]].key && r.served[k].revents == r.Es()[r.Ready()[k]].revents
    {
      ServesPending(r, k);
    }
  }

  /** The current entry moves down by one, where the cursor finds it again. */
  lemma {:induction false} ServedTwice(r: Run, n: nat, p: nat)
    requires r.Valid() && DistinctKeys(r.Es()) && |r.served| == |r.Ready()| && n + 1 < |r.served|
    requires p < r.served[n].at && p < |r.states[n]| && OnlyStep(r, n, Drop(r.states[n], p))
    ensures r.served[n + 1].key == r.served[n].key
    ensures r.served[n + 1].key != r.Es()[r.Ready()[n + 1]].key
  {
    var at := r.served[n].at;
    ServesPending(r, n);
    assert r.ServesAt(n);
    assert Drop(r.states[n], p)[at - 1] == r.states[n][at];
    assert r.states[n + 1][at - 1].key == r.states[n][at].key && r.states[n + 1][at - 1].revents != 0;
    assert r.ServesAt(n + 1);
    assert NextReady(r.states[n + 1], at - 1) == at - 1;
    ReadyDownIsExact(r.Es(), r.cursors[0]);
    assert r.Ready()[n] > r.Ready()[n + 1];
  }
}
