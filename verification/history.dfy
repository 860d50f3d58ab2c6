// What a per-process buffer is meant to hold, stated over the sequence of every event
// ever pushed into it, and what a report is meant to show of that sequence.

module History {
  import opened Types

  type Events = seq<SyscallEvent>

  const EINPROGRESS := 115
  const SLOW_NS := 100_000_000
  const MAX_PRIORITY := 100

  predicate IsError(e: SyscallEvent) {
    e.ret < 0 && e.ret != -EINPROGRESS
  }

  predicate IsSlow(e: SyscallEvent) {
    e.latency > SLOW_NS && e.ret != -EINPROGRESS
  }

  // ----- selections from a history

  datatype Selection = Errors | Slow | At(time: u64)

  predicate Selected(sel: Selection, e: SyscallEvent) {
    match sel
    case Errors => IsError(e)
    case Slow => IsSlow(e)
    case At(t) => e.timestamp == t
  }

  function Keep(s: Events, sel: Selection): Events {
    if s == [] then []
    else
      var last := s[|s| - 1];
      if Selected(sel, last) then Keep(s[..|s| - 1], sel) + [last] else Keep(s[..|s| - 1], sel)
  }

  lemma KeepSnoc(s: Events, e: SyscallEvent, sel: Selection)
    ensures Keep(s + [e], sel) == if Selected(sel, e) then Keep(s, sel) + [e] else Keep(s, sel)
  {
    assert (s + [e])[..|s|] == s;
  }

  lemma {:induction false} KeepConcat(a: Events, b: Events, sel: Selection)
    ensures Keep(a + b, sel) == Keep(a, sel) + Keep(b, sel)
  {
    if b == [] {
      assert a + b == a;
    } else {
      var b' := b[..|b| - 1];
      KeepConcat(a, b', sel);
      assert a + b == (a + b') + [b[|b| - 1]];
      KeepSnoc(a + b', b[|b| - 1], sel);
    }
  }

  lemma {:induction false} KeepMember(s: Events, sel: Selection, e: SyscallEvent)
    ensures e in Keep(s, sel) <==> e in s && Selected(sel, e)
  {
    if s != [] {
      KeepMember(s[..|s| - 1], sel, e);
      assert s == s[..|s| - 1] + [s[|s| - 1]];
    }
  }

  function FirstN(s: Events, n: nat): Events {
    s[..Min(n, |s|)]
  }

  function LastN(s: Events, n: nat): Events {
    s[|s| - Min(n, |s|)..]
  }

  function FirstErrors(h: Events): Events {
    FirstN(Keep(h, Errors), MAX_PRIORITY)
  }

  function FirstSlow(h: Events): Events {
    FirstN(Keep(h, Slow), MAX_PRIORITY)
  }

  /** Where selected events stand among the first n. */
  ghost function PositionsOf(h: Events, sel: Selection, n: nat): (at: seq<nat>)
    requires n <= |h|
    ensures forall k :: 0 <= k < |at| ==> at[k] < n && Selected(sel, h[at[k]])
    ensures forall j, k :: 0 <= j < k < |at| ==> at[j] < at[k]
  {
    if n == 0 then []
    else if Selected(sel, h[n - 1]) then PositionsOf(h, sel, n - 1) + [n - 1]
    else PositionsOf(h, sel, n - 1)
  }

  lemma {:induction false} NoneMissing(h: Events, sel: Selection, n: nat, i: nat)
    requires i < n <= |h| && Selected(sel, h[i])
    ensures i in PositionsOf(h, sel, n)
  {
    hide Selected;
    var at := PositionsOf(h, sel, n);
    if i == n - 1 {
      assert at[|at| - 1] == i;
    } else {
      NoneMissing(h, sel, n - 1, i);
      var k :| 0 <= k < |PositionsOf(h, sel, n - 1)| && PositionsOf(h, sel, n - 1)[k] == i;
      assert at[k] == i;
    }
  }

  /** Keep takes exactly the events at those positions. */
  lemma {:induction false} KeepAtPositions(h: Events, sel: Selection, n: nat)
    requires n <= |h|
    ensures |Keep(h[..n], sel)| == |PositionsOf(h, sel, n)|
    ensures forall k :: 0 <= k < |PositionsOf(h, sel, n)| ==> Keep(h[..n], sel)[k] == h[PositionsOf(h, sel, n)[k]]
  {
    hide Keep, Selected;
    if n == 0 {
      assert Keep(h[..0], sel) == [] by { KeepNothing(sel); }
    } else {
      KeepAtPositions(h, sel, n - 1);
      assert h[..n] == h[..n - 1] + [h[n - 1]];
      KeepSnoc(h[..n - 1], h[n - 1], sel);
    }
  }

  lemma KeepNothing(sel: Selection)
    ensures Keep([], sel) == []
  {
  }

  lemma FirstAre(h: Events, sel: Selection) returns (at: seq<nat>)
    ensures |at| == |FirstN(Keep(h, sel), MAX_PRIORITY)| <= 100
    ensures forall k :: 0 <= k < |at| ==>
      at[k] < |h| && Selected(sel, h[at[k]]) && h[at[k]] == FirstN(Keep(h, sel), MAX_PRIORITY)[k]
    ensures forall j, k :: 0 <= j < k < |at| ==> at[j] < at[k]
    ensures forall i :: 0 <= i < |h| && Selected(sel, h[i]) && i !in at ==>
      |at| == 100 && forall k :: 0 <= k < 100 ==> at[k] < i
  {
    hide Keep, PositionsOf, Selected;
    KeepAtPositions(h, sel, |h|);
    assert h[..|h|] == h;
    var all := PositionsOf(h, sel, |h|);
    at := all[..Min(100, |all|)];
    forall i | 0 <= i < |h| && Selected(sel, h[i]) && i !in at
      ensures |at| == 100 && forall k :: 0 <= k < 100 ==> at[k] < i
    {
      NoneMissing(h, sel, |h|, i);
      var m :| 0 <= m < |all| && all[m] == i;
      assert forall x :: 0 <= x < |at| ==> at[x] == all[x];
    }
  }

  /** The error list: the first 100 events with a negative result other than EINPROGRESS,
      in order. */
  lemma FirstErrorsAre(h: Events) returns (at: seq<nat>)
    ensures |at| == |FirstErrors(h)| <= 100
    ensures forall k :: 0 <= k < |at| ==>
      at[k] < |h| && h[at[k]] == FirstErrors(h)[k] && h[at[k]].ret < 0 && h[at[k]].ret != -115
    ensures forall j, k :: 0 <= j < k < |at| ==> at[j] < at[k]
    ensures forall i :: 0 <= i < |h| && h[i].ret < 0 && h[i].ret != -115 && i !in at ==>
      |at| == 100 && forall k :: 0 <= k < 100 ==> at[k] < i
  {
    hide Keep, FirstN;
    at := FirstAre(h, Errors);
    assert forall i :: 0 <= i < |h| ==> (Selected(Errors, h[i]) <==> h[i].ret < 0 && h[i].ret != -115);
  }

  /** The slow list: the first 100 events that took more than 100 ms and did not end with
      EINPROGRESS, in order. */
  lemma FirstSlowAre(h: Events) returns (at: seq<nat>)
    ensures |at| == |FirstSlow(h)| <= 100
    ensures forall k :: 0 <= k < |at| ==>
      at[k] < |h| && h[at[k]] == FirstSlow(h)[k] && h[at[k]].latency > 100_000_000 && h[at[k]].ret != -115
    ensures forall j, k :: 0 <= j < k < |at| ==> at[j] < at[k]
    ensures forall i :: 0 <= i < |h| && h[i].latency > 100_000_000 && h[i].ret != -115 && i !in at ==>
      |at| == 100 && forall k :: 0 <= k < 100 ==> at[k] < i
  {
    hide Keep, FirstN;
    at := FirstAre(h, Slow);
    assert forall i :: 0 <= i < |h| ==> (Selected(Slow, h[i]) <==> h[i].latency > 100_000_000 && h[i].ret != -115);
  }

  /** Where selected events stand among the first n. */
  ghost function Found(h: Events, sel: Selection, n: nat): set<nat>
    requires n <= |h|
  {
    set i: nat | i < n && Selected(sel, h[i])
  }

  lemma {:induction false} CountIs(h: Events, sel: Selection, n: nat)
    requires n <= |h|
    ensures |Keep(h[..n], sel)| == |Found(h, sel, n)|
  {
    hide Found, Keep;
    if n == 0 {
      NoneFound(h, sel);
    } else {
      CountIs(h, sel, n - 1);
      OneFound(h, sel, n - 1);
      assert h[..n] == h[..n - 1] + [h[n - 1]];
      KeepSnoc(h[..n - 1], h[n - 1], sel);
    }
  }

  lemma NoneFound(h: Events, sel: Selection)
    ensures Found(h, sel, 0) == {} && Keep(h[..0], sel) == []
  {
  }

  lemma OneFound(h: Events, sel: Selection, n: nat)
    requires n < |h|
    ensures Found(h, sel, n + 1) == if Selected(sel, h[n]) then Found(h, sel, n) + {n} else Found(h, sel, n)
    ensures n !in Found(h, sel, n)
  {
  }

  /** The counts kept of errors and slow events are those of the whole history. */
  lemma CountsAre(h: Events)
    ensures |Keep(h, Errors)| == |set i: nat | i < |h| && h[i].ret < 0 && h[i].ret != -115|
    ensures |Keep(h, Slow)| == |set i: nat | i < |h| && h[i].latency > 100_000_000 && h[i].ret != -115|
  {
    hide Keep;
    CountIs(h, Errors, |h|);
    CountIs(h, Slow, |h|);
    assert h[..|h|] == h;
    assert Found(h, Errors, |h|) == set i: nat | i < |h| && h[i].ret < 0 && h[i].ret != -115;
    assert Found(h, Slow, |h|) == set i: nat | i < |h| && h[i].latency > 100_000_000 && h[i].ret != -115;
  }

  // ----- chronological order

  predicate Sorted(s: Events) {
    forall i, j :: 0 <= i < j < |s| ==> s[i].timestamp <= s[j].timestamp
  }

  /** r is s sorted by time, events of equal time in their order in s: a permutation,
      since every timestamp keeps exactly its own subsequence. */
  ghost predicate IsStableSort(s: Events, r: Events) {
    Sorted(r) && forall t: u64 :: Keep(r, At(t)) == Keep(s, At(t))
  }

  /** Put e behind every event that is not later than e. */
  function Insert(r: Events, e: SyscallEvent): Events {
    if r == [] || r[|r| - 1].timestamp <= e.timestamp then r + [e]
    else Insert(r[..|r| - 1], e) + [r[|r| - 1]]
  }

  function StableSort(s: Events): Events {
    if s == [] then [] else Insert(StableSort(s[..|s| - 1]), s[|s| - 1])
  }

  lemma {:induction false} InsertKeeps(r: Events, e: SyscallEvent, t: u64)
    requires Sorted(r)
    ensures Keep(Insert(r, e), At(t)) == Keep(r + [e], At(t))
  {
    if r != [] && r[|r| - 1].timestamp > e.timestamp {
      var r', last := r[..|r| - 1], r[|r| - 1];
      assert r == r' + [last];
      InsertKeeps(r', e, t);
      KeepSnoc(Insert(r', e), last, At(t));
      KeepSnoc(r', e, At(t));
      KeepSnoc(r', last, At(t));
      KeepSnoc(r, e, At(t));
    }
  }

  predicate AtMost(s: Events, t: u64) {
    forall i :: 0 <= i < |s| ==> s[i].timestamp <= t
  }

  lemma {:induction false} InsertSorted(r: Events, e: SyscallEvent, latest: u64)
    requires Sorted(r) && AtMost(r, latest) && e.timestamp <= latest
    ensures Sorted(Insert(r, e)) && AtMost(Insert(r, e), latest)
  {
    if r != [] && r[|r| - 1].timestamp > e.timestamp {
      InsertSorted(r[..|r| - 1], e, r[|r| - 1].timestamp);
    }
  }

  lemma {:induction false} InsertPermutes(r: Events, e: SyscallEvent)
    ensures |Insert(r, e)| == |r| + 1
    ensures multiset(Insert(r, e)) == multiset(r) + multiset{e}
  {
    if r != [] && r[|r| - 1].timestamp > e.timestamp {
      InsertPermutes(r[..|r| - 1], e);
      assert r == r[..|r| - 1] + [r[|r| - 1]];
    }
  }

  /** StableSort meets the order-independent description of a stable sort. */
  lemma {:induction false} StableSortIsStable(s: Events)
    ensures IsStableSort(s, StableSort(s))
    ensures |StableSort(s)| == |s| && multiset(StableSort(s)) == multiset(s)
  {
    if s != [] {
      var s', e := s[..|s| - 1], s[|s| - 1];
      assert s == s' + [e];
      StableSortIsStable(s');
      InsertSorted(StableSort(s'), e, TWO_64 - 1);
      InsertPermutes(StableSort(s'), e);
      forall t: u64 ensures Keep(StableSort(s), At(t)) == Keep(s, At(t)) {
        InsertKeeps(StableSort(s'), e, t);
        KeepSnoc(StableSort(s'), e, At(t));
      }
    }
  }

  lemma LastIsLatest(a: Events, b: Events, e: SyscallEvent)
    requires Sorted(b) && a != [] && e == a[|a| - 1]
    requires Keep(a, At(e.timestamp)) == Keep(b, At(e.timestamp))
    ensures b != [] && e.timestamp <= b[|b| - 1].timestamp
  {
    KeepMember(a, At(e.timestamp), e);
    KeepMember(b, At(e.timestamp), e);
  }

  lemma WithoutLast(a: Events, b: Events, x: SyscallEvent, t: u64)
    requires Keep(a + [x], At(t)) == Keep(b + [x], At(t))
    ensures Keep(a, At(t)) == Keep(b, At(t))
  {
    KeepSnoc(a, x, At(t));
    KeepSnoc(b, x, At(t));
    if x.timestamp == t {
      assert (Keep(a, At(t)) + [x])[..|Keep(a, At(t))|] == Keep(a, At(t));
      assert (Keep(b, At(t)) + [x])[..|Keep(b, At(t))|] == Keep(b, At(t));
    }
  }

  /** A stable sort is unique: nothing else may be returned. */
  lemma {:induction false} StableSortUnique(a: Events, b: Events)
    requires Sorted(a) && Sorted(b)
    requires forall t: u64 :: Keep(a, At(t)) == Keep(b, At(t))
    ensures a == b
    decreases |a|
  {
    hide Keep;
    if a == [] {
      if b != [] { LastIsLatest(b, a, b[|b| - 1]); }
    } else {
      var x := a[|a| - 1];
      LastIsLatest(a, b, x);
      var y := b[|b| - 1];
      LastIsLatest(b, a, y);
      var a', b' := a[..|a| - 1], b[..|b| - 1];
      assert a == a' + [x] && b == b' + [y];
      SameLast(a', b', x, y);
      forall t: u64 ensures Keep(a', At(t)) == Keep(b', At(t)) {
        WithoutLast(a', b', x, t);
      }
      StableSortUnique(a', b');
    }
  }

  lemma SameLast(a: Events, b: Events, x: SyscallEvent, y: SyscallEvent)
    requires x.timestamp == y.timestamp
    requires Keep(a + [x], At(x.timestamp)) == Keep(b + [y], At(x.timestamp))
    ensures x == y
  {
    KeepSnoc(a, x, At(x.timestamp));
    KeepSnoc(b, y, At(x.timestamp));
  }

  // ----- what a drain shows

  const PLAIN_CONTEXT := 50
  const PRIORITY_CONTEXT := 30

  predicate HasPriority(h: Events) {
    Keep(h, Errors) != [] || Keep(h, Slow) != []
  }

  /** The unsorted material of a drain with priority events, for a ring of `size` slots. */
  function Priorities(h: Events, size: nat): Events {
    FirstErrors(h) + FirstSlow(h) + LastN(h, Min(PRIORITY_CONTEXT, size))
  }

  function DrainOf(h: Events, size: nat): Events {
    if HasPriority(h) then StableSort(Priorities(h, size)) else LastN(h, Min(PLAIN_CONTEXT, size))
  }
}
