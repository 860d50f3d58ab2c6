// The bounded history of one process: a ring of recent events beside two capped
// lists of errors and slow operations that later events cannot overwrite.

module CircularBuffers {
  import opened Types
  import opened History
  import opened Arithmetic

  /** One round of the sort: shift the later events of the sorted front up by one and
      drop events[i] into the gap. */
  method ShiftIn(events: array<SyscallEvent>, i: nat)
    requires i < events.Length
    modifies events
    ensures events[..i + 1] == Insert(old(events[..i]), old(events[i]))
    ensures forall k :: i < k < events.Length ==> events[k] == old(events[k])
  {
    hide Insert;
    ghost var front := events[..i];
    var key := events[i];
    var j := i - 1;
    while j >= 0 && events[j].timestamp > key.timestamp
      invariant -1 <= j < i
      invariant forall k :: 0 <= k <= j ==> events[k] == front[k]
      invariant forall k :: j + 1 < k <= i ==> events[k] == front[k - 1]
      invariant forall k :: j < k < i ==> front[k].timestamp > key.timestamp
      invariant forall k :: i < k < events.Length ==> events[k] == old(events[k])
    {
      events[j + 1] := events[j];
      j := j - 1;
    }
    events[j + 1] := key;
    Shifted(front, key, j + 1, events[..i + 1]);
  }

  lemma Shifted(front: Events, key: SyscallEvent, m: nat, s: Events)
    requires m <= |front| && |s| == |front| + 1
    requires m == 0 || front[m - 1].timestamp <= key.timestamp
    requires forall k :: m <= k < |front| ==> front[k].timestamp > key.timestamp
    requires forall k :: 0 <= k < m ==> s[k] == front[k]
    requires s[m] == key
    requires forall k :: m < k < |s| ==> s[k] == front[k - 1]
    ensures s == Insert(front, key)
  {
    InsertAt(front, m, key);
  }

  lemma {:induction false} InsertAt(r: Events, m: nat, e: SyscallEvent)
    requires m <= |r|
    requires m == 0 || r[m - 1].timestamp <= e.timestamp
    requires forall k :: m <= k < |r| ==> r[k].timestamp > e.timestamp
    ensures Insert(r, e) == r[..m] + [e] + r[m..]
  {
    if m < |r| {
      InsertAt(r[..|r| - 1], m, e);
    }
  }

  /** Insertion sort in place. */
  method SortByTimestamp(events: array<SyscallEvent>)
    modifies events
    ensures events[..] == StableSort(old(events[..]))
  {
    ghost var was := events[..];
    if events.Length == 0 {
      return;
    }
    SortOne(was);
    hide Insert, StableSort;
    var i := 1;
    while i < events.Length
      invariant 1 <= i <= events.Length
      invariant events[..i] == StableSort(was[..i])
      invariant forall k :: i <= k < events.Length ==> events[k] == was[k]
    {
      SortRound(was, i);
      ShiftIn(events, i);
      i := i + 1;
    }
    assert events[..i] == events[..] && was[..i] == was;
  }

  /** Each further event is inserted into the sorted ones before it. */
  lemma SortRound(s: Events, i: nat)
    requires i < |s|
    ensures StableSort(s[..i + 1]) == Insert(StableSort(s[..i]), s[i])
  {
    hide Insert;
    assert s[..i + 1][..i] == s[..i];
  }

  /** One event alone is sorted. */
  lemma SortOne(s: Events)
    requires s != []
    ensures StableSort(s[..1]) == s[..1]
  {
    SortRound(s, 0);
    assert s[..0] == [];
  }

  /** The slots of a ring after the pushes h. */
  function RingOf(h: Events, size: nat): (slots: Events)
    requires size > 0
    ensures |slots| == size
  {
    if h == [] then seq(size, _ => ZERO_EVENT)
    else RingOf(h[..|h| - 1], size)[Slot(|h| - 1, size) := h[|h| - 1]]
  }

  /** Whatever was pushed, the slots hold the last `size` events: position i of the history
      sits in slot i mod size. */
  lemma {:induction false} RingMeaning(h: Events, size: nat, i: nat)
    requires size > 0 && |h| - Min(|h|, size) <= i < |h|
    ensures RingOf(h, size)[Slot(i, size)] == h[i]
  {
    hide Slot;
    var n := |h| - 1;
    if i < n {
      SlotsDiffer(i, n, size);
      RingMeaning(h[..n], size, i);
    }
  }

  /** A ring that never wrapped holds the history at its front. */
  lemma Unwrapped(h: Events, size: nat)
    requires |h| < size
    ensures RingOf(h, size)[..|h|] == h
  {
    forall i | 0 <= i < |h| ensures RingOf(h, size)[i] == h[i] {
      SlotOfSmall(i, size);
      RingMeaning(h, size, i);
    }
  }

  /** In a full ring, counting from `context` slots behind the head reaches the last
      `context` events. */
  lemma Wrapped(h: Events, size: nat, context: nat, i: nat)
    requires 0 < size <= |h| && i < context <= size
    ensures RingOf(h, size)[Slot(Slot(Slot(|h|, size) - context + size, size) + i, size)] == LastN(h, context)[i]
  {
    hide RingOf, Slot;
    DrainSlot(|h|, context, i, size);
    RingMeaning(h, size, |h| - context + i);
  }

  lemma OneMore(s: Events, i: nat)
    requires i < |s|
    ensures s[..i] + [s[i]] == s[..i + 1]
  {
  }

  /** The capped lists after one more push. */
  lemma FirstPush(h: Events, e: SyscallEvent, sel: Selection)
    ensures FirstN(Keep(h + [e], sel), MAX_PRIORITY) ==
            if Selected(sel, e) && |FirstN(Keep(h, sel), MAX_PRIORITY)| < MAX_PRIORITY
            then FirstN(Keep(h, sel), MAX_PRIORITY) + [e] else FirstN(Keep(h, sel), MAX_PRIORITY)
  {
    KeepSnoc(h, e, sel);
  }

  /** The uint64 counters after one more push. */
  lemma CountPush(h: Events, e: SyscallEvent, sel: Selection)
    ensures Wrap(|Keep(h + [e], sel)|) ==
            if Selected(sel, e) then Wrap(Wrap(|Keep(h, sel)|) + 1) else Wrap(|Keep(h, sel)|)
    ensures Wrap(|h + [e]|) == Wrap(Wrap(|h|) + 1)
  {
    hide Keep;
    KeepSnoc(h, e, sel);
  }

  /** What a buffer stands for. */
  datatype Held = Held(ppid: u32, comm: Bytes, startTime: u64, size: nat, history: Events)

  class CircularBuffer {
    const events: array<SyscallEvent>
    var head: nat
    var count: nat
    const size: nat

    var errorEvents: Events
    var slowEvents: Events
    const maxErrors: nat
    const maxSlow: nat

    const pid: u32
    const ppid: u32
    const comm: Bytes
    const startTime: u64

    var totalEvents: u64
    var errorCount: u64
    var slowCount: u64

    /** Every event ever pushed, oldest first. */
    ghost var history: Events

    ghost predicate Valid()
      reads this, events
    {
      && 0 < size == events.Length
      && maxErrors == maxSlow == MAX_PRIORITY
      && head == Slot(|history|, size)
      && count == Min(|history|, size)
      && events[..] == RingOf(history, size)
      && errorEvents == FirstErrors(history)
      && slowEvents == FirstSlow(history)
      && totalEvents == Wrap(|history|)
      && errorCount == Wrap(|Keep(history, Errors)|)
      && slowCount == Wrap(|Keep(history, Slow)|)
    }

    ghost function Snapshot(): Held
      reads this
    {
      Held(ppid, comm, startTime, size, history)
    }

    constructor (pid: u32, ppid: u32, comm: Bytes, startTime: u64, size: nat)
      requires size > 0
      ensures Valid() && history == [] && fresh(events)
      ensures this.pid == pid && this.ppid == ppid && this.comm == comm
      ensures this.startTime == startTime && this.size == size
    {
      this.events := new SyscallEvent[size](_ => ZERO_EVENT);
      this.size := size;
      this.head, this.count := 0, 0;
      this.errorEvents, this.slowEvents := [], [];
      this.maxErrors, this.maxSlow := 100, 100;
      this.pid, this.ppid, this.comm, this.startTime := pid, ppid, comm, startTime;
      this.totalEvents, this.errorCount, this.slowCount := 0, 0, 0;
      this.history := [];
    }

    method Push(e: SyscallEvent)
      requires Valid()
      modifies this, events
      ensures Valid() && history == old(history) + [e]
      ensures errorEvents == if e.ret < 0 && e.ret != -115 && |old(errorEvents)| < 100
                             then old(errorEvents) + [e] else old(errorEvents)
      ensures slowEvents == if e.latency > 100_000_000 && e.ret != -115 && |old(slowEvents)| < 100
                            then old(slowEvents) + [e] else old(slowEvents)
      ensures events[..] == old(events[..])[old(head) := e]
      ensures head == (if old(head) + 1 == size then 0 else old(head) + 1)
      ensures count == (if old(count) < size then old(count) + 1 else size)
      ensures totalEvents == Wrap(old(totalEvents) + 1)
      ensures errorCount == if e.ret < 0 && e.ret != -115 then Wrap(old(errorCount) + 1) else old(errorCount)
      ensures slowCount == if e.latency > 100_000_000 && e.ret != -115 then Wrap(old(slowCount) + 1) else old(slowCount)
    {
      hide Keep, FirstErrors, FirstSlow, RingOf, Wrap, Slot;
      // EINPROGRESS is neither an error nor slow
      var isError := e.ret < 0 && e.ret != -115;
      var isSlow := e.latency > 100_000_000 && e.ret != -115;
      KeepPriority(e, isError, isSlow);
      Store(e);
      Tally(e, isError, isSlow);
      history := history + [e];
    }

    method KeepPriority(e: SyscallEvent, isError: bool, isSlow: bool)
      requires maxErrors == maxSlow == MAX_PRIORITY
      requires errorEvents == FirstErrors(history) && slowEvents == FirstSlow(history)
      requires isError == IsError(e) && isSlow == IsSlow(e)
      modifies `errorEvents, `slowEvents
      ensures errorEvents == FirstErrors(history + [e]) && slowEvents == FirstSlow(history + [e])
      ensures errorEvents == if isError && |old(errorEvents)| < 100 then old(errorEvents) + [e] else old(errorEvents)
      ensures slowEvents == if isSlow && |old(slowEvents)| < 100 then old(slowEvents) + [e] else old(slowEvents)
    {
      FirstPush(history, e, Errors);
      FirstPush(history, e, Slow);
      if isError && |errorEvents| < maxErrors {
        errorEvents := errorEvents + [e];
      }
      if isSlow && |slowEvents| < maxSlow {
        slowEvents := slowEvents + [e];
      }
    }

    method Store(e: SyscallEvent)
      requires 0 < size == events.Length && head == Slot(|history|, size) && count == Min(|history|, size)
      requires events[..] == RingOf(history, size)
      modifies `head, `count, events
      ensures head == Slot(|history + [e]|, size) && count == Min(|history + [e]|, size)
      ensures events[..] == RingOf(history + [e], size) && events[..] == old(events[..])[old(head) := e]
      ensures head == (if old(head) + 1 == size then 0 else old(head) + 1)
      ensures count == (if old(count) < size then old(count) + 1 else size)
    {
      NextInTurn(head, size);
      assert (history + [e])[..|history|] == history;
      NextSlot(|history|, size);
      events[head] := e;
      assert events[..] == old(events[..])[head := e];
      head := Slot(head + 1, size);
      if count < size {
        count := count + 1;
      }
    }

    method Tally(e: SyscallEvent, isError: bool, isSlow: bool)
      requires totalEvents == Wrap(|history|)
      requires errorCount == Wrap(|Keep(history, Errors)|) && slowCount == Wrap(|Keep(history, Slow)|)
      requires isError == IsError(e) && isSlow == IsSlow(e)
      modifies `totalEvents, `errorCount, `slowCount
      ensures totalEvents == Wrap(|history + [e]|)
      ensures errorCount == Wrap(|Keep(history + [e], Errors)|)
      ensures slowCount == Wrap(|Keep(history + [e], Slow)|)
      ensures totalEvents == Wrap(old(totalEvents) + 1)
      ensures errorCount == if isError then Wrap(old(errorCount) + 1) else old(errorCount)
      ensures slowCount == if isSlow then Wrap(old(slowCount) + 1) else old(slowCount)
    {
      CountPush(history, e, Errors);
      CountPush(history, e, Slow);
      totalEvents := Wrap(totalEvents + 1);
      if isError {
        errorCount := Wrap(errorCount + 1);
      }
      if isSlow {
        slowCount := Wrap(slowCount + 1);
      }
    }

    /** The last `context` events of the ring, by the full or the not-full path. */
    method Recent(context: nat) returns (recent: Events)
      requires Valid() && context <= count
      ensures recent == LastN(history, context)
    {
      hide RingOf, Slot, Keep, FirstN, Wrap;
      ghost var slots := events[..];
      if count < size {
        var start := count - context;
        recent := events[start..count];
        Unwrapped(history, size);
        assert recent == slots[start..count];
      } else {
        recent := [];
        var startIdx := Slot(head - context + size, size);
        ghost var last := LastN(history, context);
        for i := 0 to context
          invariant recent == last[..i]
        {
          var idx := Slot(startIdx + i, size);
          Wrapped(history, size, context, i);
          assert events[idx] == slots[idx] == last[i];
          OneMore(last, i);
          recent := recent + [events[idx]];
        }
      }
    }

    /** Priority events merged with recent context; nothing the buffer holds changes. */
    method Drain() returns (result: array<SyscallEvent>)
      requires Valid()
      ensures fresh(result)
      ensures result[..] == DrainOf(history, size)
    {
      hide Keep, StableSort, RingOf, Wrap;
      if |errorEvents| == 0 && |slowEvents| == 0 {
        var contextSize := 50;
        if count < contextSize {
          contextSize := count;
        }
        var recent := Recent(contextSize);
        result := new SyscallEvent[|recent|](i requires 0 <= i < |recent| => recent[i]);
        assert result[..] == recent;
        return;
      }

      var merged := errorEvents + slowEvents;
      var contextSize := 30;
      if count < contextSize {
        contextSize := count;
      }
      var recent := Recent(contextSize);
      merged := merged + recent;
      result := new SyscallEvent[|merged|](i requires 0 <= i < |merged| => merged[i]);
      assert result[..] == merged;
      SortByTimestamp(result);
    }
  }

  // ----- properties of a drain, for every history and every ring size

  /** An event that a drain puts first: a failure other than EINPROGRESS, or more than
      100 ms. */
  lemma HasPriorityIff(h: Events)
    ensures HasPriority(h) <==>
      exists e :: e in h && e.ret != -115 && (e.ret < 0 || e.latency > 100_000_000)
  {
    if Keep(h, Errors) != [] { KeepMember(h, Errors, Keep(h, Errors)[0]); }
    if Keep(h, Slow) != [] { KeepMember(h, Slow, Keep(h, Slow)[0]); }
    if e :| e in h && e.ret != -115 && (e.ret < 0 || e.latency > 100_000_000) {
      KeepMember(h, Errors, e);
      KeepMember(h, Slow, e);
    }
  }

  /** Without such an event: the last 50 events, or all the ring has, in push order. */
  lemma PlainDrain(h: Events, size: nat)
    requires size > 0 && forall e :: e in h ==> e.ret == -115 || (e.ret >= 0 && e.latency <= 100_000_000)
    ensures var n := Min(50, Min(|h|, size));
      DrainOf(h, size) == h[|h| - n..]
  {
    HasPriorityIff(h);
  }

  /** Otherwise a stable sort of both lists and the last 30 events of the ring. */
  lemma PriorityDrain(h: Events, size: nat, e: SyscallEvent)
    requires size > 0 && e in h && e.ret != -115 && (e.ret < 0 || e.latency > 100_000_000)
    ensures var material := FirstErrors(h) + FirstSlow(h) + h[|h| - Min(30, Min(|h|, size))..];
      IsStableSort(material, DrainOf(h, size)) && multiset(DrainOf(h, size)) == multiset(material)
    ensures |DrainOf(h, size)| <= 230
  {
    HasPriorityIff(h);
    hide StableSort, Keep, IsStableSort, HasPriority;
    StableSortIsStable(Priorities(h, size));
  }

  /** Only one sequence can be returned: any stable sort of that material is the drain. */
  lemma DrainIsDetermined(h: Events, size: nat, r: Events)
    requires size > 0 && HasPriority(h)
    requires IsStableSort(FirstErrors(h) + FirstSlow(h) + h[|h| - Min(30, Min(|h|, size))..], r)
    ensures r == DrainOf(h, size)
  {
    StableSortIsStable(Priorities(h, size));
    StableSortUnique(r, DrainOf(h, size));
  }

  /** A drain is chronological as soon as a priority event exists or pushes were in order. */
  lemma DrainChronological(h: Events, size: nat)
    requires size > 0 && (HasPriority(h) || Sorted(h))
    ensures Sorted(DrainOf(h, size))
  {
    StableSortIsStable(Priorities(h, size));
  }

  lemma DrainMembers(h: Events, size: nat, x: SyscallEvent)
    requires x in DrainOf(h, size)
    ensures x in h
  {
    hide StableSort, Keep, IsStableSort;
    if HasPriority(h) {
      StableSortIsStable(Priorities(h, size));
      assert x in multiset(Priorities(h, size));
      KeepMember(h, Errors, x);
      KeepMember(h, Slow, x);
    }
  }

  /** The first 100 errors and slow events survive whatever is pushed later. */
  lemma PrioritiesSurvive(h: Events, later: Events, size: nat, e: SyscallEvent)
    requires size > 0
    requires e in FirstErrors(h) || e in FirstSlow(h)
    ensures e in DrainOf(h + later, size)
  {
    KeepConcat(h, later, Errors);
    KeepConcat(h, later, Slow);
    var p := Priorities(h + later, size);
    assert FirstErrors(h) <= FirstErrors(h + later);
    assert FirstSlow(h) <= FirstSlow(h + later);
    assert e in p;
    StableSortIsStable(p);
    assert e in multiset(StableSort(p));
  }
}
