// The consumer: one loop that dispatches ring samples to four handlers.

module Daemon {
  import opened Types
  import opened Wire
  import opened CircularBuffers
  import opened Registry
  import opened Resolver
  import opened Reports
  import opened Consumer

  // ----- one step of the consumer's state, in the terms of the log

  /** The registry stands for exactly the buffers the log prescribes. */
  ghost predicate BuffersHold(log: Log, m: map<u32, Held>) {
    forall g: u32 :: BufferEntry(log, m, g)
  }

  ghost predicate BufferEntry(log: Log, m: map<u32, Held>, g: u32) {
    Buffer(log, g) == if g in m then Some(m[g]) else None
  }

  ghost predicate SignalsHold(s: Setup, log: Log, m: map<u32, SignalContext>) {
    forall g: u32 :: SignalEntry(s, log, m, g)
  }

  ghost predicate SignalEntry(s: Setup, log: Log, m: map<u32, SignalContext>, g: u32) {
    LastSignal(s, log, g) == if g in m then Some(m[g]) else None
  }

  /** A syscall record of process g starts or extends the buffer of g only. */
  lemma SyscallStep(s: Setup, log: Log, h: Heard, m: map<u32, Held>, c: map<u32, SignalContext>, g: u32)
    requires BuffersHold(log, m) && SignalsHold(s, log, c)
    requires h.record.Some? && (h.record.value.Openat? || h.record.value.Connect?)
    requires g == if h.record.value.Openat? then h.record.value.openat.tgid else h.record.value.connect.pid
    ensures EventOf(h.record, g).Some?
    ensures var e := EventOf(h.record, g).value;
      var held := if g in m then m[g] else Held(0, NameOf(h.record.value), e.timestamp, h.threshold, []);
      BuffersHold(log + [h], m[g := Pushed(held, e)])
    ensures SignalsHold(s, log + [h], c) && Written(s, log + [h]) == Written(s, log)
  {
    Consumer.Advance(s, log, h);
    var e := EventOf(h.record, g).value;
    var held := if g in m then m[g] else Held(0, NameOf(h.record.value), e.timestamp, h.threshold, []);
    var m' := m[g := Pushed(held, e)];
    assert [] + [e] == [e];
    forall p: u32 ensures BufferEntry(log + [h], m', p) {
      assert BufferEntry(log, m, p);
      if p == g {
        assert After(Buffer(log, g), h, g) == Some(Pushed(held, e));
      } else {
        assert EventOf(h.record, p).None? && !Crashes(h.record, p);
      }
    }
    forall p: u32 ensures SignalEntry(s, log + [h], c, p) {
      assert SignalEntry(s, log, c, p);
    }
  }

  lemma SignalStep(s: Setup, log: Log, h: Heard, m: map<u32, Held>, c: map<u32, SignalContext>)
    requires BuffersHold(log, m) && SignalsHold(s, log, c)
    requires h.record.Some? && h.record.value.Signal?
    ensures var e := h.record.value.sig;
      SignalsHold(s, log + [h], c[e.tgid := ContextOf(s, e, h)])
    ensures BuffersHold(log + [h], m) && Written(s, log + [h]) == Written(s, log)
  {
    Consumer.Advance(s, log, h);
    var e := h.record.value.sig;
    forall p: u32 ensures BufferEntry(log + [h], m, p) {
      assert BufferEntry(log, m, p);
    }
    var c' := c[e.tgid := ContextOf(s, e, h)];
    forall p: u32 ensures SignalEntry(s, log + [h], c', p) {
      assert SignalEntry(s, log, c, p);
    }
  }

  lemma ExitStep(s: Setup, log: Log, h: Heard, m: map<u32, Held>, c: map<u32, SignalContext>)
    requires BuffersHold(log, m) && SignalsHold(s, log, c)
    requires h.record.Some? && h.record.value.Exit?
    ensures var g := h.record.value.exit.tgid;
      && (g !in m ==> m - {g} == m)
      && BuffersHold(log + [h], if Crashes(h.record, g) then m - {g} else m)
      && SignalsHold(s, log + [h], if TrackedCrash(s, h.record, g) then c - {g} else c)
      && Written(s, log + [h]) ==
         if TrackedCrash(s, h.record, g) && h.writable && g in m
         then Written(s, log) +
              [ReportOf(h.record.value.exit, m[g], if g in c then Some(c[g]) else None, h.maps)]
         else Written(s, log)
  {
    Consumer.Advance(s, log, h);
    var g := h.record.value.exit.tgid;
    var m' := if Crashes(h.record, g) then m - {g} else m;
    var c' := if TrackedCrash(s, h.record, g) then c - {g} else c;
    assert BufferEntry(log, m, g) && SignalEntry(s, log, c, g);
    forall p: u32 ensures BufferEntry(log + [h], m', p) {
      assert BufferEntry(log, m, p);
    }
    forall p: u32 ensures SignalEntry(s, log + [h], c', p) {
      assert SignalEntry(s, log, c, p);
    }
  }

  /** A sample that no handler accepts leaves everything as it was. */
  lemma IgnoredStep(s: Setup, log: Log, h: Heard, m: map<u32, Held>, c: map<u32, SignalContext>)
    requires BuffersHold(log, m) && SignalsHold(s, log, c) && h.record.None?
    ensures BuffersHold(log + [h], m) && SignalsHold(s, log + [h], c)
    ensures Written(s, log + [h]) == Written(s, log)
  {
    Consumer.Advance(s, log, h);
    forall p: u32 ensures BufferEntry(log + [h], m, p) {
      assert BufferEntry(log, m, p);
    }
    forall p: u32 ensures SignalEntry(s, log + [h], c, p) {
      assert SignalEntry(s, log, c, p);
    }
  }

  class Amon {
    const setup: Setup
    const registry: ProcessRegistry
    const symbolizer: Symbolizer
    var signalInfo: map<u32, SignalContext>

    /** The reports written so far. */
    var reports: seq<CrashReport>

    /** Everything handled so far. */
    ghost var log: Log

    /** All storage the consumer may write. */
    ghost function Repr(): set<object>
      reads this, registry
    {
      {this, symbolizer} + registry.Repr
    }

    ghost predicate Valid()
      reads this, registry, symbolizer, registry.Repr
    {
      && registry.Valid() && this !in registry.Repr && symbolizer !in registry.Repr
      && symbolizer.Valid() && symbolizer.tables == setup.tables
      && BuffersHold(log, registry.contents)
      && SignalsHold(setup, log, signalInfo)
      && reports == Written(setup, log)
    }

    constructor (setup: Setup)
      ensures Valid() && log == [] && this.setup == setup && reports == []
      ensures fresh(Repr())
    {
      this.setup := setup;
      registry := new ProcessRegistry();
      symbolizer := new Symbolizer(setup.tables);
      signalInfo, reports, log := map[], [], [];
    }

    /** registry.GetOrCreate followed by Push on the buffer it returns. */
    method Append(pid: u32, comm: Bytes, time: u64, size: Size, e: SyscallEvent)
      requires registry.Valid()
      modifies registry.Repr
      ensures registry.Valid() && fresh(registry.Repr - old(registry.Repr))
      ensures var m := old(registry.contents);
        registry.contents == m[pid := Pushed(if pid in m then m[pid] else Held(0, comm, time, size, []), e)]
    {
      hide CircularBuffer.Valid, ProcessRegistry.Valid;
      var buffer := registry.GetOrCreate(pid, 0, comm, time, size);
      registry.PushTo(pid, e);
    }

    method HandleOpenatEvent(data: Bytes, threshold: Size, ghost h: Heard)
      requires Valid() && TypeOf(data) == Some(EVENT_OPENAT)
      requires h.record == Parse(data) && h.threshold == threshold
      modifies Repr()
      ensures Valid() && log == old(log) + [h] && fresh(Repr() - old(Repr()))
      ensures signalInfo == old(signalInfo) && reports == old(reports)
      ensures var m, read := old(registry.contents), ReadOpenat(data);
        registry.contents ==
        match read
        case None => m
        case Some(e) =>
          m[e.tgid := Pushed(
              if e.tgid in m then m[e.tgid] else Held(0, TrimZeros(e.comm), e.timestampNs, threshold, []),
              SyscallEvent("openat", e.tgid, e.timestampNs, e.latencyNs, e.ret,
                           Some(FileData(TrimZeros(e.filename), 0, ToI32(e.ret))), None))]
    {
      hide CircularBuffer.Valid, ProcessRegistry.Valid, BuffersHold, SignalsHold, Written, Symbolizer.Valid;
      hide Parse, TypeOf, ReadOpenat;
      ParseOpenat(data);
      var read := ReadOpenat(data);
      if read.None? {
        IgnoredStep(setup, log, h, registry.contents, signalInfo);
        log := log + [h];
        return;
      }
      var e := read.value;
      SyscallStep(setup, log, h, registry.contents, signalInfo, e.tgid);
      var comm := TrimZeros(e.comm);
      var filename := TrimZeros(e.filename);
      var syscallEvent := SyscallEvent("openat", e.tgid, e.timestampNs, e.latencyNs, e.ret,
                                       Some(FileData(filename, 0, ToI32(e.ret))), None);
      Append(e.tgid, comm, e.timestampNs, threshold, syscallEvent);
      log := log + [h];
    }

    method HandleConnectEvent(data: Bytes, threshold: Size, ghost h: Heard)
      requires Valid() && TypeOf(data) == Some(EVENT_CONNECT)
      requires h.record == Parse(data) && h.threshold == threshold
      modifies Repr()
      ensures Valid() && log == old(log) + [h] && fresh(Repr() - old(Repr()))
      ensures signalInfo == old(signalInfo) && reports == old(reports)
      ensures var m, read := old(registry.contents), ReadConnect(data);
        registry.contents ==
        match read
        case None => m
        case Some(e) =>
          m[e.pid := Pushed(
              if e.pid in m then m[e.pid] else Held(0, [], e.timestamp, threshold, []),
              ConnectSyscall(e))]
    {
      hide CircularBuffer.Valid, ProcessRegistry.Valid, BuffersHold, SignalsHold, Written, Symbolizer.Valid;
      hide Parse, TypeOf, ReadConnect, ToBytes;
      ParseConnect(data);
      var read := ReadConnect(data);
      if read.None? {
        IgnoredStep(setup, log, h, registry.contents, signalInfo);
        log := log + [h];
        return;
      }
      var e := read.value;
      SyscallStep(setup, log, h, registry.contents, signalInfo, e.pid);
      ConnectSyscallIs(e);
      var dstIP: Bytes := [e.daddr % 0x100, (e.daddr / 0x100) % 0x100,
                           (e.daddr / 0x1_0000) % 0x100, (e.daddr / 0x100_0000) % 0x100];
      var syscallEvent := SyscallEvent("connect", e.pid, e.timestamp, e.latency, e.ret, None,
                                       Some(NetworkData(dstIP, e.dport, ToI32(e.ret))));
      Append(e.pid, [], e.timestamp, threshold, syscallEvent);
      log := log + [h];
    }

    /** The program counters of a captured stack, up to the first zero. */
    method Counters(stack: seq<u64>) returns (pcs: seq<u64>)
      ensures pcs == UntilZero(stack)
      ensures pcs <= stack && 0 !in pcs && (|pcs| < |stack| ==> stack[|pcs|] == 0)
    {
      pcs := [];
      var i := 0;
      while i < |stack|
        invariant 0 <= i <= |stack|
        invariant UntilZero(stack) == pcs + UntilZero(stack[i..])
        invariant pcs == stack[..i] && 0 !in pcs
      {
        if stack[i] == 0 {
          break;
        }
        assert stack[i..][1..] == stack[i + 1..];
        pcs := pcs + [stack[i]];
        i := i + 1;
      }
      assert UntilZero(stack) == pcs + [];
    }

    method HandleSignalEvent(data: Bytes, stack: Option<seq<u64>>, maps: Option<string>, ghost h: Heard)
      requires Valid() && TypeOf(data) == Some(EVENT_SIGNAL)
      requires h.record == Parse(data) && h.stack == stack && h.maps == maps
      modifies Repr()
      ensures Valid() && log == old(log) + [h] && fresh(Repr() - old(Repr()))
      ensures registry.contents == old(registry.contents) && reports == old(reports)
      ensures match ReadSignal(data)
        case None => signalInfo == old(signalInfo)
        case Some(e) =>
          && e.tgid in signalInfo && signalInfo == old(signalInfo)[e.tgid := signalInfo[e.tgid]]
          && signalInfo[e.tgid].faultAddr == e.faultAddr && signalInfo[e.tgid].siCode == e.siCode
          && signalInfo[e.tgid].signal == e.signal
          && (signalInfo[e.tgid].stackTrace.Some? <==>
                e.stackID >= 0 && stack.Some? && stack.value != [] && stack.value[0] != 0)
    {
      hide CircularBuffer.Valid, ProcessRegistry.Valid, BuffersHold, SignalsHold, Written, Symbolizer.Valid;
      hide TraceOf, UntilZero;
      hide Parse, TypeOf, ReadSignal;
      ParseSignal(data);
      var read := ReadSignal(data);
      if read.None? {
        IgnoredStep(setup, log, h, registry.contents, signalInfo);
        log := log + [h];
        return;
      }
      var e := read.value;
      SignalStep(setup, log, h, registry.contents, signalInfo);
      var trace: Option<StackTrace> := None;
      if e.stackID >= 0 {
        if stack.Some? {
          var pcs := Counters(stack.value);
          if |pcs| > 0 {
            var resolved := symbolizer.ResolveStackTrace(pcs, maps);
            trace := Some(resolved);
          }
        }
      }
      signalInfo := signalInfo[e.tgid := SignalContext(trace, e.faultAddr, e.siCode, e.signal)];
      log := log + [h];
    }

    method HandleExitEvent(data: Bytes, maps: Option<string>, writable: bool, ghost h: Heard)
      requires Valid() && TypeOf(data) == Some(EVENT_EXIT)
      requires h.record == Parse(data) && h.maps == maps && h.writable == writable
      modifies Repr()
      ensures Valid() && log == old(log) + [h] && fresh(Repr() - old(Repr()))
      ensures match ReadExit(data)
        case None =>
          registry.contents == old(registry.contents) && signalInfo == old(signalInfo) && reports == old(reports)
        case Some(e) => Ended(old(registry.contents), old(signalInfo), old(reports), e, maps, writable)
    {
      hide CircularBuffer.Valid, ProcessRegistry.Valid, BuffersHold, SignalsHold, Written, Symbolizer.Valid;
      hide Parse, TypeOf, ReadExit;
      ParseExit(data);
      var read := ReadExit(data);
      if read.None? {
        IgnoredStep(setup, log, h, registry.contents, signalInfo);
        log := log + [h];
        return;
      }
      ProcessExit(read.value, maps, writable, h);
    }

    /** From buffers m, signals c and reports rs, the state after exit record e. */
    ghost predicate Ended(m: map<u32, Held>, c: map<u32, SignalContext>, rs: seq<CrashReport>, e: ExitEvent,
                          maps: Option<string>, writable: bool)
      reads this, registry
    {
      var crashed := e.signal in {4, 6, 7, 8, 11};
      var tracked := crashed && TrimZeros(e.comm) in setup.tracked;
      && registry.contents == (if crashed then m - {e.tgid} else m)
      && signalInfo == (if tracked then c - {e.tgid} else c)
      && reports ==
         if tracked && writable && e.tgid in m
         then rs + [ReportOf(e, m[e.tgid], if e.tgid in c then Some(c[e.tgid]) else None, maps)]
         else rs
    }

    /** Only crashes matter: report those of tracked processes, forget the others. */
    method ProcessExit(e: ExitEvent, maps: Option<string>, writable: bool, ghost h: Heard)
      requires Valid()
      requires h.record == Some(Record.Exit(e)) && h.maps == maps && h.writable == writable
      modifies Repr()
      ensures Valid() && log == old(log) + [h] && fresh(Repr() - old(Repr()))
      ensures Ended(old(registry.contents), old(signalInfo), old(reports), e, maps, writable)
    {
      hide CircularBuffer.Valid, ProcessRegistry.Valid, BuffersHold, SignalsHold, Written, Symbolizer.Valid;
      hide ReportOf, TrimZeros;
      ExitStep(setup, log, h, registry.contents, signalInfo);
      log := log + [h];
      var comm := TrimZeros(e.comm);
      if !IsCrash(e.signal) {
        return;
      }
      if comm !in setup.tracked {
        registry.Delete(e.tgid);
        return;
      }
      ReportCrash(e, maps, writable);
    }

    /** A crash of a process tracked by its own name: use up its signal and its buffer. */
    method ReportCrash(e: ExitEvent, maps: Option<string>, writable: bool)
      requires registry.Valid() && this !in registry.Repr
      modifies this`signalInfo, this`reports, registry.Repr
      ensures registry.Valid() && registry.Repr == old(registry.Repr)
      ensures registry.contents == old(registry.contents) - {e.tgid}
      ensures signalInfo == old(signalInfo) - {e.tgid}
      ensures var m, c := old(registry.contents), old(signalInfo);
        reports ==
        if writable && e.tgid in m
        then old(reports) + [ReportOf(e, m[e.tgid], if e.tgid in c then Some(c[e.tgid]) else None, maps)]
        else old(reports)
    {
      hide CircularBuffer.Valid, ProcessRegistry.Valid, ReportOf;
      var ctx: Option<SignalContext> := None;
      if e.tgid in signalInfo {
        ctx := Some(signalInfo[e.tgid]);
      }
      signalInfo := signalInfo - {e.tgid};
      var buffer := registry.Get(e.tgid);
      if buffer.Some? {
        if writable {
          var report := GenerateCrashReport(e, buffer.value, ctx, maps);
          reports := reports + [report];
        }
        registry.Delete(e.tgid);
      }
    }

    /** Look at the type field and hand the sample to its handler. */
    method Dispatch(d: Delivery)
      requires Valid()
      modifies Repr()
      ensures Valid() && log == old(log) + [Hear(d)] && fresh(Repr() - old(Repr()))
    {
      hide CircularBuffer.Valid, ProcessRegistry.Valid, BuffersHold, SignalsHold, Written, Symbolizer.Valid;
      ghost var h := Hear(d);
      if |d.sample| >= 4 {
        var eventType := FromBytes(d.sample[..4]);
        if eventType == 1 {
          HandleOpenatEvent(d.sample, d.threshold, h);
          return;
        } else if eventType == 3 {
          HandleConnectEvent(d.sample, d.threshold, h);
          return;
        } else if eventType == 4 {
          HandleSignalEvent(d.sample, d.stack, d.maps, h);
          return;
        } else if eventType == 2 {
          HandleExitEvent(d.sample, d.maps, d.writable, h);
          return;
        }
      }
      IgnoredStep(setup, log, h, registry.contents, signalInfo);
      log := log + [h];
    }

    /** The reader loop over the samples that arrive. */
    method Run(ds: seq<Delivery>)
      requires Valid()
      modifies Repr()
      ensures Valid() && log == old(log) + HearAll(ds) && fresh(Repr() - old(Repr()))
    {
      hide CircularBuffer.Valid, ProcessRegistry.Valid, BuffersHold, SignalsHold, Written, Symbolizer.Valid;
      for i := 0 to |ds|
        invariant Valid() && fresh(Repr() - old(Repr()))
        invariant log == old(log) + HearAll(ds[..i])
      {
        assert HearAll(ds[..i + 1]) == HearAll(ds[..i]) + [Hear(ds[i])];
        Dispatch(ds[i]);
      }
      assert ds[..|ds|] == ds;
    }
  }
}
