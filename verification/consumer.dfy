// What the consumer must hold after any sequence of ring samples: per process the
// events since its last crash, the last signal seen, and the reports written.

module Consumer {
  import opened Types
  import opened Wire
  import opened History
  import opened NoiseFilter
  import opened Text
  import opened MapsFormat
  import opened Analysis
  import opened Resolver
  import opened Reports
  import opened CircularBuffers
  import opened Registry

  type Size = n: nat | n > 0 witness 1

  /** One sample read from the ring, with what the outside world answers while it is
      handled: the configured buffer size, the captured stack for the sample's stack id,
      the maps file of its process, and whether report files can be written. */
  datatype Delivery = Delivery(
    sample: Bytes, threshold: Size, stack: Option<seq<u64>>, maps: Option<string>, writable: bool)

  /** A delivery as its handler sees it: the record, if the sample is accepted at all. */
  datatype Heard = Heard(
    record: Option<Record>, threshold: Size, stack: Option<seq<u64>>, maps: Option<string>, writable: bool)

  function Hear(d: Delivery): Heard {
    Heard(Parse(d.sample), d.threshold, d.stack, d.maps, d.writable)
  }

  type Log = seq<Heard>

  function HearAll(ds: seq<Delivery>): Log {
    seq(|ds|, i requires 0 <= i < |ds| => Hear(ds[i]))
  }

  /** User-space configuration: the tracked names and the symbol tables. */
  datatype Setup = Setup(tracked: set<Bytes>, tables: Tables)

  predicate IsCrash(signal: i32) {
    signal == 11 || signal == 6 || signal == 7 || signal == 4 || signal == 8
  }

  // ----- events

  function OpenatSyscall(e: OpenatEvent): SyscallEvent {
    SyscallEvent("openat", e.tgid, e.timestampNs, e.latencyNs, e.ret,
                 Some(FileData(TrimZeros(e.filename), 0, ToI32(e.ret))), None)
  }

  function ConnectSyscall(e: ConnectEvent): SyscallEvent {
    SyscallEvent("connect", e.pid, e.timestamp, e.latency, e.ret, None,
                 Some(NetworkData(ToBytes(e.daddr, 4), e.dport, ToI32(e.ret))))
  }

  /** The event of an openat record, and its descriptor: the result's low 32 bits. */
  lemma OpenatSyscallIs(e: OpenatEvent)
    ensures var x := OpenatSyscall(e);
      && x.kind == "openat" && x.pid == e.tgid && x.timestamp == e.timestampNs && x.latency == e.latencyNs
      && x.ret == e.ret && x.network.None?
      && x.file.Some? && x.file.value.filename == TrimZeros(e.filename) && x.file.value.flags == 0
      && (x.file.value.fd - e.ret) % 0x1_0000_0000 == 0
  {
  }

  /** The event of a connect record: the address in network order, lowest byte of the
      record's number first. */
  lemma ConnectSyscallIs(e: ConnectEvent)
    ensures var x := ConnectSyscall(e);
      && x.kind == "connect" && x.pid == e.pid && x.timestamp == e.timestamp && x.latency == e.latency
      && x.ret == e.ret && x.file.None?
      && x.network.Some? && x.network.value.dstPort == e.dport
      && x.network.value.dstIP ==
         [e.daddr % 0x100, (e.daddr / 0x100) % 0x100, (e.daddr / 0x1_0000) % 0x100, (e.daddr / 0x100_0000) % 0x100]
      && (x.network.value.fd - e.ret) % 0x1_0000_0000 == 0
  {
    BytesOfU32(e.daddr);
  }

  /** The signals that count as crashes: SIGILL, SIGABRT, SIGBUS, SIGFPE and SIGSEGV. */
  lemma CrashSignals(signal: i32)
    ensures IsCrash(signal) <==> signal in {4, 6, 7, 8, 11}
  {
  }

  /** The event a record contributes to the history of process g. */
  function EventOf(r: Option<Record>, g: u32): Option<SyscallEvent> {
    match r
    case Some(Openat(e)) => if e.tgid == g then Some(OpenatSyscall(e)) else None
    case Some(Connect(e)) => if e.pid == g then Some(ConnectSyscall(e)) else None
    case _ => None
  }

  function NameOf(r: Record): Bytes {
    if r.Openat? then TrimZeros(r.openat.comm) else []
  }

  /** A crash exit of process g, whether reported or not. */
  predicate Crashes(r: Option<Record>, g: u32) {
    r.Some? && r.value.Exit? && r.value.exit.tgid == g && IsCrash(r.value.exit.signal)
  }

  /** A crash exit of a process that is tracked by its own name. */
  predicate TrackedCrash(s: Setup, r: Option<Record>, g: u32) {
    Crashes(r, g) && TrimZeros(r.value.exit.comm) in s.tracked
  }

  // ----- what the log prescribes

  /** The buffer of process g: started by its first event since its last crash. */
  function Buffer(log: Log, g: u32): Option<Held> {
    if log == [] then None
    else
      var before, d := log[..|log| - 1], log[|log| - 1];
      After(Buffer(before, g), d, g)
  }

  function After(held: Option<Held>, d: Heard, g: u32): Option<Held> {
    var r := d.record;
    match EventOf(r, g)
    case Some(e) =>
      (match held
       case None => Some(Held(0, NameOf(r.value), e.timestamp, d.threshold, [e]))
       case Some(h) => Some(Pushed(h, e)))
    case None => if Crashes(r, g) then None else held
  }

  /** The leading program counters of a captured stack. */
  function UntilZero(stack: seq<u64>): seq<u64> {
    if stack == [] || stack[0] == 0 then [] else [stack[0]] + UntilZero(stack[1..])
  }

  /** The handler and the resolver both stop at the first zero: cutting the stack there
      first changes no frame. */
  lemma {:induction false} CutAtZero(tables: Tables, stack: seq<u64>, maps: seq<Mapping>)
    ensures FramesOf(tables, UntilZero(stack), maps) == FramesOf(tables, stack, maps)
  {
    if stack != [] && stack[0] != 0 {
      CutAtZero(tables, stack[1..], maps);
      assert UntilZero(stack)[1..] == UntilZero(stack[1..]);
    }
  }

  function ContextOf(s: Setup, e: SignalEvent, d: Heard): SignalContext {
    var pcs := if e.stackID >= 0 && d.stack.Some? then UntilZero(d.stack.value) else [];
    SignalContext(if pcs == [] then None else Some(TraceOf(s.tables, pcs, d.maps)), e.faultAddr, e.siCode, e.signal)
  }

  predicate IsSignalOf(h: Heard, g: u32) {
    h.record.Some? && h.record.value.Signal? && h.record.value.sig.tgid == g
  }

  /** The last signal of process g with no tracked crash of g behind it. */
  function LastSignalAt(s: Setup, log: Log, g: u32): (r: Option<nat>)
    ensures r.Some? ==> r.value < |log| && IsSignalOf(log[r.value], g)
  {
    if log == [] then None
    else
      var n := |log| - 1;
      if IsSignalOf(log[n], g) then Some(n)
      else if TrackedCrash(s, log[n].record, g) then None
      else LastSignalAt(s, log[..n], g)
  }

  function LastSignal(s: Setup, log: Log, g: u32): Option<SignalContext> {
    match LastSignalAt(s, log, g)
    case None => None
    case Some(i) => Some(ContextOf(s, log[i].record.value.sig, log[i]))
  }

  /** The report a delivery produces after the log so far. */
  function Produces(s: Setup, log: Log, d: Heard): Option<CrashReport> {
    match d.record
    case Some(Exit(e)) =>
      if !TrackedCrash(s, Some(Exit(e)), e.tgid) || !d.writable then None
      else
        (match Buffer(log, e.tgid)
         case None => None
         case Some(h) => Some(ReportOf(e, h, LastSignal(s, log, e.tgid), d.maps)))
    case _ => None
  }

  function Written(s: Setup, log: Log): seq<CrashReport> {
    if log == [] then []
    else
      var before, d := log[..|log| - 1], log[|log| - 1];
      match Produces(s, before, d)
      case None => Written(s, before)
      case Some(r) => Written(s, before) + [r]
  }

  lemma Advance(s: Setup, log: Log, d: Heard)
    ensures forall g :: Buffer(log + [d], g) == After(Buffer(log, g), d, g)
    ensures forall g :: LastSignal(s, log + [d], g) ==
                        (if IsSignalOf(d, g) then Some(ContextOf(s, d.record.value.sig, d))
                         else if TrackedCrash(s, d.record, g) then None
                         else LastSignal(s, log, g))
    ensures Written(s, log + [d]) ==
            match Produces(s, log, d)
            case None => Written(s, log)
            case Some(r) => Written(s, log) + [r]
  {
    assert (log + [d])[..|log|] == log;
  }

  // ----- demultiplexing

  /** The events process g contributed, in order. */
  function EventsFor(log: Log, g: u32): Events {
    if log == [] then []
    else
      match EventOf(log[|log| - 1].record, g)
      case None => EventsFor(log[..|log| - 1], g)
      case Some(e) => EventsFor(log[..|log| - 1], g) + [e]
  }

  predicate NoCrash(log: Log, g: u32) {
    forall i :: 0 <= i < |log| ==> !Crashes(log[i].record, g)
  }

  /** Without a crash of g, its buffer holds exactly what it contributed. */
  lemma {:induction false} HistoryIsEvents(log: Log, g: u32)
    requires NoCrash(log, g)
    ensures Buffer(log, g).None? <==> EventsFor(log, g) == []
    ensures Buffer(log, g).Some? ==> Buffer(log, g).value.history == EventsFor(log, g)
    ensures Buffer(log, g).Some? ==> Buffer(log, g).value.size > 0
    ensures Buffer(log, g).Some? ==> Buffer(log, g).value.startTime == EventsFor(log, g)[0].timestamp
  {
    if log != [] {
      var n := |log| - 1;
      HistoryIsEvents(log[..n], g);
      assert !Crashes(log[n].record, g);
    }
  }

  /** A crash of g wipes its buffer: only what follows counts. */
  lemma {:induction false} CrashForgets(log: Log, k: nat, g: u32)
    requires 0 < k <= |log| && Crashes(log[k - 1].record, g)
    ensures Buffer(log, g) == Buffer(log[k..], g)
    decreases |log|
  {
    var n := |log| - 1;
    if k == |log| {
      assert log[k..] == [];
    } else {
      CrashForgets(log[..n], k, g);
      assert log[..n][k..] == log[k..][..n - k];
      assert log[k..][n - k] == log[n];
    }
  }

  /** Where the samples since g's last crash begin. */
  function SinceCrash(log: Log, g: u32): (k: nat)
    ensures k <= |log| && NoCrash(log[k..], g)
    ensures k > 0 ==> Crashes(log[k - 1].record, g)
  {
    if log == [] then 0
    else if Crashes(log[|log| - 1].record, g) then |log|
    else
      var k := SinceCrash(log[..|log| - 1], g);
      assert log[k..] == log[..|log| - 1][k..] + [log[|log| - 1]];
      k
  }

  /** The samples that concern process g at all. */
  function Only(log: Log, g: u32): Log {
    if log == [] then []
    else
      var d := log[|log| - 1];
      var r := d.record;
      if EventOf(r, g).Some? || Crashes(r, g) then Only(log[..|log| - 1], g) + [d]
      else Only(log[..|log| - 1], g)
  }

  /** The state held for g is that of a consumer that read g's own records only. */
  lemma {:induction false} Projection(log: Log, g: u32)
    ensures Buffer(Only(log, g), g) == Buffer(log, g)
  {
    if log != [] {
      var n := |log| - 1;
      Projection(log[..n], g);
      var o := Only(log[..n], g);
      assert (o + [log[n]])[..|o|] == o;
    }
  }

  /** After any samples, the history held for g is exactly g's events since its last crash
      exit; there is a buffer exactly when there is such an event, and its start time is
      the time of the first of them. */
  lemma Demultiplexed(log: Log, g: u32)
    ensures var mine := EventsFor(log[SinceCrash(log, g)..], g);
      && (Buffer(log, g).None? <==> mine == [])
      && (Buffer(log, g).Some? ==>
            var held := Buffer(log, g).value;
            held.history == mine && held.size > 0 && held.startTime == mine[0].timestamp)
  {
    var k := SinceCrash(log, g);
    HistoryIsEvents(log[k..], g);
    if k == 0 { assert log[k..] == log; } else { CrashForgets(log, k, g); }
  }

  lemma {:induction false} EventsForMember(log: Log, g: u32, x: SyscallEvent)
    ensures x in EventsFor(log, g) <==> exists i :: 0 <= i < |log| && EventOf(log[i].record, g) == Some(x)
  {
    if log != [] {
      var n := |log| - 1;
      EventsForMember(log[..n], g, x);
      if i :| 0 <= i < |log| && EventOf(log[i].record, g) == Some(x) {
        if i < n { assert EventOf(log[..n][i].record, g) == Some(x); }
      }
    }
  }

  lemma {:induction false} EventsForConcat(a: Log, b: Log, g: u32)
    ensures EventsFor(a + b, g) == EventsFor(a, g) + EventsFor(b, g)
  {
    if b == [] {
      assert a + b == a;
    } else {
      EventsForConcat(a, b[..|b| - 1], g);
      assert (a + b)[..|a + b| - 1] == a + b[..|b| - 1];
    }
  }

  /** Everything a buffer holds was contributed by its own process since its last crash. */
  lemma HeldEventSource(log: Log, g: u32, x: SyscallEvent) returns (k: nat)
    requires Buffer(log, g).Some? && x in Buffer(log, g).value.history
    ensures SinceCrash(log, g) <= k < |log| && EventOf(log[k].record, g) == Some(x)
  {
    hide Buffer, EventsFor, EventOf;
    var mine := log[SinceCrash(log, g)..];
    Demultiplexed(log, g);
    EventsForMember(mine, g, x);
    var i :| 0 <= i < |mine| && EventOf(mine[i].record, g) == Some(x);
    k := SinceCrash(log, g) + i;
  }

  /** Delivery i is the first event of g since its last crash. */
  ghost predicate StartsBuffer(log: Log, g: u32, i: nat) {
    && SinceCrash(log, g) <= i < |log| && EventOf(log[i].record, g).Some?
    && forall k :: SinceCrash(log, g) <= k < i ==> EventOf(log[k].record, g).None?
  }

  /** A buffer has the size configured when its first event was handled, the name and the
      time of that event (no name if it was a connect), and no parent. */
  lemma {:induction false} BufferOrigin(log: Log, g: u32) returns (i: nat)
    requires Buffer(log, g).Some?
    ensures StartsBuffer(log, g, i)
    ensures var held, r := Buffer(log, g).value, log[i].record.value;
      && held.size == log[i].threshold && held.ppid == 0
      && held.startTime == EventOf(log[i].record, g).value.timestamp
      && held.comm == if r.Openat? then TrimZeros(r.openat.comm) else []
  {
    hide OpenatSyscall, ConnectSyscall, TrimZeros, EventsFor, IsCrash;
    var n := |log| - 1;
    var before := log[..n];
    if Buffer(before, g).Some? {
      i := BufferOrigin(before, g);
    } else {
      i := n;
      Demultiplexed(before, g);
      var c := SinceCrash(before, g);
      forall k | c <= k < n ensures EventOf(log[k].record, g).None? {
        assert before[c..][k - c] == log[k];
        if EventOf(log[k].record, g).Some? { EventsForMember(before[c..], g, EventOf(log[k].record, g).value); }
      }
    }
  }

  // ----- which signal a report uses

  /** Delivery i is a signal of g with no later signal and no later tracked crash of g. */
  ghost predicate IsLastSignal(s: Setup, log: Log, g: u32, i: nat) {
    && i < |log| && IsSignalOf(log[i], g)
    && forall k :: i < k < |log| ==> !IsSignalOf(log[k], g) && !TrackedCrash(s, log[k].record, g)
  }

  /** What is remembered is the last signal since the last tracked crash. */
  lemma {:induction false} LastSignalIff(s: Setup, log: Log, g: u32, i: nat)
    ensures LastSignalAt(s, log, g) == Some(i) <==> IsLastSignal(s, log, g, i)
  {
    if log != [] {
      var n := |log| - 1;
      LastSignalIff(s, log[..n], g, i);
      if i < n {
        assert IsLastSignal(s, log, g, i) <==>
               IsLastSignal(s, log[..n], g, i) && !IsSignalOf(log[n], g) && !TrackedCrash(s, log[n].record, g);
      }
    }
  }

  /** The capture of a signal's stack that the handler makes frames of. */
  predicate HasStack(h: Heard) {
    && h.record.Some? && h.record.value.Signal? && h.record.value.sig.stackID >= 0
    && h.stack.Some? && h.stack.value != [] && h.stack.value[0] != 0
  }

  // ----- what a report says of the log

  /** A report shows a stack exactly when the last signal of the process since its last
      tracked crash came with one: a frame for every captured address before the first
      zero, resolved against the mappings of that moment, or raw without them. */
  lemma ReportedStack(s: Setup, log: Log, n: nat, e: ExitEvent)
    requires n < |log| && log[n].record == Some(Record.Exit(e)) && Produces(s, log[..n], log[n]).Some?
    ensures var shown, i := Produces(s, log[..n], log[n]).value.stackTrace, LastSignalAt(s, log[..n], e.tgid);
      && (shown.Some? <==> i.Some? && HasStack(log[i.value]))
      && (shown.Some? ==>
            var d := log[i.value];
            && IsLastSignal(s, log[..n], e.tgid, i.value)
            && shown.value.frames ==
               match d.maps
               case None => RawFrames(UntilZero(d.stack.value))
               case Some(text) => FramesOf(s.tables, d.stack.value, Mappings(SplitOn(text, '\n'))))
  {
    hide Buffer, DrainOf, AnalysisOf, NoiseIn, WithoutNoise, Mappings, SplitOn, FramesOf, RawFrames, LastSignalAt, Keep;
    var i := LastSignalAt(s, log[..n], e.tgid);
    if i.Some? {
      LastSignalIff(s, log[..n], e.tgid, i.value);
      var d := log[i.value];
      assert log[..n][i.value] == d;
      if HasStack(d) && d.maps.Some? {
        CutAtZero(s.tables, d.stack.value, Mappings(SplitOn(d.maps.value, '\n')));
      }
    }
  }

  /** An error or slow event among the first hundred of its process since the previous
      crash is in the report, whatever came later, unless it is a known start-up probe. */
  lemma EarlyPriorityIsReported(s: Setup, log: Log, n: nat, e: ExitEvent, m: nat, x: SyscallEvent)
    requires n < |log|
    requires log[n].record == Some(Record.Exit(e)) && Produces(s, log[..n], log[n]).Some?
    requires SinceCrash(log[..n], e.tgid) <= m <= n && !IsNoise(x)
    requires var early := EventsFor(log[SinceCrash(log[..n], e.tgid)..m], e.tgid);
      x in FirstErrors(early) || x in FirstSlow(early)
    ensures x in Produces(s, log[..n], log[n]).value.events
  {
    hide ReportOf, Buffer, SinceCrash, LastSignal, Keep, FirstN, EventsFor;
    var before, g := log[..n], e.tgid;
    var c := SinceCrash(before, g);
    var h := Buffer(before, g).value;
    Demultiplexed(before, g);
    EventsForConcat(log[c..m], log[m..n], g);
    assert before[c..] == log[c..m] + log[m..n];
    PriorityIsReported(e, h, LastSignal(s, before, g), log[n].maps, EventsFor(log[c..m], g),
                       EventsFor(log[m..n], g), x);
  }

  /** The statistics of a report count every event of its process since the previous
      crash, shown or not, and its start time is that of the first of them. */
  lemma ReportStatistics(s: Setup, log: Log, n: nat, e: ExitEvent)
    requires n < |log| && log[n].record == Some(Record.Exit(e)) && Produces(s, log[..n], log[n]).Some?
    ensures var r, mine := Produces(s, log[..n], log[n]).value, EventsFor(log[SinceCrash(log[..n], e.tgid)..n], e.tgid);
      && mine != [] && r.startTime == mine[0].timestamp
      && r.totalEvents == Wrap(|mine|)
      && r.errorCount == Wrap(|Keep(mine, Errors)|)
      && r.slowCount == Wrap(|Keep(mine, Slow)|)
      && r.pid == e.tgid && r.signal == e.signal && r.signal in {4, 6, 7, 8, 11}
  {
    hide Buffer, SinceCrash, EventsFor, LastSignal, Keep, DrainOf, AnalysisOf, NoiseIn, WithoutNoise;
    var before := log[..n];
    Demultiplexed(before, e.tgid);
    assert before[SinceCrash(before, e.tgid)..] == log[SinceCrash(before, e.tgid)..n];
  }

  // ----- the reports written

  /** The deliveries that wrote the reports. */
  ghost function WrittenAt(s: Setup, log: Log): (at: seq<nat>)
    ensures |at| == |Written(s, log)|
  {
    if log == [] then []
    else
      var n := |log| - 1;
      if Produces(s, log[..n], log[n]).None? then WrittenAt(s, log[..n]) else WrittenAt(s, log[..n]) + [n]
  }

  /** Each report is what its delivery produces, in order. */
  lemma {:induction false} WrittenMeaning(s: Setup, log: Log, k: nat)
    requires k < |Written(s, log)|
    ensures var n := WrittenAt(s, log)[k];
      && n < |log| && Produces(s, log[..n], log[n]) == Some(Written(s, log)[k])
      && (k > 0 ==> WrittenAt(s, log)[k - 1] < n)
  {
    hide Produces;
    var last := |log| - 1;
    var before := log[..last];
    if k < |Written(s, before)| {
      WrittenMeaning(s, before, k);
      assert before[..WrittenAt(s, before)[k]] == log[..WrittenAt(s, before)[k]];
    } else if k > 0 {
      WrittenMeaning(s, before, k - 1);
    }
  }

  /** No delivery that produces a report is missing. */
  lemma {:induction false} WrittenComplete(s: Setup, log: Log, n: nat)
    requires n < |log| && Produces(s, log[..n], log[n]).Some?
    ensures n in WrittenAt(s, log)
  {
    hide Produces;
    if n < |log| - 1 {
      assert log[..|log| - 1][..n] == log[..n];
      WrittenComplete(s, log[..|log| - 1], n);
    }
  }
}
