// The data of a crash report.

module Reports {
  import opened Types
  import opened History
  import opened CircularBuffers
  import opened NoiseFilter
  import opened Analysis
  import opened Resolver

  /** What the signal handler left for the report. */
  datatype SignalContext = SignalContext(stackTrace: Option<StackTrace>, faultAddr: u64, siCode: i32, signal: u32)

  datatype CrashReport = CrashReport(
    pid: u32, ppid: u32, comm: Bytes, startTime: u64,
    timestamp: u64, exitCode: i32, signal: i32,
    totalEvents: u64, errorCount: u64, slowCount: u64,
    events: Events, noiseCount: nat,
    analysis: CrashAnalysis, stackTrace: Option<StackTrace>)

  /** The address analysed: the signal's if it has one, else the exit record's. */
  function FaultAddress(e: ExitEvent, ctx: Option<SignalContext>): u64 {
    if ctx.Some? && ctx.value.faultAddr != 0 then ctx.value.faultAddr else e.sigInfo.faultAddr
  }

  function ReportOf(e: ExitEvent, held: Held, ctx: Option<SignalContext>, maps: Option<string>): CrashReport {
    var all := DrainOf(held.history, held.size);
    CrashReport(
      e.tgid, e.ppid, TrimZeros(e.comm), held.startTime,
      e.exitTimeNs, e.exitCode, e.signal,
      Wrap(|held.history|), Wrap(|Keep(held.history, Errors)|), Wrap(|Keep(held.history, Slow)|),
      WithoutNoise(all), NoiseIn(all),
      AnalysisOf(e.signal, FaultAddress(e, ctx), maps),
      if ctx.Some? then ctx.value.stackTrace else None)
  }

  function NoiseIn(s: Events): nat {
    if s == [] then 0
    else NoiseIn(s[..|s| - 1]) + if IsNoise(s[|s| - 1]) then 1 else 0
  }

  lemma {:induction false} NothingLost(s: Events)
    ensures |WithoutNoise(s)| + NoiseIn(s) == |s|
  {
    if s != [] { NothingLost(s[..|s| - 1]); }
  }

  method GenerateCrashReport(e: ExitEvent, buffer: CircularBuffer, ctx: Option<SignalContext>, maps: Option<string>)
    returns (report: CrashReport)
    requires buffer.Valid()
    ensures report == ReportOf(e, buffer.Snapshot(), ctx, maps)
    ensures report.pid == e.tgid && report.ppid == e.ppid && report.comm == TrimZeros(e.comm)
    ensures report.startTime == buffer.startTime && report.timestamp == e.exitTimeNs
    ensures report.exitCode == e.exitCode && report.signal == e.signal
    ensures report.totalEvents == buffer.totalEvents
    ensures report.errorCount == buffer.errorCount && report.slowCount == buffer.slowCount
    ensures report.events == WithoutNoise(DrainOf(buffer.history, buffer.size))
    ensures report.noiseCount + |report.events| == |DrainOf(buffer.history, buffer.size)|
    ensures report.analysis ==
            AnalysisOf(e.signal, if ctx.Some? && ctx.value.faultAddr != 0 then ctx.value.faultAddr
                                 else e.sigInfo.faultAddr, maps)
    ensures report.stackTrace == if ctx.Some? then ctx.value.stackTrace else None
  {
    hide DrainOf, AnalysisOf, Keep, RingOf, Wrap, TrimZeros;
    var drained := buffer.Drain();
    var allEvents := drained[..];
    var noiseCount := CountNoise(allEvents);
    var events := FilterNoise(allEvents);
    NothingLost(allEvents);
    var faultAddr := e.sigInfo.faultAddr;
    if ctx.Some? && ctx.value.faultAddr != 0 {
      faultAddr := ctx.value.faultAddr;
    }
    var analysis := AnalyzeCrash(e.signal, faultAddr, maps);
    report := CrashReport(
      e.tgid, e.ppid, TrimZeros(e.comm), buffer.startTime,
      e.exitTimeNs, e.exitCode, e.signal,
      buffer.totalEvents, buffer.errorCount, buffer.slowCount,
      events, noiseCount,
      analysis, if ctx.Some? then ctx.value.stackTrace else None);
  }

  /** Nothing drained is lost: shown and filtered events add up, and what is shown is the
      drain with some events left out, in the same order. */
  lemma ReportConserves(e: ExitEvent, held: Held, ctx: Option<SignalContext>, maps: Option<string>)
    returns (at: seq<nat>)
    ensures var r, all := ReportOf(e, held, ctx, maps), DrainOf(held.history, held.size);
      && |r.events| + r.noiseCount == |all|
      && |at| == |r.events|
      && (forall k :: 0 <= k < |at| ==> at[k] < |all| && r.events[k] == all[at[k]] && !IsNoise(r.events[k]))
      && (forall j, k :: 0 <= j < k < |at| ==> at[j] < at[k])
      && WithoutNoise(r.events) == r.events
  {
    var all := DrainOf(held.history, held.size);
    NothingLost(all);
    FilterTwice(all);
    at := KeptAt(all);
  }

  /** A report shows nothing its buffer was not given. */
  lemma ReportedWasPushed(e: ExitEvent, held: Held, ctx: Option<SignalContext>, maps: Option<string>, x: SyscallEvent)
    requires x in ReportOf(e, held, ctx, maps).events
    ensures x in held.history
  {
    hide DrainOf, WithoutNoise, NoiseIn, AnalysisOf;
    KeptMember(DrainOf(held.history, held.size), x);
    DrainMembers(held.history, held.size, x);
  }

  /** Chronological whenever a priority event exists or pushes came in time order. */
  lemma ReportChronological(e: ExitEvent, held: Held, ctx: Option<SignalContext>, maps: Option<string>)
    requires held.size > 0 && (HasPriority(held.history) || Sorted(held.history))
    ensures Sorted(ReportOf(e, held, ctx, maps).events)
  {
    DrainChronological(held.history, held.size);
    FilterSorted(DrainOf(held.history, held.size));
  }

  /** However many events are pushed afterwards, each of the first 100 errors and slow
      events is in the report unless it is a known start-up probe. */
  lemma PriorityIsReported(e: ExitEvent, held: Held, ctx: Option<SignalContext>, maps: Option<string>,
                           early: Events, later: Events, x: SyscallEvent)
    requires held.size > 0 && held.history == early + later
    requires (x in FirstErrors(early) || x in FirstSlow(early)) && !IsNoise(x)
    ensures x in ReportOf(e, held, ctx, maps).events
  {
    PrioritiesSurvive(early, later, held.size, x);
    KeptMember(DrainOf(held.history, held.size), x);
  }
}
