// Probes, ring and consumer together: what a crash report says about the run of the
// kernel probes behind it.

module EndToEnd {
  import opened Types
  import opened Wire
  import opened Trace
  import opened History
  import opened NoiseFilter
  import opened Reports
  import opened Consumer
  import opened Tracking
  import opened Analysis
  import opened Probes
  import opened Daemon
  import opened CircularBuffers
  import opened Registry
  import FaultHandoff
  import OpenatPairing
  import ConnectPairing

  /** The consumer has read, in order, a front part of what the ring received. */
  ghost predicate Follows(cfg: Config, tr: Run, log: Log) {
    && |log| <= |Emitted(cfg, tr)|
    && forall i :: 0 <= i < |log| ==> log[i].record == Some(Emitted(cfg, tr)[i].sub.record)
  }

  /** Whatever probe runs next, the consumer still holds a front part of the ring. */
  lemma ProbeStepFollows(cfg: Config, tr: Run, log: Log, s: Step)
    requires Follows(cfg, tr, log)
    ensures Follows(cfg, tr + [s], log)
  {
    Trace.Advance(cfg, tr, s);
  }

  /** Reading the next samples off the ring keeps the two in step: every byte sequence the
      probes submit is understood as the record they meant. */
  lemma ReadsFollow(cfg: Config, tr: Run, log: Log, ds: seq<Delivery>)
    requires Follows(cfg, tr, log) && |log| + |ds| <= |Emitted(cfg, tr)|
    requires forall i :: 0 <= i < |ds| ==>
      ds[i].sample == Samples(Submissions(Emitted(cfg, tr)))[|log| + i]
    ensures Follows(cfg, tr, log + HearAll(ds))
  {
    hide Parse, Encode, Emitted;
    var subs := Submissions(Emitted(cfg, tr));
    forall i | 0 <= i < |ds| ensures Hear(ds[i]).record == Some(subs[|log| + i].record) {
      WireRoundTrip(subs[|log| + i].record, subs[|log| + i].padding);
    }
  }

  // ----- the fault address

  /** The address analysed for a crash is 0, or that of the capture behind the last signal
      event consumed for the process since its last tracked crash: the process's pending
      capture when that signal was delivered, of the same signal number. */
  lemma FaultAddressOrigin(cfg: Config, tr: Run, s: Setup, log: Log, n: nat, e: ExitEvent)
    requires Follows(cfg, tr, log) && n < |log|
    requires log[n].record == Some(Record.Exit(e)) && Produces(s, log[..n], log[n]).Some?
    ensures var a, i := Produces(s, log[..n], log[n]).value.analysis.faultAddr, LastSignalAt(s, log[..n], e.tgid);
      && (i.None? ==> a == 0)
      && (i.Some? ==>
            && IsLastSignal(s, log[..n], e.tgid, i.value)
            && FaultHandoff.IsSignal(Emitted(cfg, tr), i.value)
            && (match FaultHandoff.CaptureOf(cfg, tr, i.value)
                case None => a == 0
                case Some(j) =>
                  var at, sig := Emitted(cfg, tr)[i.value].at, log[i.value].record.value.sig;
                  && FaultHandoff.IsPending(cfg, tr[..at], e.tgid, j)
                  && tr[j].sig == sig.signal
                  && a == tr[j].addr))
  {
    hide Submits, DrainOf, WithoutNoise, NoiseIn, Keep, Buffer, Uses, Emitted;
    var i := LastSignalAt(s, log[..n], e.tgid);
    FaultHandoff.ExitCarriesNoAddress(cfg, tr, n);
    if i.Some? {
      LastSignalIff(s, log[..n], e.tgid, i.value);
      FaultHandoff.SignalEventPairs(cfg, tr, i.value);
    }
  }

  /** The last crash signal delivered to process g before step `at`, at step d: the one it
      dies of, with no earlier end of the process in between. */
  ghost predicate LastDelivery(tr: Run, at: nat, d: nat, g: u32) {
    && d < at <= |tr| && tr[d].Deliver? && Trace.IsCrashSignal(tr[d].signal) && tr[d].task.tgid == g
    && forall m :: d < m < at ==>
         !(tr[m].Deliver? && Trace.IsCrashSignal(tr[m].signal) && tr[m].task.tgid == g)
         && !(tr[m].ExitTask? && tr[m].groupDead != 0 && tr[m].task.tgid == g)
  }

  /** Nothing compares the remembered signal with the one in the exit record. The address
      analysed comes from the last delivered signal, with that signal's number, exactly
      when that delivery was reported and the ring had room for it; otherwise it is 0 or
      comes from an earlier delivery, whatever its number. */
  lemma OwnSignalIff(cfg: Config, tr: Run, s: Setup, log: Log, n: nat, e: ExitEvent, d: nat)
    requires Follows(cfg, tr, log) && n < |log| && log[n].record == Some(Record.Exit(e))
    requires LastDelivery(tr, Emitted(cfg, tr)[n].at, d, e.tgid)
    ensures var i := LastSignalAt(s, log[..n], e.tgid);
      && (i.Some? && Emitted(cfg, tr)[i.value].at == d <==> Reported(cfg, tr[..d], tr[d]) && tr[d].reserved)
      && (i.Some? && Emitted(cfg, tr)[i.value].at == d ==> log[i.value].record.value.sig.signal == tr[d].signal)
      && (i.Some? ==> Emitted(cfg, tr)[i.value].at <= d)
  {
    hide Emitted, Uses, LastSignalAt, FaultSlot, Link;
    var es := Emitted(cfg, tr);
    EmittedMeaning(cfg, tr);
    if Reported(cfg, tr[..d], tr[d]) && tr[d].reserved {
      var i := EmittedComplete(cfg, tr, d);
      EmissionsInOrder(cfg, tr, i, n);
      forall k | i < k < n
        ensures !IsSignalOf(log[k], e.tgid) && !TrackedCrash(s, log[k].record, e.tgid)
      {
        assert d < es[k].at < es[n].at;
        assert Submits(cfg, tr[..es[k].at], tr[es[k].at]) == log[k].record;
      }
      assert IsSignalOf(log[i], e.tgid);
      LastSignalIff(s, log[..n], e.tgid, i);
    }
  }

  lemma EmissionsInOrder(cfg: Config, tr: Run, i: nat, n: nat)
    requires i < |Emitted(cfg, tr)| && n < |Emitted(cfg, tr)|
    requires Emitted(cfg, tr)[i].at < Emitted(cfg, tr)[n].at
    ensures i < n
  {
    EmittedMeaning(cfg, tr);
  }

  /** The address analysed is that of the dying thread's own fault exactly when its signal
      record found room, the fault was captured, and meanwhile no thread of the process had
      another fault captured or the same signal reported. */
  lemma OwnAddressIff(cfg: Config, tr: Run, s: Setup, log: Log, n: nat, e: ExitEvent, d: nat, j: nat)
    requires Follows(cfg, tr, log) && n < |log| && log[n].record == Some(Record.Exit(e))
    requires LastDelivery(tr, Emitted(cfg, tr)[n].at, d, e.tgid) && FaultHandoff.OwnFault(cfg, tr, d, j)
    ensures UsesCapture(cfg, tr, s, log[..n], e.tgid, d, j) <==>
      && tr[d].reserved
      && FaultStored(cfg, tr[..j], tr[j])
      && forall m :: j < m < d ==> !FaultHandoff.ClosesFault(cfg, tr, e.tgid, tr[d].signal, m)
    ensures UsesCapture(cfg, tr, s, log[..n], e.tgid, d, j) && Produces(s, log[..n], log[n]).Some? ==>
      Produces(s, log[..n], log[n]).value.analysis.faultAddr == tr[j].addr
  {
    hide Emitted, Uses, LastSignalAt, FaultSlot, Link, Produces, FaultHandoff.IsPending, FaultHandoff.ClosesFault;
    OwnSignalIff(cfg, tr, s, log, n, e, d);
    FaultHandoff.OwnFaultIff(cfg, tr, d, j);
    if Produces(s, log[..n], log[n]).Some? { FaultAddressOrigin(cfg, tr, s, log, n, e); }
  }

  /** The signal remembered for g is the one delivered at step d, with capture j. */
  ghost predicate UsesCapture(cfg: Config, tr: Run, s: Setup, log: Log, g: u32, d: nat, j: nat)
    requires Follows(cfg, tr, log) && d < |tr|
  {
    var i := LastSignalAt(s, log, g);
    && i.Some? && Emitted(cfg, tr)[i.value].at == d
    && Uses(cfg, tr[..d], tr[d]) == Some(j)
  }

  /** A process opens a file. */
  function Opens(t: Task, comm: Comm, name: Filename): Run {
    [OpenEnter(t, ViaOpenat, comm, Some([0x61]), Some(name), 1, true), OpenatExit(t, 3, 2, true)]
  }

  /** It handles a SIGSEGV at x. */
  function Survives(before: Run, t: Task, comm: Comm, x: u64): Run {
    before + [Fault(t, comm, 11, 1, x, true)] + [Deliver(t, Some(comm), 11, -1, 3, true)]
  }

  /** It dies of a SIGBUS whose signal record finds no room. */
  function Dies(before: Run, t: Task, comm: Comm): Run {
    before + [Deliver(t, Some(comm), 7, -1, 4, false)] + [ExitTask(t, 1, Some(comm), 1, 7, 0, 5, true, NO_PADDING)]
  }

  lemma OpensEmits(cfg: Config, t: Task, comm: Comm, name: Filename)
    requires comm in cfg.allowed && comm !in cfg.ignored
    ensures Emitted(cfg, Opens(t, comm, name)) ==
      [Emission(1, Submission(Openat(OpenatEvent(t.pid, t.tgid, 2, 1, 3, comm, name)), NO_PADDING))]
  {
    hide FaultSlot, ConnectSlot, Link;
    var tr := Opens(t, comm, name);
    assert !Noisy(tr[0].probe);
    assert [] + [tr[0]] == [tr[0]] && [tr[0]] + [tr[1]] == tr;
    Trace.Advance(cfg, [], tr[0]);
    Trace.Advance(cfg, [tr[0]], tr[1]);
  }

  lemma AppendEmits(cfg: Config, tr: Run, s: Step)
    ensures Emitted(cfg, tr + [s]) ==
      match Submits(cfg, tr, s)
      case None => Emitted(cfg, tr)
      case Some(r) => Emitted(cfg, tr) + [Emission(|tr|, Submission(r, PaddingOf(s)))]
  {
    Trace.Advance(cfg, tr, s);
  }

  lemma SurvivesSubmits(cfg: Config, before: Run, t: Task, comm: Comm, x: u64)
    requires comm in cfg.allowed
    ensures var f, d := Fault(t, comm, 11, 1, x, true), Deliver(t, Some(comm), 11, -1, 3, true);
      && Submits(cfg, before, f) == None
      && Submits(cfg, before + [f], d) == Some(Signal(SignalEvent(t.pid, t.tgid, 11, 3, x, 1, -1, comm)))
  {
    hide OpenSlot, ConnectSlot, Link;
    var f, d := Fault(t, comm, 11, 1, x, true), Deliver(t, Some(comm), 11, -1, 3, true);
    Trace.Advance(cfg, before, f);
    assert FaultStored(cfg, before, f) && (before + [f])[|before|] == f;
    assert FaultSlot(cfg, before + [f], t.tgid) == Some(|before|);
    assert Uses(cfg, before + [f], d) == Some(|before|);
  }

  lemma SurvivesEmits(cfg: Config, before: Run, t: Task, comm: Comm, x: u64)
    requires comm in cfg.allowed
    ensures Emitted(cfg, Survives(before, t, comm, x)) == Emitted(cfg, before) + [
        Emission(|before| + 1, Submission(Signal(SignalEvent(t.pid, t.tgid, 11, 3, x, 1, -1, comm)), NO_PADDING))]
  {
    hide Submits, Emitted;
    var f, d := Fault(t, comm, 11, 1, x, true), Deliver(t, Some(comm), 11, -1, 3, true);
    SurvivesSubmits(cfg, before, t, comm, x);
    AppendEmits(cfg, before, f);
    AppendEmits(cfg, before + [f], d);
  }

  lemma DiesSubmits(cfg: Config, before: Run, t: Task, comm: Comm)
    requires comm in cfg.allowed
    ensures var d, e := Deliver(t, Some(comm), 7, -1, 4, false), ExitTask(t, 1, Some(comm), 1, 7, 0, 5, true, NO_PADDING);
      && Submits(cfg, before, d) == None
      && Submits(cfg, before + [d], e) ==
         Some(Exit(ExitEvent(t.pid, t.tgid, 1, 0, 5, 0, 7, 1, SignalInfo(0, 0), comm)))
  {
    hide OpenSlot, ConnectSlot, Link, FaultSlot;
  }

  lemma DiesEmits(cfg: Config, before: Run, t: Task, comm: Comm)
    requires comm in cfg.allowed
    ensures Emitted(cfg, Dies(before, t, comm)) == Emitted(cfg, before) + [
        Emission(|before| + 1,
                 Submission(Exit(ExitEvent(t.pid, t.tgid, 1, 0, 5, 0, 7, 1, SignalInfo(0, 0), comm)), NO_PADDING))]
  {
    hide Submits, Emitted;
    var d, e := Deliver(t, Some(comm), 7, -1, 4, false), ExitTask(t, 1, Some(comm), 1, 7, 0, 5, true, NO_PADDING);
    DiesSubmits(cfg, before, t, comm);
    AppendEmits(cfg, before, d);
    AppendEmits(cfg, before + [d], e);
  }

  /** Its SIGBUS crash is analysed with the address of the SIGSEGV it survived. */
  lemma StaleAddress(cfg: Config, s: Setup, log: Log, t: Task, comm: Comm, name: Filename, x: u64)
    requires comm in cfg.allowed && comm !in cfg.ignored && TrimZeros(comm) in s.tracked
    requires Follows(cfg, Dies(Survives(Opens(t, comm, name), t, comm, x), t, comm), log)
    requires |log| == 3 && log[2].writable
    ensures Produces(s, log[..2], log[2]).Some?
    ensures var a := Produces(s, log[..2], log[2]).value.analysis;
      a.signal == 7 && a.hasFaultAddr && a.faultAddr == x
  {
    hide Emitted, DrainOf, WithoutNoise, NoiseIn, TrimZeros, Opens, Survives, Dies;
    OpensEmits(cfg, t, comm, name);
    SurvivesEmits(cfg, Opens(t, comm, name), t, comm, x);
    DiesEmits(cfg, Survives(Opens(t, comm, name), t, comm, x), t, comm);
    assert log[..2][..1] == log[..1] && log[..1][..0] == [];
    assert Buffer(log[..1], t.tgid).Some?;
    assert LastSignalAt(s, log[..2], t.tgid) == Some(1);
  }

  // ----- the events

  /** Every event a report shows was submitted by the probes for that very process, after
      its previous crash and before this one. */
  lemma ReportedEventsAreOwn(cfg: Config, tr: Run, s: Setup, log: Log, n: nat, e: ExitEvent, x: SyscallEvent)
    returns (k: nat)
    requires Follows(cfg, tr, log) && n < |log|
    requires log[n].record == Some(Record.Exit(e)) && Produces(s, log[..n], log[n]).Some?
    requires x in Produces(s, log[..n], log[n]).value.events
    ensures SinceCrash(log[..n], e.tgid) <= k < n
    ensures EventOf(Some(Emitted(cfg, tr)[k].sub.record), e.tgid) == Some(x) && x.pid == e.tgid
  {
    hide Emitted, ReportOf, Buffer, SinceCrash, LastSignal;
    var before := log[..n];
    ReportedWasPushed(e, Buffer(before, e.tgid).value, LastSignal(s, before, e.tgid), log[n].maps, x);
    k := HeldEventSource(before, e.tgid, x);
  }

  /** A file event in a report is an openat exit of that process in the run, with the file
      name and duration of its thread's most recent stored enter. */
  lemma ReportedOpenOrigin(cfg: Config, tr: Run, s: Setup, log: Log, n: nat, e: ExitEvent, x: SyscallEvent)
    returns (i: nat, j: nat)
    requires Follows(cfg, tr, log) && n < |log|
    requires log[n].record == Some(Record.Exit(e)) && Produces(s, log[..n], log[n]).Some?
    requires x in Produces(s, log[..n], log[n]).value.events && x.file.Some?
    ensures j < i < |tr| && tr[i].OpenatExit? && tr[i].task.tgid == e.tgid
    ensures OpenatPairing.IsLatestOpen(cfg, tr[..i], tr[i].task, j)
    ensures tr[j].name.Some? && x.file.value.filename == TrimZeros(tr[j].name.value)
    ensures x.ret == tr[i].ret && x.timestamp == tr[i].time
    ensures -TWO_32 / 2 <= x.ret < TWO_32 / 2 ==> x.file.value.fd == x.ret
    ensures Monotone(tr) ==> x.latency == tr[i].time - tr[j].time
  {
    hide Emitted, Produces, SinceCrash, OpenatPairing.IsLatestOpen, OpenSlot, TrimZeros, Monotone;
    var k := ReportedEventsAreOwn(cfg, tr, s, log, n, e, x);
    i, j := Emitted(cfg, tr)[k].at, OpenatPairing.SourceOf(cfg, tr, k);
    OpenatPairing.OpenatEventPairs(cfg, tr, k);
  }

  /** A network event in a report is a connect exit of that process in the run, with the
      destination and duration of the process's most recent stored IPv4 connect. */
  lemma ReportedConnectOrigin(cfg: Config, tr: Run, s: Setup, log: Log, n: nat, e: ExitEvent, x: SyscallEvent)
    returns (i: nat, j: nat)
    requires Follows(cfg, tr, log) && n < |log|
    requires log[n].record == Some(Record.Exit(e)) && Produces(s, log[..n], log[n]).Some?
    requires x in Produces(s, log[..n], log[n]).value.events && x.network.Some?
    ensures j < i < |tr| && tr[i].ConnectExit? && tr[i].task.tgid == e.tgid
    ensures ConnectPairing.IsLatestConnect(tr[..i], e.tgid, j)
    ensures tr[j].ConnectEnter? && tr[j].sockaddr.Some?
    ensures FromBytes(x.network.value.dstIP) == tr[j].sockaddr.value.addr
    ensures Swap16(x.network.value.dstPort) == tr[j].sockaddr.value.port
    ensures x.ret == tr[i].ret && x.timestamp == tr[i].time
    ensures -TWO_32 / 2 <= x.ret < TWO_32 / 2 ==> x.network.value.fd == x.ret
    ensures Monotone(tr) ==> x.latency == tr[i].time - tr[j].time
  {
    hide Emitted, Produces, SinceCrash, ConnectPairing.IsLatestConnect, ConnectSlot, Swap16, Monotone;
    var k := ReportedEventsAreOwn(cfg, tr, s, log, n, e, x);
    i, j := Emitted(cfg, tr)[k].at, ConnectPairing.SourceOf(cfg, tr, k);
    ConnectPairing.ConnectEventPairs(cfg, tr, k);
    Radixes();
    BytesRoundTrip(Emitted(cfg, tr)[k].sub.record.connect.daddr, 4);
  }

  // ----- which crashes are reported

  /** With both sides configured from one list of NUL-free names, the crash of a process
      is reported exactly when its name is an allowed key of the kernel, report files can
      be written, and the process has had an event since its previous crash. */
  lemma ReportedIff(cfg: Config, s: Setup, names: seq<Bytes>, log: Log, n: nat, e: ExitEvent)
    requires n < |log| && log[n].record == Some(Record.Exit(e))
    requires cfg.allowed == KeysOf(names) && s.tracked == (set x | x in names)
    requires forall x :: x in names ==> NulFree(x)
    requires e.comm[COMM_LEN - 1] == 0
    ensures Produces(s, log[..n], log[n]).Some? <==>
      && e.signal in {4, 6, 7, 8, 11}
      && e.comm in cfg.allowed
      && log[n].writable
      && EventsFor(log[SinceCrash(log[..n], e.tgid)..n], e.tgid) != []
  {
    hide ReportOf, LastSignal;
    var before := log[..n];
    TrackingAgrees(names, e.comm);
    Demultiplexed(before, e.tgid);
    assert before[SinceCrash(before, e.tgid)..] == log[SinceCrash(before, e.tgid)..n];
  }

  // ----- the whole system

  /** r is the report of the crash that the n-th record handled tells of: the end of the
      whole process it names, tracked, of a crash signal, with events that the probes
      submitted for that process since its previous crash. */
  ghost predicate TellsOf(cfg: Config, tr: Run, s: Setup, log: Log, n: nat, r: CrashReport)
    requires Follows(cfg, tr, log)
  {
    && n < |log| && Produces(s, log[..n], log[n]) == Some(r)
    && IsEndOf(s, tr[Emitted(cfg, tr)[n].at], r)
    && forall x :: x in r.events ==>
         exists m: nat ::
           SinceCrash(log[..n], r.pid) <= m < n && EventOf(Some(Emitted(cfg, tr)[m].sub.record), r.pid) == Some(x)
  }

  predicate IsEndOf(s: Setup, x: Step, r: CrashReport) {
    && x.ExitTask? && x.task.tgid == r.pid && x.groupDead != 0
    && x.ppid == r.ppid && x.time == r.timestamp
    && r.signal == x.rawExit % 0x80 && r.exitCode == (x.rawExit / 0x100) % 0x100 && r.signal in {4, 6, 7, 8, 11}
    && x.newComm.Some? && r.comm == TrimZeros(x.newComm.value) && r.comm in s.tracked
  }

  lemma WrittenTells(cfg: Config, tr: Run, s: Setup, log: Log, k: nat)
    requires Follows(cfg, tr, log) && k < |Written(s, log)|
    ensures TellsOf(cfg, tr, s, log, WrittenAt(s, log)[k], Written(s, log)[k])
  {
    hide Emitted, Buffer, LastSignal, TrimZeros, DrainOf, WithoutNoise, NoiseIn, AnalysisOf, SinceCrash, Written, WrittenAt;
    WrittenMeaning(s, log, k);
    EmittedMeaning(cfg, tr);
    var n := WrittenAt(s, log)[k];
    var r, e := Written(s, log)[k], log[n].record.value.exit;
    forall x | x in r.events
      ensures exists m: nat ::
        SinceCrash(log[..n], r.pid) <= m < n && EventOf(Some(Emitted(cfg, tr)[m].sub.record), r.pid) == Some(x)
    {
      var m := ReportedEventsAreOwn(cfg, tr, s, log, n, e, x);
    }
  }

  /** The system runs: a probe executes, or the consumer reads a sample. */
  datatype Event = Ran(step: Step) | Read(delivery: Delivery)

  /** The probe executions among the events. */
  function RunOf(evs: seq<Event>): Run {
    if evs == [] then []
    else
      var last := evs[|evs| - 1];
      if last.Ran? then RunOf(evs[..|evs| - 1]) + [last.step] else RunOf(evs[..|evs| - 1])
  }

  /** The samples read among the events. */
  function ReadOf(evs: seq<Event>): seq<Delivery> {
    if evs == [] then []
    else
      var last := evs[|evs| - 1];
      if last.Read? then ReadOf(evs[..|evs| - 1]) + [last.delivery] else ReadOf(evs[..|evs| - 1])
  }

  /** The ring is a queue: every read takes the oldest sample submitted before it that was
      not read yet. */
  ghost predicate Fifo(cfg: Config, evs: seq<Event>) {
    forall k :: 0 <= k < |evs| && evs[k].Read? ==> TakesNext(cfg, evs[..k], evs[k].delivery)
  }

  ghost predicate TakesNext(cfg: Config, before: seq<Event>, d: Delivery) {
    var samples, n := Samples(Submissions(Emitted(cfg, RunOf(before)))), |ReadOf(before)|;
    n < |samples| && d.sample == samples[n]
  }

  /** Whatever the interleaving of probes and reads, the consumer has understood, in order,
      a front part of the records the probes submitted. */
  lemma {:induction false} Interleaved(cfg: Config, evs: seq<Event>)
    requires Fifo(cfg, evs)
    ensures Follows(cfg, RunOf(evs), HearAll(ReadOf(evs)))
  {
    hide Emitted, Hear, TakesNext, Follows;
    if evs == [] {
      assert Follows(cfg, [], []) by { NothingYet(cfg); }
      assert HearAll([]) == [];
    } else {
      var n := |evs| - 1;
      var before, last := evs[..n], evs[n];
      forall k | 0 <= k < n && before[k].Read? ensures TakesNext(cfg, before[..k], before[k].delivery) {
        assert before[..k] == evs[..k];
      }
      Interleaved(cfg, before);
      match last {
        case Ran(step) => ProbeStepFollows(cfg, RunOf(before), HearAll(ReadOf(before)), step);
        case Read(d) =>
          assert TakesNext(cfg, before, d);
          NextReadFollows(cfg, before, d);
      }
    }
  }

  lemma NothingYet(cfg: Config)
    ensures Follows(cfg, [], [])
  {
  }

  lemma NextReadFollows(cfg: Config, before: seq<Event>, d: Delivery)
    requires Follows(cfg, RunOf(before), HearAll(ReadOf(before))) && TakesNext(cfg, before, d)
    ensures Follows(cfg, RunOf(before), HearAll(ReadOf(before) + [d]))
  {
    hide Emitted, Hear, RunOf, ReadOf, Parse, Encode;
    var ds := ReadOf(before);
    ReadsFollow(cfg, RunOf(before), HearAll(ds), [d]);
    assert HearAll(ds + [d]) == HearAll(ds) + HearAll([d]);
  }

  /** Start the probes and the consumer, run them in any interleaving, joined by the ring:
      the k-th report written tells of one crash that happened in the run. */
  lemma WrittenReport(kernel: Kernel, amon: Amon, evs: seq<Event>, k: nat)
    requires kernel.Valid() && amon.Valid()
    requires Fifo(kernel.cfg, evs) && kernel.run == RunOf(evs) && amon.log == HearAll(ReadOf(evs))
    requires k < |amon.reports|
    ensures Follows(kernel.cfg, kernel.run, amon.log)
    ensures |WrittenAt(amon.setup, amon.log)| == |amon.reports|
    ensures TellsOf(kernel.cfg, kernel.run, amon.setup, amon.log, WrittenAt(amon.setup, amon.log)[k], amon.reports[k])
  {
    hide Follows, TellsOf, Emitted, Written, WrittenAt, Prescribed, CircularBuffer.Valid, ProcessRegistry.Valid;
    Interleaved(kernel.cfg, evs);
    WrittenTells(kernel.cfg, kernel.run, amon.setup, amon.log, k);
  }
}
