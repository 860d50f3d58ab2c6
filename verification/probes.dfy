// The kernel probes: each method is one program execution, atomic, over maps shared by
// all of them and one ring.

module Probes {
  import opened Types
  import opened Trace

  datatype ProcessInfo = ProcessInfo(ppid: u32, rpid: u32, forkComm: Comm, currentComm: Comm)

  datatype OpenatInfo = OpenatInfo(enterTime: u64, filename: Filename, comm: Comm)

  datatype ConnectData = ConnectData(pid: u32, timestamp: u64, family: u16, dport: u16, daddr: u32)

  datatype SignalContext = SignalContext(faultAddr: u64, siCode: i32, signal: u32)

  /** The contents of the maps and of the ring. */
  datatype Maps = Maps(
    childRoot: map<u32, ProcessInfo>,
    openatStart: map<Task, OpenatInfo>,
    connectStart: map<u32, ConnectData>,
    pendingSignals: map<u32, SignalContext>,
    events: seq<Submission>)

  /** child_root holds exactly the recorded processes, each with its forker, its root and
      the names seen at its fork and at its last execve. */
  ghost predicate TreeHolds(cfg: Config, tr: Run, m: map<u32, ProcessInfo>) {
    forall p: u32 :: TreeEntry(cfg, tr, m, p)
  }

  ghost predicate TreeEntry(cfg: Config, tr: Run, m: map<u32, ProcessInfo>, p: u32) {
    match Link(cfg, tr, p)
    case None => p !in m
    case Some(j) =>
      p in m && m[p] == ProcessInfo(tr[j].parent, RootOf(cfg, tr, p).value, tr[j].comm, ExecComm(cfg, tr, p))
  }

  ghost predicate OpensHold(cfg: Config, tr: Run, m: map<Task, OpenatInfo>) {
    forall t: Task :: OpenEntry(cfg, tr, m, t)
  }

  ghost predicate OpenEntry(cfg: Config, tr: Run, m: map<Task, OpenatInfo>, t: Task) {
    match OpenSlot(cfg, tr, t)
    case None => t !in m
    case Some(j) => t in m && m[t] == OpenatInfo(tr[j].time, tr[j].name.value, tr[j].comm)
  }

  function DataOf(s: Step): ConnectData
    requires ConnectStored(s)
  {
    ConnectData(s.task.tgid, s.time, s.sockaddr.value.family, Swap16(s.sockaddr.value.port), s.sockaddr.value.addr)
  }

  ghost predicate ConnectsHold(tr: Run, m: map<u32, ConnectData>) {
    forall g: u32 :: ConnectEntry(tr, m, g)
  }

  ghost predicate ConnectEntry(tr: Run, m: map<u32, ConnectData>, g: u32) {
    match ConnectSlot(tr, g)
    case None => g !in m
    case Some(j) => g in m && m[g] == DataOf(tr[j])
  }

  ghost predicate FaultsHold(cfg: Config, tr: Run, m: map<u32, SignalContext>) {
    forall g: u32 :: FaultEntry(cfg, tr, m, g)
  }

  ghost predicate FaultEntry(cfg: Config, tr: Run, m: map<u32, SignalContext>, g: u32) {
    match FaultSlot(cfg, tr, g)
    case None => g !in m
    case Some(j) => g in m && m[g] == SignalContext(tr[j].addr, tr[j].code, tr[j].sig)
  }

  /** The maps and the ring hold exactly what the run prescribes. */
  ghost predicate Prescribed(cfg: Config, tr: Run, m: Maps) {
    && TreeHolds(cfg, tr, m.childRoot)
    && OpensHold(cfg, tr, m.openatStart)
    && ConnectsHold(tr, m.connectStart)
    && FaultsHold(cfg, tr, m.pendingSignals)
    && m.events == Submissions(Emitted(cfg, tr))
  }

  /** is_noise, character by character over the 63 bytes it reads. */
  predicate IsNoise(probe: Option<Prefix63>)
    ensures IsNoise(probe) <==> Noisy(probe)
  {
    match probe
    case None => true
    case Some(buf) =>
      var slen := |buf|;
      || (slen >= 4 && buf[0] == 0x2f && buf[1] == 0x64 && buf[2] == 0x65 && buf[3] == 0x76)
      || (slen >= 5 && buf[0] == 0x2f && buf[1] == 0x70 && buf[2] == 0x72 && buf[3] == 0x6f && buf[4] == 0x63)
      || (slen >= 4 && buf[0] == 0x2f && buf[1] == 0x73 && buf[2] == 0x79 && buf[3] == 0x73)
      || (slen >= 10
          && buf[slen - 10] == 0x2e && buf[slen - 9] == 0x67 && buf[slen - 8] == 0x69 && buf[slen - 7] == 0x74
          && buf[slen - 6] == 0x63 && buf[slen - 5] == 0x6f && buf[slen - 4] == 0x6e && buf[slen - 3] == 0x66
          && buf[slen - 2] == 0x69 && buf[slen - 1] == 0x67)
  }

  class Kernel {
    const cfg: Config

    var childRoot: map<u32, ProcessInfo>
    var openatStart: map<Task, OpenatInfo>
    var connectStart: map<u32, ConnectData>
    var pendingSignals: map<u32, SignalContext>
    var events: seq<Submission>

    /** Every program execution so far. */
    ghost var run: Run

    ghost function View(): Maps
      reads this
    {
      Maps(childRoot, openatStart, connectStart, pendingSignals, events)
    }

    ghost predicate Valid()
      reads this
    {
      Prescribed(cfg, run, View())
    }

    constructor (cfg: Config)
      ensures Valid() && run == [] && this.cfg == cfg
    {
      this.cfg := cfg;
      childRoot, openatStart, connectStart, pendingSignals := map[], map[], map[], map[];
      events := [];
      run := [];
    }

    /** bpf_ringbuf_submit */
    method Submit(r: Record, padding: Padding)
      modifies `events
      ensures events == old(events) + [Submission(r, padding)]
    {
      events := events + [Submission(r, padding)];
    }

    method TraceOpenCommon(task: Task, ghost via: OpenVia, comm: Comm, probe: Option<Prefix63>,
                           name: Option<Filename>, time: u64, updated: bool)
      requires Valid()
      modifies this
      ensures Valid() && run == old(run) + [OpenEnter(task, via, comm, probe, name, time, updated)]
      ensures openatStart ==
              if !IsNoise(probe) && comm !in cfg.ignored && (comm in cfg.allowed || task.pid in old(childRoot))
                 && name.Some? && updated
              then old(openatStart)[task := OpenatInfo(time, name.value, comm)] else old(openatStart)
      ensures childRoot == old(childRoot) && connectStart == old(connectStart) && pendingSignals == old(pendingSignals) && events == old(events)
    {
      ghost var s := OpenEnter(task, via, comm, probe, name, time, updated);
      assert TreeEntry(cfg, run, childRoot, task.pid);
      NextPrescribed(cfg, run, s, View());
      run := run + [s];
      if IsNoise(probe) {
        return;
      }
      if comm in cfg.ignored {
        return;
      }
      if comm !in cfg.allowed {
        if task.pid !in childRoot {
          return;
        }
      }
      if name.None? {
        return;
      }
      if updated {
        openatStart := openatStart[task := OpenatInfo(time, name.value, comm)];
      }
    }

    method TraceOpenatExit(task: Task, ret: i64, time: u64, reserved: bool)
      requires Valid()
      modifies this
      ensures Valid() && run == old(run) + [OpenatExit(task, ret, time, reserved)]
      ensures openatStart == if task in old(openatStart) then old(openatStart) - {task} else old(openatStart)
      ensures events ==
              if task in old(openatStart) && reserved then
                var info := old(openatStart)[task];
                old(events) + [Submission(Openat(OpenatEvent(
                  task.pid, task.tgid, time, Wrap(time - info.enterTime), ret, info.comm, info.filename)), NO_PADDING)]
              else old(events)
      ensures childRoot == old(childRoot) && connectStart == old(connectStart) && pendingSignals == old(pendingSignals)
    {
      ghost var s := OpenatExit(task, ret, time, reserved);
      assert OpenEntry(cfg, run, openatStart, task);
      NextPrescribed(cfg, run, s, View());
      hide Prescribed, Emitted, ConnectSlot, FaultSlot;
      run := run + [s];
      if task !in openatStart {
        return;
      }
      var info := openatStart[task];
      var latency := Wrap(time - info.enterTime);
      if !reserved {
        openatStart := openatStart - {task};
        return;
      }
      Submit(Openat(OpenatEvent(task.pid, task.tgid, time, latency, ret, info.comm, info.filename)), NO_PADDING);
      openatStart := openatStart - {task};
    }

    method HandleFork(comm: Comm, parent: u32, child: u32, updated: bool)
      requires Valid()
      modifies this
      ensures Valid() && run == old(run) + [Fork(comm, parent, child, updated)]
      ensures childRoot ==
              if updated && comm in cfg.allowed then
                old(childRoot)[child := ProcessInfo(parent, parent, comm, ZERO_COMM)]
              else if updated && parent in old(childRoot) then
                old(childRoot)[child := ProcessInfo(parent, old(childRoot)[parent].rpid, comm, ZERO_COMM)]
              else old(childRoot)
      ensures openatStart == old(openatStart) && connectStart == old(connectStart) && pendingSignals == old(pendingSignals) && events == old(events)
    {
      ghost var s := Fork(comm, parent, child, updated);
      assert TreeEntry(cfg, run, childRoot, parent);
      NextPrescribed(cfg, run, s, View());
      run := run + [s];
      if comm in cfg.allowed {
        if updated {
          childRoot := childRoot[child := ProcessInfo(parent, parent, comm, ZERO_COMM)];
        }
        return;
      }
      if parent !in childRoot {
        return;
      }
      var info := ProcessInfo(parent, childRoot[parent].rpid, comm, ZERO_COMM);
      if updated {
        childRoot := childRoot[child := info];
      }
    }

    method HandleExecve(task: Task, comm: Option<Comm>)
      requires Valid()
      modifies this
      ensures Valid() && run == old(run) + [Execve(task, comm)]
      ensures childRoot ==
              if task.pid in old(childRoot) && comm.Some? then
                old(childRoot)[task.pid := old(childRoot)[task.pid].(currentComm := comm.value)]
              else old(childRoot)
      ensures openatStart == old(openatStart) && connectStart == old(connectStart) && pendingSignals == old(pendingSignals) && events == old(events)
    {
      ghost var s := Execve(task, comm);
      NextPrescribed(cfg, run, s, View());
      run := run + [s];
      if task.pid !in childRoot {
        return;
      }
      if comm.None? {
        return;
      }
      childRoot := childRoot[task.pid := childRoot[task.pid].(currentComm := comm.value)];
    }

    method ProbeForceSigFault(task: Task, comm: Comm, sig: i32, code: i32, addr: u64, updated: bool)
      requires Valid()
      modifies this
      ensures Valid() && run == old(run) + [Fault(task, comm, sig, code, addr, updated)]
      ensures pendingSignals ==
              if (sig == 11 || sig == 7) && (comm in cfg.allowed || task.tgid in old(childRoot)) && updated then
                old(pendingSignals)[task.tgid := SignalContext(addr, code, sig)]
              else old(pendingSignals)
      ensures childRoot == old(childRoot) && openatStart == old(openatStart) && connectStart == old(connectStart) && events == old(events)
    {
      ghost var s := Fault(task, comm, sig, code, addr, updated);
      assert TreeEntry(cfg, run, childRoot, task.tgid);
      NextPrescribed(cfg, run, s, View());
      run := run + [s];
      if sig != 11 && sig != 7 {
        return;
      }
      if comm !in cfg.allowed {
        if task.tgid !in childRoot {
          return;
        }
      }
      if updated {
        pendingSignals := pendingSignals[task.tgid := SignalContext(addr, code, sig)];
      }
    }

    method HandleSignalDeliver(task: Task, comm: Option<Comm>, sig: u32, stackID: i32, time: u64, reserved: bool)
      requires Valid()
      modifies this
      ensures Valid() && run == old(run) + [Deliver(task, comm, sig, stackID, time, reserved)]
      ensures var reported := sig in {4, 6, 7, 8, 11} && comm.Some?
                && (comm.value in cfg.allowed || task.tgid in old(childRoot));
              var p := old(pendingSignals);
              var used := reported && task.tgid in p && p[task.tgid].signal == sig;
              && pendingSignals == (if used then p - {task.tgid} else p)
              && events ==
                 if reported && reserved then
                   old(events) + [Submission(Signal(SignalEvent(
                     task.pid, task.tgid, sig, time,
                     if used then p[task.tgid].faultAddr else 0, if used then p[task.tgid].siCode else 0,
                     stackID, comm.value)), NO_PADDING)]
                 else old(events)
      ensures childRoot == old(childRoot) && openatStart == old(openatStart) && connectStart == old(connectStart)
    {
      ghost var s := Deliver(task, comm, sig, stackID, time, reserved);
      assert TreeEntry(cfg, run, childRoot, task.tgid) && FaultEntry(cfg, run, pendingSignals, task.tgid);
      NextPrescribed(cfg, run, s, View());
      DeliverNext(cfg, run, s, View());
      hide Prescribed, Emitted, OpenSlot, ConnectSlot, Next;
      run := run + [s];
      if sig != 11 && sig != 6 && sig != 7 && sig != 4 && sig != 8 {
        return;
      }
      if comm.None? {
        return;
      }
      if comm.value !in cfg.allowed {
        if task.tgid !in childRoot {
          return;
        }
      }
      var faultAddr, siCode := 0, 0;
      if task.tgid in pendingSignals && pendingSignals[task.tgid].signal == sig {
        faultAddr := pendingSignals[task.tgid].faultAddr;
        siCode := pendingSignals[task.tgid].siCode;
        pendingSignals := pendingSignals - {task.tgid};
      }
      if !reserved {
        return;
      }
      Submit(Signal(SignalEvent(task.pid, task.tgid, sig, time, faultAddr, siCode, stackID, comm.value)), NO_PADDING);
    }

    method HandleExit(task: Task, ppid: u32, comm: Option<Comm>, groupDead: byte, rawExit: u32,
                      startTime: u64, time: u64, reserved: bool, padding: Padding)
      requires Valid()
      modifies this
      ensures Valid()
      ensures run == old(run) + [ExitTask(task, ppid, comm, groupDead, rawExit, startTime, time, reserved, padding)]
      ensures events ==
              if comm.Some? && (comm.value in cfg.allowed || task.pid in old(childRoot)) && groupDead != 0 && reserved then
                old(events) + [Submission(Exit(ExitEvent(
                  task.pid, task.tgid, ppid, startTime, time, (rawExit / 0x100) % 0x100, rawExit % 0x80,
                  groupDead, SignalInfo(0, 0), comm.value)), padding)]
              else old(events)
      ensures childRoot == old(childRoot) && openatStart == old(openatStart) && connectStart == old(connectStart) && pendingSignals == old(pendingSignals)
    {
      ghost var s := ExitTask(task, ppid, comm, groupDead, rawExit, startTime, time, reserved, padding);
      assert TreeEntry(cfg, run, childRoot, task.pid);
      NextPrescribed(cfg, run, s, View());
      run := run + [s];
      if comm.None? {
        return;
      }
      if comm.value !in cfg.allowed {
        if task.pid !in childRoot {
          return;
        }
      }
      if groupDead == 0 {
        return;
      }
      if !reserved {
        return;
      }
      var signal, exitCode := rawExit % 0x80, (rawExit / 0x100) % 0x100;
      Submit(Exit(ExitEvent(task.pid, task.tgid, ppid, startTime, time, exitCode, signal, groupDead,
                            SignalInfo(0, 0), comm.value)), padding);
    }

    method HandleConnectEnter(task: Task, sockaddr: Option<SockAddr>, time: u64, updated: bool)
      requires Valid()
      modifies this
      ensures Valid() && run == old(run) + [ConnectEnter(task, sockaddr, time, updated)]
      ensures connectStart ==
              if sockaddr.Some? && sockaddr.value.family == 2 && updated then
                old(connectStart)[task.tgid := ConnectData(
                  task.tgid, time, 2, Swap16(sockaddr.value.port), sockaddr.value.addr)]
              else old(connectStart)
      ensures childRoot == old(childRoot) && openatStart == old(openatStart) && pendingSignals == old(pendingSignals) && events == old(events)
    {
      ghost var s := ConnectEnter(task, sockaddr, time, updated);
      NextPrescribed(cfg, run, s, View());
      run := run + [s];
      if sockaddr.None? {
        return;
      }
      if sockaddr.value.family != 2 {
        return;
      }
      var data := ConnectData(task.tgid, time, sockaddr.value.family, Swap16(sockaddr.value.port),
                              sockaddr.value.addr);
      if updated {
        connectStart := connectStart[data.pid := data];
      }
    }

    method HandleConnectExit(task: Task, comm: Comm, ret: i64, time: u64, reserved: bool)
      requires Valid()
      modifies this
      ensures Valid() && run == old(run) + [ConnectExit(task, comm, ret, time, reserved)]
      ensures var c := old(connectStart);
              && connectStart == (if task.tgid in c then c - {task.tgid} else c)
              && events ==
                 if task.tgid in c && comm !in cfg.ignored && (comm in cfg.allowed || task.tgid in old(childRoot)) && reserved
                 then
                   var data := c[task.tgid];
                   old(events) + [Submission(Connect(ConnectEvent(
                     task.tgid, time, Wrap(time - data.timestamp), ret, data.family, data.dport, data.daddr)), NO_PADDING)]
                 else old(events)
      ensures childRoot == old(childRoot) && openatStart == old(openatStart) && pendingSignals == old(pendingSignals)
    {
      ghost var s := ConnectExit(task, comm, ret, time, reserved);
      assert TreeEntry(cfg, run, childRoot, task.tgid) && ConnectEntry(run, connectStart, task.tgid);
      NextPrescribed(cfg, run, s, View());
      hide Prescribed, Emitted, OpenSlot, FaultSlot;
      run := run + [s];
      var pid := task.tgid;
      if pid !in connectStart {
        return;
      }
      var data := connectStart[pid];
      if comm in cfg.ignored {
        connectStart := connectStart - {pid};
        return;
      }
      if comm !in cfg.allowed {
        if pid !in childRoot {
          connectStart := connectStart - {pid};
          return;
        }
      }
      if !reserved {
        connectStart := connectStart - {pid};
        return;
      }
      Submit(Connect(ConnectEvent(pid, time, Wrap(time - data.timestamp), ret, data.family, data.dport, data.daddr)),
             NO_PADDING);
      connectStart := connectStart - {pid};
    }
  }

  // ----- one step of each map, in the terms of the run

  ghost function NewRoot(cfg: Config, tr: Run, s: Step): u32
    requires ForkStored(cfg, tr, s)
  {
    if s.comm in cfg.allowed then s.parent else RootOf(cfg, tr, s.parent).value
  }

  ghost function NextTree(cfg: Config, tr: Run, s: Step, m: map<u32, ProcessInfo>): map<u32, ProcessInfo> {
    if ForkStored(cfg, tr, s) then
      m[s.child := ProcessInfo(s.parent, NewRoot(cfg, tr, s), s.comm, ZERO_COMM)]
    else if s.Execve? && s.newComm.Some? && s.task.pid in m then
      m[s.task.pid := m[s.task.pid].(currentComm := s.newComm.value)]
    else m
  }

  ghost function NextOpens(cfg: Config, tr: Run, s: Step, m: map<Task, OpenatInfo>): map<Task, OpenatInfo> {
    if OpenStored(cfg, tr, s) then m[s.task := OpenatInfo(s.time, s.name.value, s.comm)]
    else if s.OpenatExit? && s.task in m then m - {s.task}
    else m
  }

  ghost function NextConnects(s: Step, m: map<u32, ConnectData>): map<u32, ConnectData> {
    if ConnectStored(s) then m[s.task.tgid := DataOf(s)]
    else if s.ConnectExit? && s.task.tgid in m then m - {s.task.tgid}
    else m
  }

  ghost function NextFaults(cfg: Config, tr: Run, s: Step, m: map<u32, SignalContext>): map<u32, SignalContext> {
    if FaultStored(cfg, tr, s) then m[s.task.tgid := SignalContext(s.addr, s.code, s.sig)]
    else if Uses(cfg, tr, s).Some? then m - {s.task.tgid}
    else m
  }

  ghost function NextEvents(cfg: Config, tr: Run, s: Step, events: seq<Submission>): seq<Submission> {
    match Submits(cfg, tr, s)
    case None => events
    case Some(r) => events + [Submission(r, PaddingOf(s))]
  }

  ghost function Next(cfg: Config, tr: Run, s: Step, m: Maps): Maps {
    Maps(NextTree(cfg, tr, s, m.childRoot), NextOpens(cfg, tr, s, m.openatStart),
         NextConnects(s, m.connectStart), NextFaults(cfg, tr, s, m.pendingSignals),
         NextEvents(cfg, tr, s, m.events))
  }

  /** A delivery touches the captures and the ring only. */
  lemma DeliverNext(cfg: Config, tr: Run, s: Step, m: Maps)
    requires s.Deliver?
    ensures Next(cfg, tr, s, m) ==
            m.(pendingSignals := if Uses(cfg, tr, s).Some? then m.pendingSignals - {s.task.tgid} else m.pendingSignals,
               events := NextEvents(cfg, tr, s, m.events))
  {
  }

  lemma NextTreeHolds(cfg: Config, tr: Run, s: Step, m: map<u32, ProcessInfo>)
    requires TreeHolds(cfg, tr, m)
    ensures TreeHolds(cfg, tr + [s], NextTree(cfg, tr, s, m))
  {
    assert (tr + [s])[..|tr|] == tr;
    forall p ensures TreeEntry(cfg, tr + [s], NextTree(cfg, tr, s, m), p) {
      assert TreeEntry(cfg, tr, m, p);
      match Link(cfg, tr, p)
      case None =>
      case Some(j) => assert (tr + [s])[..j] == tr[..j];
    }
  }

  lemma NextOpensHold(cfg: Config, tr: Run, s: Step, m: map<Task, OpenatInfo>)
    requires OpensHold(cfg, tr, m)
    ensures OpensHold(cfg, tr + [s], NextOpens(cfg, tr, s, m))
  {
    assert (tr + [s])[..|tr|] == tr;
    forall t ensures OpenEntry(cfg, tr + [s], NextOpens(cfg, tr, s, m), t) {
      assert OpenEntry(cfg, tr, m, t);
    }
  }

  lemma NextConnectsHold(tr: Run, s: Step, m: map<u32, ConnectData>)
    requires ConnectsHold(tr, m)
    ensures ConnectsHold(tr + [s], NextConnects(s, m))
  {
    assert (tr + [s])[..|tr|] == tr;
    forall g ensures ConnectEntry(tr + [s], NextConnects(s, m), g) {
      assert ConnectEntry(tr, m, g);
    }
  }

  lemma NextFaultsHold(cfg: Config, tr: Run, s: Step, m: map<u32, SignalContext>)
    requires FaultsHold(cfg, tr, m)
    ensures FaultsHold(cfg, tr + [s], NextFaults(cfg, tr, s, m))
  {
    assert (tr + [s])[..|tr|] == tr;
    forall g ensures FaultEntry(cfg, tr + [s], NextFaults(cfg, tr, s, m), g) {
      assert FaultEntry(cfg, tr, m, g);
    }
  }

  lemma NextEventsHold(cfg: Config, tr: Run, s: Step)
    ensures Submissions(Emitted(cfg, tr + [s])) == NextEvents(cfg, tr, s, Submissions(Emitted(cfg, tr)))
  {
    assert (tr + [s])[..|tr|] == tr;
  }

  lemma NextPrescribed(cfg: Config, tr: Run, s: Step, m: Maps)
    requires Prescribed(cfg, tr, m)
    ensures Prescribed(cfg, tr + [s], Next(cfg, tr, s, m))
  {
    NextTreeHolds(cfg, tr, s, m.childRoot);
    NextOpensHold(cfg, tr, s, m.openatStart);
    NextConnectsHold(tr, s, m.connectStart);
    NextFaultsHold(cfg, tr, s, m.pendingSignals);
    NextEventsHold(cfg, tr, s);
  }
}
