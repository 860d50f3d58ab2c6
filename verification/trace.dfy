// A run of the kernel probes is a sequence of steps, one per program execution, from
// any number of threads in any interleaving. This file says, over such a run, what each
// map of the probes must hold and which records the ring must receive.

module Trace {
  import opened Types
  import opened Wire

  /** A thread: its thread group (the process) and its own id. */
  datatype Task = Task(tgid: u32, pid: u32)

  datatype OpenVia = ViaOpenat | ViaOpen | ViaOpenat2

  /** The part of a sockaddr_in that the connect probe reads; port is big-endian. */
  datatype SockAddr = SockAddr(family: u16, port: u16, addr: u32)

  /** The first 63 bytes of a user string. */
  type Prefix63 = b: Bytes | |b| <= 63 witness []

  type Padding = g: Garbage | GarbageFits(g) witness Garbage([0, 0, 0], [0, 0, 0, 0])

  const NO_PADDING: Padding := Garbage([0, 0, 0], [0, 0, 0, 0])

  /** One execution of a probe with everything it reads from outside: the current thread
      and its name, user memory (None when unreadable), the clock, and whether the map
      update or the ring reservation it may attempt succeeds. */
  datatype Step =
    | OpenEnter(task: Task, via: OpenVia, comm: Comm, probe: Option<Prefix63>, name: Option<Filename>,
                time: u64, updated: bool)
    | OpenatExit(task: Task, ret: i64, time: u64, reserved: bool)
    | Fork(comm: Comm, parent: u32, child: u32, updated: bool)
    | Execve(task: Task, newComm: Option<Comm>)
    | Fault(task: Task, comm: Comm, sig: i32, code: i32, addr: u64, updated: bool)
    | Deliver(task: Task, newComm: Option<Comm>, signal: u32, stackID: i32, time: u64, reserved: bool)
    | ExitTask(task: Task, ppid: u32, newComm: Option<Comm>, groupDead: byte, rawExit: u32,
               startTime: u64, time: u64, reserved: bool, padding: Padding)
    | ConnectEnter(task: Task, sockaddr: Option<SockAddr>, time: u64, updated: bool)
    | ConnectExit(task: Task, comm: Comm, ret: i64, time: u64, reserved: bool)

  type Run = seq<Step>

  /** The two maps user space fills before the probes are attached. */
  datatype Config = Config(allowed: set<Comm>, ignored: set<Comm>)

  const AF_INET := 2

  const ZERO_COMM: Comm := [0, 0, 0, 0, 0, 0, 0, 0, 0, 0, 0, 0, 0, 0, 0, 0]

  /** The clock never runs backwards. */
  ghost predicate Monotone(tr: Run) {
    forall i, j :: 0 <= i < j < |tr| && Timed(tr[i]) && Timed(tr[j]) ==> tr[i].time <= tr[j].time
  }

  predicate Timed(s: Step) {
    !s.Fork? && !s.Execve? && !s.Fault?
  }

  // ----- filters

  const DEV: Bytes := [0x2f, 0x64, 0x65, 0x76]              // "/dev"
  const PROC: Bytes := [0x2f, 0x70, 0x72, 0x6f, 0x63]       // "/proc"
  const SYS: Bytes := [0x2f, 0x73, 0x79, 0x73]              // "/sys"
  const GITCONFIG: Bytes :=                                 // ".gitconfig"
    [0x2e, 0x67, 0x69, 0x74, 0x63, 0x6f, 0x6e, 0x66, 0x69, 0x67]

  /** Paths the open probe drops, judged on their first 63 bytes. */
  predicate Noisy(probe: Option<Prefix63>) {
    match probe
    case None => true
    case Some(b) =>
      || DEV <= b || PROC <= b || SYS <= b
      || (|b| >= 10 && b[|b| - 10..] == GITCONFIG)
  }

  /** In characters: the unreadable paths, those that begin with /dev, /proc or /sys, and
      those that end in .gitconfig. */
  lemma NoisyPaths(probe: Option<Prefix63>)
    ensures Noisy(probe) <==>
      || probe.None?
      || (exists rest :: probe.value == Ascii("/dev") + rest)
      || (exists rest :: probe.value == Ascii("/proc") + rest)
      || (exists rest :: probe.value == Ascii("/sys") + rest)
      || (exists front :: probe.value == front + Ascii(".gitconfig"))
  {
    assert Ascii("/dev") == DEV && Ascii("/proc") == PROC && Ascii("/sys") == SYS;
    assert Ascii(".gitconfig") == GITCONFIG;
    hide Ascii;
    if probe.Some? {
      var b := probe.value;
      if DEV <= b { assert b == DEV + b[|DEV|..]; }
      if PROC <= b { assert b == PROC + b[|PROC|..]; }
      if SYS <= b { assert b == SYS + b[|SYS|..]; }
      if |b| >= 10 && b[|b| - 10..] == GITCONFIG { assert b == b[..|b| - 10] + GITCONFIG; }
    }
  }

  // ----- the process tree

  /** A fork is recorded when the forker has an allowed name or is itself recorded. */
  predicate ForkStored(cfg: Config, before: Run, s: Step)
    decreases |before|, 1
  {
    s.Fork? && s.updated && (s.comm in cfg.allowed || Link(cfg, before, s.parent).Some?)
  }

  /** The latest recorded fork that created pid. */
  function Link(cfg: Config, tr: Run, pid: u32): (r: Option<nat>)
    ensures r.Some? ==> r.value < |tr| && tr[r.value].Fork? && tr[r.value].child == pid
    decreases |tr|, 0
  {
    if tr == [] then None
    else
      var before, s := tr[..|tr| - 1], tr[|tr| - 1];
      if ForkStored(cfg, before, s) && s.child == pid then Some(|before|)
      else Link(cfg, before, pid)
  }

  lemma {:induction false} LinkIsStored(cfg: Config, tr: Run, pid: u32)
    requires Link(cfg, tr, pid).Some?
    ensures var j := Link(cfg, tr, pid).value;
      ForkStored(cfg, tr[..j], tr[j])
  {
    var before := tr[..|tr| - 1];
    var j := Link(cfg, tr, pid).value;
    if j < |before| {
      LinkIsStored(cfg, before, pid);
      assert before[..j] == tr[..j];
    }
  }

  /** Climb from pid to the forker of its nearest ancestor link made under an allowed
      name, each link as it stood when it was made. */
  function RootOf(cfg: Config, tr: Run, pid: u32): (r: Option<u32>)
    ensures r.Some? <==> Link(cfg, tr, pid).Some?
    decreases |tr|
  {
    match Link(cfg, tr, pid)
    case None => None
    case Some(j) =>
      if tr[j].comm in cfg.allowed then Some(tr[j].parent)
      else
        LinkIsStored(cfg, tr, pid);
        RootOf(cfg, tr[..j], tr[j].parent)
  }

  /** The name a recorded process took at its last observed execve, else zeros. */
  function ExecComm(cfg: Config, tr: Run, pid: u32): Comm {
    if tr == [] then ZERO_COMM
    else
      var before, s := tr[..|tr| - 1], tr[|tr| - 1];
      if ForkStored(cfg, before, s) && s.child == pid then ZERO_COMM
      else if s.Execve? && s.task.pid == pid && s.newComm.Some? then s.newComm.value
      else ExecComm(cfg, before, pid)
  }

  /** Tracked: an allowed name, or recorded in the tree under the id the probe uses. */
  predicate Tracked(cfg: Config, before: Run, comm: Comm, id: u32) {
    comm in cfg.allowed || Link(cfg, before, id).Some?
  }

  // ----- open

  predicate OpenStored(cfg: Config, before: Run, s: Step) {
    && s.OpenEnter?
    && !Noisy(s.probe)
    && s.comm !in cfg.ignored
    && Tracked(cfg, before, s.comm, s.task.pid)
    && s.name.Some?
    && s.updated
  }

  /** The thread's latest stored enter with no openat exit of the thread behind it. */
  function OpenSlot(cfg: Config, tr: Run, t: Task): (r: Option<nat>)
    ensures r.Some? ==> r.value < |tr|
    ensures r.Some? ==> var s := tr[r.value]; s.OpenEnter? && s.task == t && s.name.Some?
  {
    if tr == [] then None
    else
      var before, s := tr[..|tr| - 1], tr[|tr| - 1];
      if OpenStored(cfg, before, s) && s.task == t then Some(|before|)
      else if s.OpenatExit? && s.task == t then None
      else OpenSlot(cfg, before, t)
  }

  // ----- connect

  predicate ConnectStored(s: Step) {
    s.ConnectEnter? && s.sockaddr.Some? && s.sockaddr.value.family == AF_INET && s.updated
  }

  /** The process's latest stored IPv4 connect with no connect exit of any of its threads
      behind it. */
  function ConnectSlot(tr: Run, tgid: u32): (r: Option<nat>)
    ensures r.Some? ==> r.value < |tr|
    ensures r.Some? ==> ConnectStored(tr[r.value]) && tr[r.value].task.tgid == tgid
  {
    if tr == [] then None
    else
      var before, s := tr[..|tr| - 1], tr[|tr| - 1];
      if ConnectStored(s) && s.task.tgid == tgid then Some(|before|)
      else if s.ConnectExit? && s.task.tgid == tgid then None
      else ConnectSlot(before, tgid)
  }

  // ----- faults

  predicate FaultStored(cfg: Config, before: Run, s: Step) {
    && s.Fault?
    && (s.sig == 11 || s.sig == 7)
    && Tracked(cfg, before, s.comm, s.task.tgid)
    && s.updated
  }

  predicate IsCrashSignal(sig: int) {
    sig == 11 || sig == 6 || sig == 7 || sig == 4 || sig == 8
  }

  /** A delivery that the probe reports. */
  predicate Reported(cfg: Config, before: Run, s: Step) {
    && s.Deliver?
    && IsCrashSignal(s.signal)
    && s.newComm.Some?
    && Tracked(cfg, before, s.newComm.value, s.task.tgid)
  }

  /** The process's latest capture that no reported delivery of its signal has used. */
  function FaultSlot(cfg: Config, tr: Run, tgid: u32): (r: Option<nat>)
    ensures r.Some? ==> r.value < |tr|
    ensures r.Some? ==>
      var s := tr[r.value]; s.Fault? && s.task.tgid == tgid && (s.sig == 11 || s.sig == 7)
    decreases |tr|, 0
  {
    if tr == [] then None
    else
      var before, s := tr[..|tr| - 1], tr[|tr| - 1];
      if FaultStored(cfg, before, s) && s.task.tgid == tgid then Some(|before|)
      else if Uses(cfg, before, s).Some? && s.task.tgid == tgid then None
      else FaultSlot(cfg, before, tgid)
  }

  /** The capture a delivery takes its fault address from. */
  function Uses(cfg: Config, before: Run, s: Step): (r: Option<nat>)
    ensures r.Some? ==>
      s.Deliver? && r.value < |before| && before[r.value].Fault?
      && before[r.value].task.tgid == s.task.tgid && before[r.value].sig == s.signal
    decreases |before|, 1
  {
    if !Reported(cfg, before, s) then None
    else
      match FaultSlot(cfg, before, s.task.tgid)
      case None => None
      case Some(j) => if before[j].sig == s.signal then Some(j) else None
  }

  // ----- records

  function Swap16(x: u16): u16 {
    (x % 0x100) * 0x100 + x / 0x100
  }

  /** A port arrives in network byte order: its high byte first in memory, so in the low
      half of what a little-endian machine reads. */
  lemma PortInHostOrder(high: byte, low: byte)
    ensures Swap16(high + 0x100 * low) == 0x100 * high + low
  {
  }

  /** The record a step submits, if any. */
  function Submits(cfg: Config, before: Run, s: Step): Option<Record> {
    match s
    case OpenatExit(t, ret, time, reserved) =>
      (match OpenSlot(cfg, before, t)
       case None => None
       case Some(j) =>
         if !reserved then None
         else Some(Openat(OpenatEvent(t.pid, t.tgid, time, Wrap(time - before[j].time), ret,
                                      before[j].comm, before[j].name.value))))
    case ConnectExit(t, comm, ret, time, reserved) =>
      (match ConnectSlot(before, t.tgid)
       case None => None
       case Some(j) =>
         if comm in cfg.ignored || !Tracked(cfg, before, comm, t.tgid) || !reserved then None
         else
           var a := before[j].sockaddr.value;
           Some(Connect(ConnectEvent(t.tgid, time, Wrap(time - before[j].time), ret,
                                     a.family, Swap16(a.port), a.addr))))
    case Deliver(t, comm, sig, stackID, time, reserved) =>
      if !Reported(cfg, before, s) || !reserved then None
      else
        (match Uses(cfg, before, s)
         case None => Some(Signal(SignalEvent(t.pid, t.tgid, sig, time, 0, 0, stackID, comm.value)))
         case Some(j) =>
           Some(Signal(SignalEvent(t.pid, t.tgid, sig, time, before[j].addr, before[j].code,
                                   stackID, comm.value))))
    case ExitTask(t, ppid, comm, groupDead, raw, startTime, time, reserved, _) =>
      if comm.None? || !Tracked(cfg, before, comm.value, t.pid) || groupDead == 0 || !reserved then None
      else
        Some(Exit(ExitEvent(t.pid, t.tgid, ppid, startTime, time, (raw / 0x100) % 0x100, raw % 0x80,
                            groupDead, SignalInfo(0, 0), comm.value)))
    case _ => None
  }

  /** What one submission leaves in the ring: the members the probe fills in and the
      bytes it does not. */
  datatype Submission = Submission(record: Record, padding: Padding)

  function PaddingOf(s: Step): Padding {
    if s.ExitTask? then s.padding else NO_PADDING
  }

  /** A record together with the step of the run that submitted it. */
  datatype Emission = Emission(at: nat, sub: Submission)

  function Emitted(cfg: Config, tr: Run): (es: seq<Emission>)
    ensures forall k :: 0 <= k < |es| ==> es[k].at < |tr|
  {
    if tr == [] then []
    else
      var before, s := tr[..|tr| - 1], tr[|tr| - 1];
      match Submits(cfg, before, s)
      case None => Emitted(cfg, before)
      case Some(r) => Emitted(cfg, before) + [Emission(|before|, Submission(r, PaddingOf(s)))]
  }

  function Submissions(es: seq<Emission>): seq<Submission> {
    seq(|es|, i requires 0 <= i < |es| => es[i].sub)
  }

  /** The bytes the reader of the ring gets. */
  function Samples(subs: seq<Submission>): seq<Bytes> {
    seq(|subs|, i requires 0 <= i < |subs| => Encode(subs[i].record, subs[i].padding))
  }

  /** Every emission is what its step submits on the run before it; emissions are in the
      order of their steps. */
  lemma {:induction false} EmittedMeaning(cfg: Config, tr: Run)
    ensures forall k :: 0 <= k < |Emitted(cfg, tr)| ==>
              var e := Emitted(cfg, tr)[k];
              Submits(cfg, tr[..e.at], tr[e.at]) == Some(e.sub.record)
    ensures forall j, k :: 0 <= j < k < |Emitted(cfg, tr)| ==>
              Emitted(cfg, tr)[j].at < Emitted(cfg, tr)[k].at
  {
    if tr != [] {
      var before := tr[..|tr| - 1];
      var es, es' := Emitted(cfg, before), Emitted(cfg, tr);
      EmittedMeaning(cfg, before);
      assert es <= es' && |es'| <= |es| + 1;
      forall k | 0 <= k < |es'|
        ensures Submits(cfg, tr[..es'[k].at], tr[es'[k].at]) == Some(es'[k].sub.record)
      {
        if k < |es| {
          assert es'[k] == es[k] && before[..es[k].at] == tr[..es[k].at];
        }
      }
    }
  }

  /** Nothing submitted is missing: every step that submits a record has its emission. */
  lemma {:induction false} EmittedComplete(cfg: Config, tr: Run, at: nat) returns (k: nat)
    requires at < |tr| && Submits(cfg, tr[..at], tr[at]).Some?
    ensures k < |Emitted(cfg, tr)| && Emitted(cfg, tr)[k].at == at
    decreases |tr|
  {
    var n := |tr| - 1;
    if at == n {
      k := |Emitted(cfg, tr[..n])|;
    } else {
      assert tr[..n][..at] == tr[..at];
      k := EmittedComplete(cfg, tr[..n], at);
    }
  }

  /** Step i of the run put a record into the ring. */
  ghost predicate EmittedAt(cfg: Config, tr: Run, i: nat) {
    exists k :: 0 <= k < |Emitted(cfg, tr)| && Emitted(cfg, tr)[k].at == i
  }

  lemma EmittedAtIff(cfg: Config, tr: Run, i: nat)
    requires i < |tr|
    ensures EmittedAt(cfg, tr, i) <==> Submits(cfg, tr[..i], tr[i]).Some?
  {
    EmittedMeaning(cfg, tr);
    if Submits(cfg, tr[..i], tr[i]).Some? {
      var k := EmittedComplete(cfg, tr, i);
    }
  }

  /** Only openat and connect exits, deliveries and exits of threads ever do. */
  lemma SilentSteps(cfg: Config, tr: Run, i: nat)
    requires i < |tr| && EmittedAt(cfg, tr, i)
    ensures tr[i].OpenatExit? || tr[i].ConnectExit? || tr[i].Deliver? || tr[i].ExitTask?
  {
    EmittedAtIff(cfg, tr, i);
  }

  /** Appending a step: how every look-back moves. */
  lemma Advance(cfg: Config, tr: Run, s: Step)
    ensures forall t :: OpenSlot(cfg, tr + [s], t) ==
                        (if OpenStored(cfg, tr, s) && s.task == t then Some(|tr|)
                         else if s.OpenatExit? && s.task == t then None else OpenSlot(cfg, tr, t))
    ensures forall g :: ConnectSlot(tr + [s], g) ==
                        (if ConnectStored(s) && s.task.tgid == g then Some(|tr|)
                         else if s.ConnectExit? && s.task.tgid == g then None else ConnectSlot(tr, g))
    ensures forall g :: FaultSlot(cfg, tr + [s], g) ==
                        (if FaultStored(cfg, tr, s) && s.task.tgid == g then Some(|tr|)
                         else if Uses(cfg, tr, s).Some? && s.task.tgid == g then None
                         else FaultSlot(cfg, tr, g))
    ensures forall p :: Link(cfg, tr + [s], p) ==
                        (if ForkStored(cfg, tr, s) && s.child == p then Some(|tr|) else Link(cfg, tr, p))
    ensures Emitted(cfg, tr + [s]) ==
      match Submits(cfg, tr, s)
      case None => Emitted(cfg, tr)
      case Some(r) => Emitted(cfg, tr) + [Emission(|tr|, Submission(r, PaddingOf(s)))]
  {
    assert (tr + [s])[..|tr|] == tr;
  }
}
