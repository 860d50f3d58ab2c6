// From force_sig_fault to the signal record: which capture a delivery reports.

module FaultHandoff {
  import opened Types
  import opened Trace

  /** Capture j of the process is still to be reported: no later capture replaced it and
      no reported delivery of its signal has taken it. */
  ghost predicate IsPending(cfg: Config, tr: Run, g: u32, j: nat) {
    && j < |tr|
    && FaultStored(cfg, tr[..j], tr[j]) && tr[j].task.tgid == g
    && forall k :: j < k < |tr| ==> !ClosesFault(cfg, tr, g, tr[j].sig, k)
  }

  ghost predicate ClosesFault(cfg: Config, tr: Run, g: u32, sig: int, k: nat)
    requires k < |tr|
  {
    && (FaultStored(cfg, tr[..k], tr[k]) || (Reported(cfg, tr[..k], tr[k]) && tr[k].signal == sig))
    && tr[k].task.tgid == g
  }

  lemma {:induction false} FaultSlotIff(cfg: Config, tr: Run, g: u32, j: nat)
    ensures FaultSlot(cfg, tr, g) == Some(j) <==> IsPending(cfg, tr, g, j)
  {
    if tr != [] {
      var n := |tr| - 1;
      var before := tr[..n];
      FaultSlotIff(cfg, before, g, j);
      forall k | 0 <= k <= n ensures before[..k] == tr[..k] {}
      if j < n && tr[j].Fault? {
        forall k | j < k < n
          ensures ClosesFault(cfg, before, g, tr[j].sig, k) == ClosesFault(cfg, tr, g, tr[j].sig, k) {}
        assert IsPending(cfg, tr, g, j) <==>
               IsPending(cfg, before, g, j) && !ClosesFault(cfg, tr, g, tr[j].sig, n);
      }
    }
  }

  ghost predicate IsSignal(es: seq<Emission>, k: nat) {
    k < |es| && es[k].sub.record.Signal?
  }

  /** The capture behind a signal event, if it has one. */
  ghost function CaptureOf(cfg: Config, tr: Run, k: nat): (r: Option<nat>)
    requires IsSignal(Emitted(cfg, tr), k)
  {
    var i := Emitted(cfg, tr)[k].at;
    Uses(cfg, tr[..i], tr[i])
  }

  /** A signal event reports the process's pending capture when its signal matches, and
      address 0 otherwise. In particular a nonzero address is that of the latest capture
      of the process, taken for the same signal. */
  lemma SignalEventPairs(cfg: Config, tr: Run, k: nat)
    requires IsSignal(Emitted(cfg, tr), k)
    ensures var e, i := Emitted(cfg, tr)[k].sub.record.sig, Emitted(cfg, tr)[k].at;
      && tr[i].Deliver? && tr[i].task == Task(e.tgid, e.pid) && tr[i].signal == e.signal
      && tr[i].time == e.timestampNs && tr[i].stackID == e.stackID && tr[i].newComm == Some(e.comm)
      && (match CaptureOf(cfg, tr, k)
          case Some(j) =>
            && IsPending(cfg, tr[..i], e.tgid, j) && tr[j].sig == e.signal
            && e.faultAddr == tr[j].addr && e.siCode == tr[j].code
          case None =>
            && e.faultAddr == 0 && e.siCode == 0
            && forall j: nat :: IsPending(cfg, tr[..i], e.tgid, j) ==> tr[j].sig != e.signal)
  {
    EmittedMeaning(cfg, tr);
    var e, i := Emitted(cfg, tr)[k].sub.record.sig, Emitted(cfg, tr)[k].at;
    match CaptureOf(cfg, tr, k) {
      case Some(j) => FaultSlotIff(cfg, tr[..i], e.tgid, j);
      case None =>
        forall j: nat | IsPending(cfg, tr[..i], e.tgid, j) ensures tr[j].sig != e.signal {
          FaultSlotIff(cfg, tr[..i], e.tgid, j);
        }
    }
  }

  /** A delivery puts its event into the ring exactly when the signal is a crash signal, the
      thread's name is readable and allowed or its process in the tree, and the ring has
      room. */
  lemma SignalReportedIff(cfg: Config, tr: Run, i: nat)
    requires i < |tr| && tr[i].Deliver?
    ensures EmittedAt(cfg, tr, i) <==>
      && tr[i].signal in {4, 6, 7, 8, 11} && tr[i].newComm.Some?
      && (tr[i].newComm.value in cfg.allowed || Link(cfg, tr[..i], tr[i].task.tgid).Some?)
      && tr[i].reserved
  {
    EmittedAtIff(cfg, tr, i);
  }

  /** An exit puts its record into the ring exactly when the whole group is dead, the
      thread's name is readable and allowed or the thread in the tree, and the ring has
      room. */
  lemma ExitReportedIff(cfg: Config, tr: Run, i: nat)
    requires i < |tr| && tr[i].ExitTask?
    ensures EmittedAt(cfg, tr, i) <==>
      && tr[i].groupDead != 0 && tr[i].newComm.Some?
      && (tr[i].newComm.value in cfg.allowed || Link(cfg, tr[..i], tr[i].task.pid).Some?)
      && tr[i].reserved
  {
    EmittedAtIff(cfg, tr, i);
  }

  /** A capture is stored for the two memory faults of a tracked process, if the map has
      room. */
  lemma FaultStoredIff(cfg: Config, tr: Run, i: nat)
    requires i < |tr|
    ensures FaultStored(cfg, tr[..i], tr[i]) <==>
      && tr[i].Fault? && tr[i].sig in {7, 11} && tr[i].updated
      && (tr[i].comm in cfg.allowed || Link(cfg, tr[..i], tr[i].task.tgid).Some?)
  {
  }

  /** Reported or not, two deliveries never take the same capture. */
  lemma CaptureUsedOnce(cfg: Config, tr: Run, i: nat, i': nat)
    requires i < i' < |tr|
    requires Uses(cfg, tr[..i], tr[i]).Some? && Uses(cfg, tr[..i'], tr[i']).Some?
    ensures Uses(cfg, tr[..i], tr[i]) != Uses(cfg, tr[..i'], tr[i'])
  {
    var j, j' := Uses(cfg, tr[..i], tr[i]).value, Uses(cfg, tr[..i'], tr[i']).value;
    FaultSlotIff(cfg, tr[..i], tr[i].task.tgid, j);
    FaultSlotIff(cfg, tr[..i'], tr[i'].task.tgid, j');
    if j == j' {
      assert tr[..i'][..i] == tr[..i];
      assert ClosesFault(cfg, tr[..i'], tr[i'].task.tgid, tr[j].sig, i);
    }
  }

  /** Each capture feeds at most one signal event. */
  lemma CaptureAtMostOnce(cfg: Config, tr: Run, k: nat, k': nat)
    requires k < k' && IsSignal(Emitted(cfg, tr), k) && IsSignal(Emitted(cfg, tr), k')
    requires CaptureOf(cfg, tr, k).Some? && CaptureOf(cfg, tr, k').Some?
    ensures CaptureOf(cfg, tr, k) != CaptureOf(cfg, tr, k')
  {
    EmittedMeaning(cfg, tr);
    CaptureUsedOnce(cfg, tr, Emitted(cfg, tr)[k].at, Emitted(cfg, tr)[k'].at);
  }

  // ----- is it the delivered thread's own fault?

  /** Fault j is the fault whose signal step i delivers: the same thread's latest of that
      number. */
  ghost predicate OwnFault(cfg: Config, tr: Run, i: nat, j: nat) {
    && j < i < |tr|
    && tr[j].Fault? && Reported(cfg, tr[..i], tr[i])
    && tr[j].task == tr[i].task && tr[j].sig == tr[i].signal
    && forall m :: j < m < i ==> !(tr[m].Fault? && tr[m].task == tr[i].task && tr[m].sig == tr[i].signal)
  }

  /** pending_signals is keyed by process too. A reported delivery takes the address of its
      own thread's fault exactly when that capture was stored and meanwhile no thread of
      the process stored another or had the same signal reported. */
  lemma OwnFaultIff(cfg: Config, tr: Run, i: nat, j: nat)
    requires OwnFault(cfg, tr, i, j)
    ensures Uses(cfg, tr[..i], tr[i]) == Some(j) <==>
      && FaultStored(cfg, tr[..j], tr[j])
      && forall m :: j < m < i ==> !ClosesFault(cfg, tr, tr[i].task.tgid, tr[i].signal, m)
  {
    var g := tr[i].task.tgid;
    FaultSlotIff(cfg, tr[..i], g, j);
    assert tr[..i][..j] == tr[..j];
    forall m | j < m < i
      ensures ClosesFault(cfg, tr[..i], g, tr[i].signal, m) == ClosesFault(cfg, tr, g, tr[i].signal, m)
    {
      assert tr[..i][..m] == tr[..m];
    }
  }

  /** With two threads faulting at once the first delivery reports the other thread's
      address, and the second reports address 0. */
  lemma CrossedFaults(cfg: Config, g: u32, p: u32, q: u32, comm: Comm, x: u64, y: u64)
    requires p != q && comm in cfg.allowed
    ensures var tr := [
        Fault(Task(g, p), comm, 11, 1, x, true),
        Fault(Task(g, q), comm, 11, 1, y, true),
        Deliver(Task(g, p), Some(comm), 11, 0, 5, true),
        Deliver(Task(g, q), Some(comm), 11, 0, 6, true)];
      && OwnFault(cfg, tr, 2, 0) && OwnFault(cfg, tr, 3, 1)
      && Submits(cfg, tr[..2], tr[2]) == Some(Signal(SignalEvent(p, g, 11, 5, y, 1, 0, comm)))
      && Submits(cfg, tr[..3], tr[3]) == Some(Signal(SignalEvent(q, g, 11, 6, 0, 0, 0, comm)))
  {
    var tr := [
      Fault(Task(g, p), comm, 11, 1, x, true),
      Fault(Task(g, q), comm, 11, 1, y, true),
      Deliver(Task(g, p), Some(comm), 11, 0, 5, true),
      Deliver(Task(g, q), Some(comm), 11, 0, 6, true)];
    assert FaultStored(cfg, tr[..1], tr[1]) && tr[..2][..1] == tr[..1];
    assert FaultSlot(cfg, tr[..2], g) == Some(1);
    assert tr[..3][..2] == tr[..2];
    assert Uses(cfg, tr[..2], tr[2]) == Some(1);
    assert FaultSlot(cfg, tr[..3], g) == None;
  }

  lemma StatusBits(status: byte, core: bool, sig: nat, rest: nat)
    requires sig < 0x80
    ensures var raw := rest * 0x1_0000 + status * 0x100 + (if core then 0x80 else 0) + sig;
      raw % 0x80 == sig && (raw / 0x100) % 0x100 == status
  {
    var raw := rest * 0x1_0000 + status * 0x100 + (if core then 0x80 else 0) + sig;
    assert raw == 0x80 * (rest * 0x200 + status * 2 + (if core then 1 else 0)) + sig;
    assert raw / 0x100 == 0x100 * rest + status;
  }

  /** An exit record is about a tracked process whose last thread is gone, and splits its
      wait status: exit status in the second byte, signal in the low seven bits, the core
      dump flag dropped. */
  lemma ExitDecodes(cfg: Config, tr: Run, k: nat, status: byte, core: bool, sig: nat, rest: nat)
    requires k < |Emitted(cfg, tr)| && Emitted(cfg, tr)[k].sub.record.Exit? && sig < 0x80
    ensures var e, at := Emitted(cfg, tr)[k].sub.record.exit, Emitted(cfg, tr)[k].at;
      && tr[at].ExitTask? && Task(e.tgid, e.pid) == tr[at].task && e.ppid == tr[at].ppid
      && tr[at].startTime == e.startTimeNs && tr[at].time == e.exitTimeNs && tr[at].newComm == Some(e.comm)
      && tr[at].groupDead == e.groupDead && e.groupDead != 0 && Tracked(cfg, tr[..at], e.comm, e.pid)
      && (tr[at].rawExit == rest * 0x1_0000 + status * 0x100 + (if core then 0x80 else 0) + sig ==>
            e.exitCode == status && e.signal == sig)
  {
    hide Emitted, Tracked;
    EmittedMeaning(cfg, tr);
    StatusBits(status, core, sig, rest);
  }

  /** An exit record never carries an address of its own. */
  lemma ExitCarriesNoAddress(cfg: Config, tr: Run, k: nat)
    requires k < |Emitted(cfg, tr)| && Emitted(cfg, tr)[k].sub.record.Exit?
    ensures Emitted(cfg, tr)[k].sub.record.exit.sigInfo == SignalInfo(0, 0)
  {
    EmittedMeaning(cfg, tr);
  }
}
