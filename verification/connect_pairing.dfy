// connect_start is keyed by process, not by thread: what that guarantees and what it
// does not.

module ConnectPairing {
  import opened Types
  import opened Trace

  ghost predicate IsLatestConnect(tr: Run, g: u32, j: nat) {
    && j < |tr|
    && ConnectStored(tr[j]) && tr[j].task.tgid == g
    && forall k :: j < k < |tr| ==> !ClosesConnect(tr[k], g)
  }

  predicate ClosesConnect(s: Step, g: u32) {
    (s.ConnectExit? || ConnectStored(s)) && s.task.tgid == g
  }

  /** connect_start remembers enter j of a process exactly while j is its latest stored
      IPv4 enter and no thread of the process has left a connect since. */
  lemma {:induction false} ConnectSlotIff(tr: Run, g: u32, j: nat)
    ensures ConnectSlot(tr, g) == Some(j) <==> IsLatestConnect(tr, g, j)
  {
    if tr != [] {
      var n := |tr| - 1;
      ConnectSlotIff(tr[..n], g, j);
      if ClosesConnect(tr[n], g) {
        if j < n { assert !IsLatestConnect(tr, g, j); }
      } else if j < n {
        assert IsLatestConnect(tr, g, j) <==> IsLatestConnect(tr[..n], g, j);
      }
    }
  }

  /** The thread entered a connect at step j and has not left it by the end of the run. */
  ghost predicate InsideSince(tr: Run, t: Task, j: nat) {
    && j < |tr| && tr[j].ConnectEnter? && tr[j].task == t
    && forall k :: j < k < |tr| ==> !(tr[k].ConnectExit? && tr[k].task == t)
  }

  /** In every interleaving, an entry means that the thread that stored it is still
      inside that connect. */
  lemma EntryMeansInside(tr: Run, g: u32)
    requires ConnectSlot(tr, g).Some?
    ensures var j := ConnectSlot(tr, g).value;
      tr[j].task.tgid == g && InsideSince(tr, tr[j].task, j)
  {
    ConnectSlotIff(tr, g, ConnectSlot(tr, g).value);
    var j := ConnectSlot(tr, g).value;
    forall k | j < k < |tr| ensures !(tr[k].ConnectExit? && tr[k].task == tr[j].task) {
      assert !ClosesConnect(tr[k], g);
    }
  }

  ghost predicate IsConnect(es: seq<Emission>, k: nat) {
    k < |es| && es[k].sub.record.Connect?
  }

  /** The enter a connect event is built from. */
  ghost function SourceOf(cfg: Config, tr: Run, k: nat): (j: nat)
    requires IsConnect(Emitted(cfg, tr), k)
    ensures var i := Emitted(cfg, tr)[k].at;
      && i < |tr| && tr[i].ConnectExit?
      && ConnectSlot(tr[..i], tr[i].task.tgid) == Some(j) && j < i
  {
    EmittedMeaning(cfg, tr);
    var i := Emitted(cfg, tr)[k].at;
    ConnectSlot(tr[..i], tr[i].task.tgid).value
  }

  /** Every connect event is IPv4, names the process of the exiting thread and carries
      address, port and enter time of that process's latest stored IPv4 enter. */
  lemma ConnectEventPairs(cfg: Config, tr: Run, k: nat)
    requires IsConnect(Emitted(cfg, tr), k)
    ensures var e, i, j := Emitted(cfg, tr)[k].sub.record.connect, Emitted(cfg, tr)[k].at, SourceOf(cfg, tr, k);
      && IsLatestConnect(tr[..i], tr[i].task.tgid, j)
      && e.pid == tr[i].task.tgid == tr[j].task.tgid
      && e.family == AF_INET == tr[j].sockaddr.value.family
      && e.daddr == tr[j].sockaddr.value.addr && Swap16(e.dport) == tr[j].sockaddr.value.port
      && e.ret == tr[i].ret && e.timestamp == tr[i].time
      && (Monotone(tr) ==> e.latency == tr[i].time - tr[j].time)
  {
    hide Emitted, ConnectSlot, Link, IsLatestConnect;
    EmittedMeaning(cfg, tr);
    var i, j := Emitted(cfg, tr)[k].at, SourceOf(cfg, tr, k);
    ConnectSlotIff(tr[..i], tr[i].task.tgid, j);
  }

  /** A stored enter feeds at most one event. */
  lemma ConnectAtMostOnce(cfg: Config, tr: Run, k: nat, k': nat)
    requires k < k' && IsConnect(Emitted(cfg, tr), k) && IsConnect(Emitted(cfg, tr), k')
    ensures SourceOf(cfg, tr, k) != SourceOf(cfg, tr, k')
  {
    EmittedMeaning(cfg, tr);
    var i, i' := Emitted(cfg, tr)[k].at, Emitted(cfg, tr)[k'].at;
    var j, j' := SourceOf(cfg, tr, k), SourceOf(cfg, tr, k');
    ConnectSlotIff(tr[..i], tr[i].task.tgid, j);
    ConnectSlotIff(tr[..i'], tr[i'].task.tgid, j');
    if j == j' { assert ClosesConnect(tr[..i'][i], tr[i'].task.tgid); }
  }

  // ----- is it the exiting thread's own call?

  /** Step j entered the connect call that step i leaves. */
  ghost predicate OwnEnter(tr: Run, i: nat, j: nat) {
    && j < i < |tr|
    && tr[i].ConnectExit? && tr[j].ConnectEnter? && tr[j].task == tr[i].task
    && forall k :: j < k < i ==> !((tr[k].ConnectEnter? || tr[k].ConnectExit?) && tr[k].task == tr[i].task)
  }

  /** What an exit finds is the exiting call's own exactly when that call's enter was
      stored and until the exit no other connect of the process was stored or left.
      Reported or not: where this fails, the call is either lost or another's is shown. */
  lemma OwnConnectIff(tr: Run, i: nat, j: nat)
    requires OwnEnter(tr, i, j)
    ensures ConnectSlot(tr[..i], tr[i].task.tgid) == Some(j) <==>
      && ConnectStored(tr[j])
      && forall m :: j < m < i ==> !ClosesConnect(tr[m], tr[i].task.tgid)
  {
    ConnectSlotIff(tr[..i], tr[i].task.tgid, j);
    if IsLatestConnect(tr[..i], tr[i].task.tgid, j) {
      forall m | j < m < i ensures !ClosesConnect(tr[m], tr[i].task.tgid) {
        assert tr[..i][m] == tr[m];
      }
    }
  }

  /** The exit of a call submits the record of that very call. */
  ghost predicate ReportsOwn(cfg: Config, tr: Run, i: nat, j: nat)
    requires OwnEnter(tr, i, j)
  {
    ConnectSlot(tr[..i], tr[i].task.tgid) == Some(j) && Submits(cfg, tr[..i], tr[i]).Some?
  }

  /** A call is reported, as itself, exactly when its enter was stored, no other connect of
      the process was stored or left meanwhile, the exiting thread is tracked and not
      ignored, and the ring has room. */
  lemma OwnReportIff(cfg: Config, tr: Run, i: nat, j: nat)
    requires OwnEnter(tr, i, j)
    ensures ReportsOwn(cfg, tr, i, j) <==>
      && ConnectStored(tr[j])
      && (forall m :: j < m < i ==> !ClosesConnect(tr[m], tr[i].task.tgid))
      && tr[i].comm !in cfg.ignored
      && Tracked(cfg, tr[..i], tr[i].comm, tr[i].task.tgid)
      && tr[i].reserved
  {
    OwnConnectIff(tr, i, j);
  }

  /** A connect exit submits nothing at all exactly when no connect of the process is
      pending or its thread is filtered or the ring is full. */
  lemma LostIff(cfg: Config, tr: Run, i: nat)
    requires i < |tr| && tr[i].ConnectExit?
    ensures Submits(cfg, tr[..i], tr[i]) == None <==>
      || (forall j: nat :: !IsLatestConnect(tr[..i], tr[i].task.tgid, j))
      || tr[i].comm in cfg.ignored
      || !Tracked(cfg, tr[..i], tr[i].comm, tr[i].task.tgid)
      || !tr[i].reserved
  {
    hide IsLatestConnect;
    var g := tr[i].task.tgid;
    forall j: nat ensures ConnectSlot(tr[..i], g) == Some(j) <==> IsLatestConnect(tr[..i], g, j) {
      ConnectSlotIff(tr[..i], g, j);
    }
  }

  /** A connect exit puts its event into the ring exactly when a stored IPv4 connect of the
      process is pending, its thread is tracked and not ignored, and the ring has room. */
  lemma ConnectReportedIff(cfg: Config, tr: Run, i: nat)
    requires i < |tr| && tr[i].ConnectExit?
    ensures EmittedAt(cfg, tr, i) <==>
      && (exists j: nat :: IsLatestConnect(tr[..i], tr[i].task.tgid, j))
      && tr[i].comm !in cfg.ignored
      && (tr[i].comm in cfg.allowed || Link(cfg, tr[..i], tr[i].task.tgid).Some?)
      && tr[i].reserved
  {
    hide IsLatestConnect, EmittedAt;
    EmittedAtIff(cfg, tr, i);
    LostIff(cfg, tr, i);
  }

  /** Among the events that are emitted: one is about the exiting call exactly when that
      call's own enter was stored and no thread of the process stored another before the
      exit. */
  lemma OwnEventIff(cfg: Config, tr: Run, k: nat, j: nat)
    requires IsConnect(Emitted(cfg, tr), k) && OwnEnter(tr, Emitted(cfg, tr)[k].at, j)
    ensures var i := Emitted(cfg, tr)[k].at;
      SourceOf(cfg, tr, k) == j <==>
      && ConnectStored(tr[j])
      && forall m :: j < m < i ==> !(ConnectStored(tr[m]) && tr[m].task.tgid == tr[i].task.tgid)
  {
    var i, s := Emitted(cfg, tr)[k].at, SourceOf(cfg, tr, k);
    ConnectSlotIff(tr[..i], tr[i].task.tgid, s);
    if s < j && ConnectStored(tr[j]) {
      assert ClosesConnect(tr[..i][j], tr[i].task.tgid);
    }
    if s == j {
      forall m | j < m < i ensures !(ConnectStored(tr[m]) && tr[m].task.tgid == tr[i].task.tgid) {
        assert !ClosesConnect(tr[..i][m], tr[i].task.tgid);
      }
    }
  }

  /** At most one thread of a process is in connect at a time: after a thread enters, the
      next connect step of its process is that thread's exit. */
  ghost predicate OneAtATime(tr: Run) {
    forall a, b :: 0 <= a < b < |tr| && tr[a].ConnectEnter? && Meets(tr[a].task, tr[b]) ==>
      exists e :: a < e < b && tr[e].ConnectExit? && tr[e].task == tr[a].task
  }

  /** A connect step of t's process other than t's own exit. */
  predicate Meets(t: Task, s: Step) {
    && (s.ConnectEnter? || s.ConnectExit?)
    && s.task.tgid == t.tgid
    && !(s.ConnectExit? && s.task == t)
  }

  /** Then every event is about the exiting thread's own call. */
  lemma OneAtATimeIsOwn(cfg: Config, tr: Run, k: nat)
    requires IsConnect(Emitted(cfg, tr), k) && OneAtATime(tr)
    ensures OwnEnter(tr, Emitted(cfg, tr)[k].at, SourceOf(cfg, tr, k))
  {
    hide Emitted, ConnectSlot;
    var i, s := Emitted(cfg, tr)[k].at, SourceOf(cfg, tr, k);
    ConnectSlotIff(tr[..i], tr[i].task.tgid, s);
    forall e | s < e < i ensures !(tr[e].ConnectExit? && tr[e].task.tgid == tr[i].task.tgid) {
      assert !ClosesConnect(tr[..i][e], tr[i].task.tgid);
    }
    forall b | s < b <= i ensures !Meets(tr[s].task, tr[b]) {}
    assert tr[s].task == tr[i].task;
  }

  /** With two threads inside at once the first exit reports the other thread's
      destination, and the second exit reports nothing. */
  lemma CrossedConnects(cfg: Config, g: u32, p: u32, q: u32, comm: Comm, a: SockAddr, b: SockAddr)
    requires p != q && comm in cfg.allowed && comm !in cfg.ignored
    requires a.family == AF_INET == b.family
    ensures var tr := [
        ConnectEnter(Task(g, p), Some(a), 1, true),
        ConnectEnter(Task(g, q), Some(b), 2, true),
        ConnectExit(Task(g, p), comm, 0, 5, true),
        ConnectExit(Task(g, q), comm, 0, 6, true)];
      && OwnEnter(tr, 2, 0) && OwnEnter(tr, 3, 1)
      && Submits(cfg, tr[..2], tr[2]) ==
         Some(Connect(ConnectEvent(g, 5, 3, 0, AF_INET, Swap16(b.port), b.addr)))
      && Submits(cfg, tr[..3], tr[3]) == None
  {
    var tr := [
      ConnectEnter(Task(g, p), Some(a), 1, true),
      ConnectEnter(Task(g, q), Some(b), 2, true),
      ConnectExit(Task(g, p), comm, 0, 5, true),
      ConnectExit(Task(g, q), comm, 0, 6, true)];
    ConnectSlotIff(tr[..2], g, 1);
    assert IsLatestConnect(tr[..2], g, 1);
  }
}
