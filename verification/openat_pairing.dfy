// Every openat event pairs an exit with one stored enter of the same thread.

module OpenatPairing {
  import opened Types
  import opened Trace

  /** Between j and the end of the run the thread neither left an openat nor stored
      another enter. */
  ghost predicate IsLatestOpen(cfg: Config, tr: Run, t: Task, j: nat) {
    && j < |tr|
    && OpenStored(cfg, tr[..j], tr[j]) && tr[j].task == t
    && forall k :: j < k < |tr| ==> !ClosesOpen(cfg, tr, t, k)
  }

  ghost predicate ClosesOpen(cfg: Config, tr: Run, t: Task, k: nat)
    requires k < |tr|
  {
    (tr[k].OpenatExit? || OpenStored(cfg, tr[..k], tr[k])) && tr[k].task == t
  }

  /** openat_start remembers enter j of a thread exactly while j is its latest stored
      enter and the thread has not left an openat since. */
  lemma {:induction false} OpenSlotIff(cfg: Config, tr: Run, t: Task, j: nat)
    ensures OpenSlot(cfg, tr, t) == Some(j) <==> IsLatestOpen(cfg, tr, t, j)
  {
    if tr != [] {
      var n := |tr| - 1;
      var before := tr[..n];
      OpenSlotIff(cfg, before, t, j);
      forall k | 0 <= k <= n ensures before[..k] == tr[..k] {}
      forall k | 0 <= k < n ensures ClosesOpen(cfg, before, t, k) == ClosesOpen(cfg, tr, t, k) {}
      if ClosesOpen(cfg, tr, t, n) {
        if j < n { assert !IsLatestOpen(cfg, tr, t, j); }
      } else if j < n {
        assert IsLatestOpen(cfg, tr, t, j) <==> IsLatestOpen(cfg, before, t, j);
      }
    }
  }

  ghost predicate IsOpenat(es: seq<Emission>, k: nat) {
    k < |es| && es[k].sub.record.Openat?
  }

  /** The enter an openat event is built from. */
  ghost function SourceOf(cfg: Config, tr: Run, k: nat): (j: nat)
    requires IsOpenat(Emitted(cfg, tr), k)
    ensures var i := Emitted(cfg, tr)[k].at;
      && i < |tr| && tr[i].OpenatExit?
      && OpenSlot(cfg, tr[..i], tr[i].task) == Some(j) && j < i
  {
    EmittedMeaning(cfg, tr);
    var i := Emitted(cfg, tr)[k].at;
    OpenSlot(cfg, tr[..i], tr[i].task).value
  }

  /** In every interleaving an openat event carries the file name, command and enter time
      of its thread's most recent stored enter, with no openat exit of the thread in
      between; under a monotone clock the latency is the elapsed time, never wrapped. */
  lemma OpenatEventPairs(cfg: Config, tr: Run, k: nat)
    requires IsOpenat(Emitted(cfg, tr), k)
    ensures var e, i, j := Emitted(cfg, tr)[k].sub.record.openat, Emitted(cfg, tr)[k].at, SourceOf(cfg, tr, k);
      && IsLatestOpen(cfg, tr[..i], tr[i].task, j)
      && Task(e.tgid, e.pid) == tr[i].task == tr[j].task
      && Some(e.filename) == tr[j].name && e.comm == tr[j].comm
      && e.ret == tr[i].ret && e.timestampNs == tr[i].time
      && (Monotone(tr) ==> e.latencyNs == tr[i].time - tr[j].time)
  {
    hide Emitted, OpenSlot, Link, IsLatestOpen;
    EmittedMeaning(cfg, tr);
    var i, j := Emitted(cfg, tr)[k].at, SourceOf(cfg, tr, k);
    OpenSlotIff(cfg, tr[..i], tr[i].task, j);
  }

  /** A stored enter feeds at most one event. */
  lemma OpenatAtMostOnce(cfg: Config, tr: Run, k: nat, k': nat)
    requires k < k' && IsOpenat(Emitted(cfg, tr), k) && IsOpenat(Emitted(cfg, tr), k')
    ensures SourceOf(cfg, tr, k) != SourceOf(cfg, tr, k')
  {
    EmittedMeaning(cfg, tr);
    var i, i' := Emitted(cfg, tr)[k].at, Emitted(cfg, tr)[k'].at;
    var j, j' := SourceOf(cfg, tr, k), SourceOf(cfg, tr, k');
    OpenSlotIff(cfg, tr[..i], tr[i].task, j);
    OpenSlotIff(cfg, tr[..i'], tr[i'].task, j');
    if j == j' { assert ClosesOpen(cfg, tr[..i'], tr[i'].task, i); }
  }

  /** An openat exit puts its event into the ring exactly when the ring has room and a
      stored enter of the thread is pending, whatever the call returned. */
  lemma OpenatReportedIff(cfg: Config, tr: Run, i: nat)
    requires i < |tr| && tr[i].OpenatExit?
    ensures EmittedAt(cfg, tr, i) <==>
      tr[i].reserved && exists j: nat :: IsLatestOpen(cfg, tr[..i], tr[i].task, j)
  {
    hide IsLatestOpen, EmittedAt;
    EmittedAtIff(cfg, tr, i);
    forall j: nat ensures OpenSlot(cfg, tr[..i], tr[i].task) == Some(j) <==> IsLatestOpen(cfg, tr[..i], tr[i].task, j) {
      OpenSlotIff(cfg, tr[..i], tr[i].task, j);
    }
  }

  /** A stored enter: no useless path, no ignored command, an allowed one or a process in
      the tree, a readable name and room in the map. */
  lemma OpenStoredIff(cfg: Config, tr: Run, i: nat)
    requires i < |tr|
    ensures OpenStored(cfg, tr[..i], tr[i]) <==>
      && tr[i].OpenEnter? && tr[i].updated && tr[i].name.Some? && tr[i].probe.Some?
      && (var path := tr[i].probe.value;
          && (forall rest :: path != Ascii("/dev") + rest)
          && (forall rest :: path != Ascii("/proc") + rest)
          && (forall rest :: path != Ascii("/sys") + rest)
          && (forall front :: path != front + Ascii(".gitconfig")))
      && tr[i].comm !in cfg.ignored
      && (tr[i].comm in cfg.allowed || Link(cfg, tr[..i], tr[i].task.pid).Some?)
  {
    hide Ascii, Noisy;
    if tr[i].OpenEnter? { NoisyPaths(tr[i].probe); }
  }

  // ----- is it the very call that is exiting?

  /** Step j entered the openat call that step i leaves: the thread does nothing with the
      open hooks in between. */
  ghost predicate OwnEnter(tr: Run, i: nat, j: nat) {
    && j < i < |tr|
    && tr[i].OpenatExit? && tr[j].OpenEnter? && tr[j].via == ViaOpenat && tr[j].task == tr[i].task
    && forall k :: j < k < i ==> !((tr[k].OpenEnter? || tr[k].OpenatExit?) && tr[k].task == tr[i].task)
  }

  /** With open and openat2 in the run too, what the exit probe finds belongs to the
      exiting call exactly when that call's own enter passed every filter. */
  lemma OwnCallIff(cfg: Config, tr: Run, i: nat, j: nat)
    requires OwnEnter(tr, i, j)
    ensures OpenSlot(cfg, tr[..i], tr[i].task) == Some(j) <==> OpenStored(cfg, tr[..j], tr[j])
  {
    OpenSlotIff(cfg, tr[..i], tr[i].task, j);
    assert tr[..i][..j] == tr[..j];
  }

  /** A run without open and openat2, whose exits are not hooked. */
  ghost predicate OnlyOpenat(tr: Run) {
    forall i :: 0 <= i < |tr| && tr[i].OpenEnter? ==> tr[i].via == ViaOpenat
  }

  /** A thread leaves an openat before it enters the next. */
  ghost predicate OneInFlight(tr: Run) {
    forall a, b :: 0 <= a < b < |tr| && EntersOpenat(tr[a]) && EntersOpenat(tr[b]) && tr[a].task == tr[b].task ==>
      exists e :: a < e < b && tr[e].OpenatExit? && tr[e].task == tr[a].task
  }

  predicate EntersOpenat(s: Step) {
    s.OpenEnter? && s.via == ViaOpenat
  }

  /** Without open and openat2 every event is about the call that is exiting, filtered
      enters or not. */
  lemma OnlyOpenatIsOwn(cfg: Config, tr: Run, k: nat)
    requires IsOpenat(Emitted(cfg, tr), k) && OnlyOpenat(tr) && OneInFlight(tr)
    ensures OwnEnter(tr, Emitted(cfg, tr)[k].at, SourceOf(cfg, tr, k))
  {
    hide Emitted, OpenSlot;
    var i, s := Emitted(cfg, tr)[k].at, SourceOf(cfg, tr, k);
    OpenSlotIff(cfg, tr[..i], tr[i].task, s);
    forall e | s < e < i ensures !(tr[e].OpenatExit? && tr[e].task == tr[i].task) {
      assert !ClosesOpen(cfg, tr[..i], tr[i].task, e);
    }
    assert EntersOpenat(tr[s]);
    forall m | s < m < i ensures !(tr[m].OpenEnter? && tr[m].task == tr[i].task) {
      assert tr[m].OpenEnter? ==> EntersOpenat(tr[m]);
    }
  }

  /** Not so with open in the run: its enters have no exit hook, so an openat call that
      was itself filtered out reports the file of an earlier open. */
  lemma StaleOpen(cfg: Config, t: Task, comm: Comm, earlier: Filename, asked: Filename)
    requires comm in cfg.allowed && comm !in cfg.ignored
    ensures var tr := [
        OpenEnter(t, ViaOpen, comm, Some([0x61]), Some(earlier), 1, true),
        OpenEnter(t, ViaOpenat, comm, Some(DEV), Some(asked), 2, true),
        OpenatExit(t, 3, 5, true)];
      && OwnEnter(tr, 2, 1)
      && Submits(cfg, tr[..2], tr[2]) == Some(Openat(OpenatEvent(t.pid, t.tgid, 5, 4, 3, comm, earlier)))
  {
    var tr := [
      OpenEnter(t, ViaOpen, comm, Some([0x61]), Some(earlier), 1, true),
      OpenEnter(t, ViaOpenat, comm, Some(DEV), Some(asked), 2, true),
      OpenatExit(t, 3, 5, true)];
    assert !Noisy(tr[0].probe) && Noisy(tr[1].probe);
    assert tr[..2][..1] == tr[..1];
    OpenSlotIff(cfg, tr[..2], t, 0);
    assert IsLatestOpen(cfg, tr[..2], t, 0);
  }
}
