// Ancestry in child_root: which processes are recorded, and where their ppid links lead.

module ForkTree {
  import opened Types
  import opened Trace
  import opened Probes

  /** Ids are not reused: a child was in no earlier fork, as child or as parent. */
  ghost predicate Fresh(tr: Run) {
    forall i :: 0 <= i < |tr| && tr[i].Fork? ==>
      tr[i].child != tr[i].parent && !Seen(tr, i, tr[i].child)
  }

  ghost predicate Seen(tr: Run, n: nat, p: u32)
    requires n <= |tr|
  {
    exists k :: 0 <= k < n && tr[k].Fork? && (tr[k].child == p || tr[k].parent == p)
  }

  lemma FreshPrefix(tr: Run, n: nat)
    requires Fresh(tr) && n <= |tr|
    ensures Fresh(tr[..n])
  {
    forall i | 0 <= i < n && tr[i].Fork? ensures !Seen(tr[..n], i, tr[i].child) {
      assert !Seen(tr, i, tr[i].child);
    }
  }

  /** Without reuse a recorded link is never replaced. */
  lemma {:induction false} LinkStays(cfg: Config, tr: Run, n: nat, p: u32)
    requires Fresh(tr) && n <= |tr| && Link(cfg, tr[..n], p).Some?
    ensures Link(cfg, tr, p) == Link(cfg, tr[..n], p)
    decreases |tr|
  {
    if n == |tr| {
      assert tr[..n] == tr;
    } else {
      var m := |tr| - 1;
      FreshPrefix(tr, m);
      assert tr[..m][..n] == tr[..n];
      LinkStays(cfg, tr[..m], n, p);
    }
  }

  /** Step k records a fork that creates p. */
  ghost predicate Creates(cfg: Config, tr: Run, k: nat, p: u32)
    requires k < |tr|
  {
    ForkStored(cfg, tr[..k], tr[k]) && tr[k].child == p
  }

  /** A process's link is the fork that last created it. */
  lemma {:induction false} LinkIff(cfg: Config, tr: Run, p: u32, j: nat)
    ensures Link(cfg, tr, p) == Some(j) <==>
      && j < |tr| && Creates(cfg, tr, j, p)
      && forall k :: j < k < |tr| ==> !Creates(cfg, tr, k, p)
    ensures Link(cfg, tr, p).None? <==> forall k :: 0 <= k < |tr| ==> !Creates(cfg, tr, k, p)
  {
    if tr != [] {
      var n := |tr| - 1;
      var before := tr[..n];
      LinkIff(cfg, before, p, j);
      forall k | 0 <= k < n ensures Creates(cfg, before, k, p) == Creates(cfg, tr, k, p) {
        assert before[..k] == tr[..k];
      }
      var made := Creates(cfg, tr, n, p);
      assert Link(cfg, tr, p) == if made then Some(n) else Link(cfg, before, p);
    }
  }

  /** path leads from its first id along the links as they are now, the last of them (and
      only the last) made under an allowed name. */
  ghost predicate Leads(cfg: Config, tr: Run, path: seq<u32>) {
    && |path| >= 2
    && forall k :: 0 <= k < |path| - 1 ==> LinksTo(cfg, tr, path[k], path[k + 1], k == |path| - 2)
  }

  /** p's link is to q, and made under an allowed name exactly when `top`. */
  ghost predicate LinksTo(cfg: Config, tr: Run, p: u32, q: u32, top: bool) {
    var link := Link(cfg, tr, p);
    link.Some? && tr[link.value].parent == q && (tr[link.value].comm in cfg.allowed <==> top)
  }

  /** The path leads up, and each link already stood when the one below it was made: these
      are the very forks of the ancestry, and the path cannot run in a circle. */
  ghost predicate Climbs(cfg: Config, tr: Run, path: seq<u32>) {
    && Leads(cfg, tr, path)
    && forall k :: 0 <= k < |path| - 2 ==> IsOlder(cfg, tr, path[k + 1], path[k])
  }

  /** q's link was made before p's. */
  ghost predicate IsOlder(cfg: Config, tr: Run, q: u32, p: u32) {
    && Link(cfg, tr, p).Some? && Link(cfg, tr, q).Some?
    && Link(cfg, tr, q).value < Link(cfg, tr, p).value
  }

  lemma LeadsOn(cfg: Config, tr: Run, p: u32, up: seq<u32>)
    requires |up| >= 2
    ensures Leads(cfg, tr, [p] + up) <==> LinksTo(cfg, tr, p, up[0], false) && Leads(cfg, tr, up)
  {
    var path := [p] + up;
    if Leads(cfg, tr, path) {
      assert LinksTo(cfg, tr, path[0], path[1], 0 == |path| - 2);
      forall k | 0 <= k < |up| - 1 ensures LinksTo(cfg, tr, up[k], up[k + 1], k == |up| - 2) {
        assert LinksTo(cfg, tr, path[k + 1], path[k + 2], k + 1 == |path| - 2);
      }
    }
    if LinksTo(cfg, tr, p, up[0], false) && Leads(cfg, tr, up) {
      forall k | 0 <= k < |path| - 1 ensures LinksTo(cfg, tr, path[k], path[k + 1], k == |path| - 2) {
        if k > 0 { assert LinksTo(cfg, tr, up[k - 1], up[k], k - 1 == |up| - 2); }
      }
    }
  }

  /** The ancestry that p had after n steps is untouched: neither p nor, up to the nearest
      link made under an allowed name, any ancestor was created again after its link was
      relied on. */
  ghost predicate Intact(cfg: Config, tr: Run, n: nat, p: u32)
    requires n <= |tr|
    decreases n
  {
    && Link(cfg, tr[..n], p).Some?
    && (forall k :: n <= k < |tr| ==> !Creates(cfg, tr, k, p))
    && var j := Link(cfg, tr[..n], p).value;
       tr[j].comm in cfg.allowed || Intact(cfg, tr, j, tr[j].parent)
  }

  /** A link that no later fork replaced is still the link. */
  lemma LinkKept(cfg: Config, tr: Run, n: nat, p: u32)
    requires n <= |tr| && Link(cfg, tr[..n], p).Some?
    requires forall k :: n <= k < |tr| ==> !Creates(cfg, tr, k, p)
    ensures Link(cfg, tr, p) == Link(cfg, tr[..n], p)
  {
    var j := Link(cfg, tr[..n], p).value;
    LinkIff(cfg, tr[..n], p, j);
    forall k | 0 <= k < n ensures Creates(cfg, tr[..n], k, p) == Creates(cfg, tr, k, p) {
      assert tr[..n][..k] == tr[..k];
    }
    LinkIff(cfg, tr, p, j);
  }

  /** A link older than n is the link that stood after n steps. */
  lemma LinkStood(cfg: Config, tr: Run, n: nat, p: u32)
    requires n <= |tr| && Link(cfg, tr, p).Some? && Link(cfg, tr, p).value < n
    ensures Link(cfg, tr[..n], p) == Link(cfg, tr, p)
    ensures forall k :: n <= k < |tr| ==> !Creates(cfg, tr, k, p)
  {
    var j := Link(cfg, tr, p).value;
    LinkIff(cfg, tr, p, j);
    forall k | 0 <= k < n ensures Creates(cfg, tr[..n], k, p) == Creates(cfg, tr, k, p) {
      assert tr[..n][..k] == tr[..k];
    }
    LinkIff(cfg, tr[..n], p, j);
  }

  /** In every run, following the links from a process whose ancestry is intact ends, and
      ends at its recorded root: the forker of the nearest link made under an allowed
      name. */
  lemma {:induction false} Ancestry(cfg: Config, tr: Run, n: nat, p: u32) returns (path: seq<u32>)
    requires n <= |tr| && Intact(cfg, tr, n, p)
    ensures Climbs(cfg, tr, path) && path[0] == p
    ensures Link(cfg, tr, p).Some? && Link(cfg, tr, p).value < n
    ensures Some(path[|path| - 1]) == RootOf(cfg, tr[..n], p)
    decreases n
  {
    LinkKept(cfg, tr, n, p);
    var j := Link(cfg, tr[..n], p).value;
    var q := tr[j].parent;
    if tr[j].comm in cfg.allowed {
      path := [p, q];
    } else {
      var up := Ancestry(cfg, tr, j, q);
      path := [p] + up;
      assert tr[..n][..j] == tr[..j];
      LeadsOn(cfg, tr, p, up);
      forall k | 0 <= k < |path| - 2 ensures IsOlder(cfg, tr, path[k + 1], path[k]) {
        if k > 0 { assert IsOlder(cfg, tr, up[k], up[k - 1]); }
      }
    }
  }

  lemma {:induction false} ClimbIsIntact(cfg: Config, tr: Run, path: seq<u32>, n: nat)
    requires Climbs(cfg, tr, path) && n <= |tr|
    requires Link(cfg, tr, path[0]).Some? && Link(cfg, tr, path[0]).value < n
    ensures Intact(cfg, tr, n, path[0])
    decreases |path|
  {
    LinkStood(cfg, tr, n, path[0]);
    assert LinksTo(cfg, tr, path[0], path[1], 0 == |path| - 2);
    if |path| > 2 {
      var up := path[1..];
      assert path == [path[0]] + up;
      LeadsOn(cfg, tr, path[0], up);
      forall k | 0 <= k < |up| - 2 ensures IsOlder(cfg, tr, up[k + 1], up[k]) {
        assert IsOlder(cfg, tr, path[k + 2], path[k + 1]);
      }
      assert IsOlder(cfg, tr, path[0 + 1], path[0]);
      ClimbIsIntact(cfg, tr, up, Link(cfg, tr, path[0]).value);
    }
  }

  /** Reused ids or not, the links from a process lead up its ancestry exactly when no id
      of that ancestry was created again; they then lead to its recorded root. */
  lemma AncestryIff(cfg: Config, tr: Run, p: u32)
    ensures (exists path :: Climbs(cfg, tr, path) && path[0] == p) <==> Intact(cfg, tr, |tr|, p)
    ensures forall path :: Climbs(cfg, tr, path) && path[0] == p ==>
      Some(path[|path| - 1]) == RootOf(cfg, tr, p)
  {
    assert tr[..|tr|] == tr;
    if Intact(cfg, tr, |tr|, p) {
      var up := Ancestry(cfg, tr, |tr|, p);
      forall path | Climbs(cfg, tr, path) && path[0] == p
        ensures Some(path[|path| - 1]) == RootOf(cfg, tr, p)
      {
        OneWayUp(cfg, tr, path, up);
      }
    } else {
      forall path | Climbs(cfg, tr, path) && path[0] == p ensures false {
        assert LinksTo(cfg, tr, path[0], path[1], 0 == |path| - 2);
        ClimbIsIntact(cfg, tr, path, |tr|);
      }
    }
  }

  /** There is only one way up. */
  lemma {:induction false} OneWayUp(cfg: Config, tr: Run, a: seq<u32>, b: seq<u32>)
    requires Leads(cfg, tr, a) && Leads(cfg, tr, b) && a[0] == b[0]
    ensures a == b
  {
    var k := 0;
    while k < |a| - 1 && k < |b| - 1
      invariant 0 <= k < |a| && k < |b|
      invariant forall i :: 0 <= i <= k ==> a[i] == b[i]
    {
      assert LinksTo(cfg, tr, a[k], a[k + 1], k == |a| - 2) && LinksTo(cfg, tr, b[k], b[k + 1], k == |b| - 2);
      k := k + 1;
    }
    assert LinksTo(cfg, tr, a[k - 1], a[k], k - 1 == |a| - 2) && LinksTo(cfg, tr, b[k - 1], b[k], k - 1 == |b| - 2);
  }

  /** With fresh ids every ancestry is intact. */
  lemma {:induction false} FreshIsIntact(cfg: Config, tr: Run, n: nat, p: u32)
    requires Fresh(tr) && n <= |tr| && Link(cfg, tr[..n], p).Some?
    ensures Intact(cfg, tr, n, p)
    decreases n
  {
    var j := Link(cfg, tr[..n], p).value;
    forall k | n <= k < |tr| ensures !Creates(cfg, tr, k, p) {
      if Creates(cfg, tr, k, p) {
        assert tr[j].child == p;
        assert Seen(tr, k, tr[k].child);
      }
    }
    if tr[j].comm !in cfg.allowed {
      LinkIsStored(cfg, tr[..n], p);
      assert tr[..n][..j] == tr[..j];
      FreshIsIntact(cfg, tr, j, tr[j].parent);
    }
  }

  // ----- the same in the terms of child_root

  /** path leads up the entries of child_root from its first id, along ppid, to the first
      entry whose fork name is allowed. */
  ghost predicate LeadsInMap(cfg: Config, m: map<u32, ProcessInfo>, path: seq<u32>) {
    && |path| >= 2
    && forall k :: 0 <= k < |path| - 1 ==> EntryTo(cfg, m, path[k], path[k + 1], k == |path| - 2)
  }

  /** p's entry names q as forker, and an allowed fork name exactly when `top`. */
  ghost predicate EntryTo(cfg: Config, m: map<u32, ProcessInfo>, p: u32, q: u32, top: bool) {
    p in m && m[p].ppid == q && (m[p].forkComm in cfg.allowed <==> top)
  }

  lemma MapLeads(cfg: Config, tr: Run, m: Maps, path: seq<u32>)
    requires Prescribed(cfg, tr, m)
    ensures LeadsInMap(cfg, m.childRoot, path) <==> Leads(cfg, tr, path)
  {
    forall p: u32, q: u32, top: bool
      ensures LinksTo(cfg, tr, p, q, top) <==> EntryTo(cfg, m.childRoot, p, q, top)
    {
      assert TreeEntry(cfg, tr, m.childRoot, p);
    }
    hide LinksTo, EntryTo;
  }

  /** The ids of p's ancestry: its forker when p was forked, that process's forker when it
      was, and so on to the forker of the nearest link made under an allowed name. */
  ghost function Forebears(cfg: Config, tr: Run, p: u32): (path: seq<u32>)
    requires Link(cfg, tr, p).Some?
    ensures |path| >= 2 && path[0] == p && Some(path[|path| - 1]) == RootOf(cfg, tr, p)
    decreases |tr|
  {
    var j := Link(cfg, tr, p).value;
    if tr[j].comm in cfg.allowed then [p, tr[j].parent]
    else
      LinkIsStored(cfg, tr, p);
      [p] + Forebears(cfg, tr[..j], tr[j].parent)
  }

  /** Whoever of the ancestry that p had after n steps was created again was last created
      by the same forker, and under an allowed name just if it was before. */
  ghost predicate Retraced(cfg: Config, tr: Run, n: nat, p: u32)
    requires n <= |tr|
    decreases n
  {
    && Link(cfg, tr[..n], p).Some?
    && var j := Link(cfg, tr[..n], p).value;
       && LinksTo(cfg, tr, p, tr[j].parent, tr[j].comm in cfg.allowed)
       && (tr[j].comm in cfg.allowed || Retraced(cfg, tr, j, tr[j].parent))
  }

  lemma {:induction false} RetracedFrom(cfg: Config, tr: Run, n: nat, p: u32)
    requires n <= |tr| && Link(cfg, tr[..n], p).Some?
    ensures Leads(cfg, tr, Forebears(cfg, tr[..n], p)) <==> Retraced(cfg, tr, n, p)
    decreases n
  {
    var j := Link(cfg, tr[..n], p).value;
    var path := Forebears(cfg, tr[..n], p);
    if tr[j].comm in cfg.allowed {
      assert path == [p, tr[j].parent];
      assert LinksTo(cfg, tr, p, path[1], true) <==> LinksTo(cfg, tr, path[0], path[1], 0 == |path| - 2);
    } else {
      LinkIsStored(cfg, tr[..n], p);
      assert tr[..n][..j] == tr[..j];
      RetracedFrom(cfg, tr, j, tr[j].parent);
      LeadsOn(cfg, tr, p, Forebears(cfg, tr[..j], tr[j].parent));
    }
  }

  /** In every run, reused ids or not: the ppid links that child_root shows lead from a
      recorded process through the ids of its ancestry, and so to its recorded root,
      exactly when whoever of them was created again has the same forker as before. */
  lemma AncestryInMapIff(cfg: Config, tr: Run, m: Maps, p: u32)
    requires Prescribed(cfg, tr, m) && p in m.childRoot
    ensures Link(cfg, tr, p).Some?
    ensures var path := Forebears(cfg, tr, p);
      && path[|path| - 1] == m.childRoot[p].rpid
      && (LeadsInMap(cfg, m.childRoot, path) <==> Retraced(cfg, tr, |tr|, p))
  {
    hide Retraced, Leads, LeadsInMap;
    assert tr[..|tr|] == tr;
    assert TreeEntry(cfg, tr, m.childRoot, p);
    RetracedFrom(cfg, tr, |tr|, p);
    MapLeads(cfg, tr, m, Forebears(cfg, tr, p));
  }

  lemma {:induction false} IntactIsRetraced(cfg: Config, tr: Run, n: nat, p: u32)
    requires n <= |tr| && Intact(cfg, tr, n, p)
    ensures Retraced(cfg, tr, n, p)
    decreases n
  {
    LinkKept(cfg, tr, n, p);
    var j := Link(cfg, tr[..n], p).value;
    if tr[j].comm !in cfg.allowed { IntactIsRetraced(cfg, tr, j, tr[j].parent); }
  }

  /** An intact ancestry is one that child_root shows. */
  lemma AncestryInMap(cfg: Config, tr: Run, m: Maps, p: u32)
    requires Prescribed(cfg, tr, m) && Intact(cfg, tr, |tr|, p)
    ensures p in m.childRoot && Link(cfg, tr, p).Some?
    ensures var path := Forebears(cfg, tr, p);
      LeadsInMap(cfg, m.childRoot, path) && path[|path| - 1] == m.childRoot[p].rpid
  {
    assert tr[..|tr|] == tr;
    assert TreeEntry(cfg, tr, m.childRoot, p);
    IntactIsRetraced(cfg, tr, |tr|, p);
    AncestryInMapIff(cfg, tr, m, p);
  }

  /** With fresh ids that is so of every recorded process. */
  lemma FreshAncestry(cfg: Config, tr: Run, m: Maps, p: u32)
    requires Fresh(tr) && Prescribed(cfg, tr, m)
    ensures p in m.childRoot <==> Intact(cfg, tr, |tr|, p)
  {
    assert tr[..|tr|] == tr;
    assert TreeEntry(cfg, tr, m.childRoot, p);
    if p in m.childRoot { FreshIsIntact(cfg, tr, |tr|, p); }
  }

  /** execve renames a process; links and roots stay. */
  lemma ExecveKeepsLinks(cfg: Config, tr: Run, s: Step, m: map<u32, ProcessInfo>, p: u32)
    requires TreeHolds(cfg, tr, m) && s.Execve?
    ensures var m' := NextTree(cfg, tr, s, m);
      && TreeHolds(cfg, tr + [s], m')
      && (p in m' <==> p in m)
      && (p in m ==> m'[p].ppid == m[p].ppid && m'[p].rpid == m[p].rpid && m'[p].forkComm == m[p].forkComm)
  {
    NextTreeHolds(cfg, tr, s, m);
  }

  // ----- the current name

  /** Step k is an execve of p whose name could be read. */
  predicate Renames(s: Step, p: u32) {
    s.Execve? && s.task.pid == p && s.newComm.Some?
  }

  lemma {:induction false} ExecCommIs(cfg: Config, tr: Run, p: u32, i: nat)
    requires i < |tr| && Renames(tr[i], p)
    requires forall k :: i < k < |tr| ==> !Renames(tr[k], p) && !Creates(cfg, tr, k, p)
    ensures ExecComm(cfg, tr, p) == tr[i].newComm.value
    decreases |tr|
  {
    var n := |tr| - 1;
    if i < n {
      var before := tr[..n];
      forall k | i < k < n ensures !Renames(before[k], p) && !Creates(cfg, before, k, p) {
        assert before[..k] == tr[..k] && !Creates(cfg, tr, k, p);
      }
      ExecCommIs(cfg, before, p, i);
      assert !Creates(cfg, tr, n, p) && !Renames(tr[n], p);
    }
  }

  lemma {:induction false} ExecCommIsZero(cfg: Config, tr: Run, p: u32, i: nat)
    requires i < |tr| && Creates(cfg, tr, i, p)
    requires forall k :: i < k < |tr| ==> !Renames(tr[k], p) && !Creates(cfg, tr, k, p)
    ensures ExecComm(cfg, tr, p) == ZERO_COMM
    decreases |tr|
  {
    var n := |tr| - 1;
    if i < n {
      var before := tr[..n];
      assert before[..i] == tr[..i];
      forall k | i < k < n ensures !Renames(before[k], p) && !Creates(cfg, before, k, p) {
        assert before[..k] == tr[..k] && !Creates(cfg, tr, k, p);
      }
      ExecCommIsZero(cfg, before, p, i);
      assert !Creates(cfg, tr, n, p) && !Renames(tr[n], p);
    }
  }

  /** The current name of a recorded process is the one it had at its last execve with a
      readable name since it was created. */
  lemma CurrentName(cfg: Config, tr: Run, m: Maps, p: u32, i: nat)
    requires Prescribed(cfg, tr, m) && p in m.childRoot
    requires i < |tr| && tr[i].Execve? && tr[i].task.pid == p && tr[i].newComm.Some?
    requires forall k :: i < k < |tr| ==> !(tr[k].Execve? && tr[k].task.pid == p && tr[k].newComm.Some?)
    requires forall k :: i < k < |tr| ==> !Creates(cfg, tr, k, p)
    ensures m.childRoot[p].currentComm == tr[i].newComm.value
  {
    assert TreeEntry(cfg, tr, m.childRoot, p);
    ExecCommIs(cfg, tr, p, i);
  }

  /** It is 16 zero bytes when there was no such execve since p was created. */
  lemma NoCurrentName(cfg: Config, tr: Run, m: Maps, p: u32)
    requires Prescribed(cfg, tr, m) && p in m.childRoot
    ensures Link(cfg, tr, p).Some?
    ensures (forall k :: Link(cfg, tr, p).value < k < |tr| ==>
               !(tr[k].Execve? && tr[k].task.pid == p && tr[k].newComm.Some?)) ==>
      forall b :: 0 <= b < 16 ==> m.childRoot[p].currentComm[b] == 0
  {
    assert TreeEntry(cfg, tr, m.childRoot, p);
    var j := Link(cfg, tr, p).value;
    LinkIff(cfg, tr, p, j);
    if forall k :: j < k < |tr| ==> !Renames(tr[k], p) { ExecCommIsZero(cfg, tr, p, j); }
  }

  // ----- who is recorded

  /** A chain of forks, youngest first: each was made by the child of the next, every map
      update along it succeeded, and the oldest was made under an allowed name. */
  ghost predicate Chain(cfg: Config, tr: Run, at: seq<nat>, p: u32) {
    && at != []
    && (forall k :: 0 <= k < |at| ==> at[k] < |tr| && tr[at[k]].Fork? && tr[at[k]].updated)
    && tr[at[0]].child == p
    && (forall k :: 0 <= k < |at| - 1 ==> at[k + 1] < at[k] && tr[at[k + 1]].child == tr[at[k]].parent)
    && tr[at[|at| - 1]].comm in cfg.allowed
  }

  lemma {:induction false} ChainIsStored(cfg: Config, tr: Run, at: seq<nat>, p: u32)
    requires Chain(cfg, tr, at, p)
    ensures Creates(cfg, tr, at[0], p) && Link(cfg, tr, p).Some?
    decreases |at|
  {
    var i := at[0];
    if |at| > 1 {
      var up := at[1..];
      Older(at);
      ChainIsStored(cfg, tr[..i], up, tr[i].parent);
      assert Link(cfg, tr[..i], tr[i].parent).Some?;
    } else {
      assert tr[i].comm in cfg.allowed;
    }
    assert Creates(cfg, tr, i, p);
    LinkIff(cfg, tr, p, 0);
  }

  lemma {:induction false} Older(at: seq<nat>)
    requires at != [] && forall k :: 0 <= k < |at| - 1 ==> at[k + 1] < at[k]
    ensures forall k :: 0 < k < |at| ==> at[k] < at[0]
  {
    if |at| > 1 { Older(at[1..]); }
  }

  lemma LinkAt(cfg: Config, tr: Run, i: nat)
    requires i < |tr| && ForkStored(cfg, tr[..i], tr[i])
    ensures Link(cfg, tr[..i + 1], tr[i].child) == Some(i)
  {
    assert tr[..i + 1][..i] == tr[..i];
  }

  lemma {:induction false} StoredHasChain(cfg: Config, tr: Run, p: u32) returns (at: seq<nat>)
    requires Link(cfg, tr, p).Some?
    ensures Chain(cfg, tr, at, p)
    decreases |tr|
  {
    var j := Link(cfg, tr, p).value;
    LinkIsStored(cfg, tr, p);
    if tr[j].comm in cfg.allowed {
      at := [j];
    } else {
      var up := StoredHasChain(cfg, tr[..j], tr[j].parent);
      at := [j] + up;
      forall k | 0 <= k < |at| - 1 ensures at[k + 1] < at[k] && tr[at[k + 1]].child == tr[at[k]].parent {
        if k > 0 { assert at[k] == up[k - 1] && at[k + 1] == up[k]; }
      }
    }
  }

  /** In every run a process is recorded exactly when a chain of successfully stored forks
      leads up to one made under an allowed name; if updates never fail, when such an
      ancestor link exists at all. */
  lemma RecordedIff(cfg: Config, tr: Run, p: u32)
    ensures Link(cfg, tr, p).Some? <==> exists at :: Chain(cfg, tr, at, p)
  {
    if Link(cfg, tr, p).Some? {
      var at := StoredHasChain(cfg, tr, p);
    }
    if at :| Chain(cfg, tr, at, p) {
      ChainIsStored(cfg, tr, at, p);
    }
  }

  /** With a reused id the links can lead elsewhere: 3 is recorded under root 1, but once
      id 2 is forked again, by 9, the ppid links from 3 lead to 2 and on to 9. */
  lemma ReuseMisleads(cfg: Config, a: Comm, b: Comm)
    requires a in cfg.allowed && b !in cfg.allowed
    ensures var tr := [Fork(a, 1, 2, true), Fork(b, 2, 3, true), Fork(a, 9, 2, true)];
      && !Fresh(tr) && !Intact(cfg, tr, 3, 3) && !Retraced(cfg, tr, 3, 3)
      && RootOf(cfg, tr, 3) == Some(1)
      && Link(cfg, tr, 3) == Some(1) && tr[1].parent == 2
      && Link(cfg, tr, 2) == Some(2) && tr[2].parent == 9
  {
    var tr := [Fork(a, 1, 2, true), Fork(b, 2, 3, true), Fork(a, 9, 2, true)];
    assert tr[2].Fork? && Seen(tr, 2, tr[2].child) by { assert tr[0].child == tr[2].child; }
    assert tr[..2][..1] == tr[..1];
    LinkAt(cfg, tr, 0);
    assert tr[..1] == tr[..0 + 1];
    LinkAt(cfg, tr, 1);
    assert RootOf(cfg, tr[..1], 2) == Some(1);
    assert tr[..3] == tr && Creates(cfg, tr, 2, 2);
  }

  /** Reuse can even close a circle: 2 and 3 are recorded as each other's forkers, so
      following ppid links from either never ends. */
  lemma ReuseLoops(cfg: Config, a: Comm, b: Comm)
    requires a in cfg.allowed && b !in cfg.allowed
    ensures var tr := [Fork(a, 1, 2, true), Fork(b, 2, 3, true), Fork(b, 3, 2, true)];
      && Link(cfg, tr, 3) == Some(1) && tr[1].parent == 2
      && Link(cfg, tr, 2) == Some(2) && tr[2].parent == 3
      && RootOf(cfg, tr, 2) == RootOf(cfg, tr, 3) == Some(1)
      && !Intact(cfg, tr, 3, 2) && !Intact(cfg, tr, 3, 3)
      && !Retraced(cfg, tr, 3, 2) && !Retraced(cfg, tr, 3, 3)
  {
    var tr := [Fork(a, 1, 2, true), Fork(b, 2, 3, true), Fork(b, 3, 2, true)];
    assert tr[..3] == tr;
    assert tr[..2][..1] == tr[..1];
    LinkAt(cfg, tr, 0);
    assert tr[..1] == tr[..0 + 1];
    LinkAt(cfg, tr, 1);
    assert RootOf(cfg, tr[..1], 2) == Some(1);
    assert RootOf(cfg, tr[..2], 3) == Some(1);
    LinkAt(cfg, tr, 2);
    assert Creates(cfg, tr, 2, 2);
  }

  /** Reuse need not harm: id 2 is created again by the forker it had, so the links from 3
      still pass 2 and end at the recorded root 1, though 2 is not the process it was. */
  lemma ReuseRetraces(cfg: Config, a: Comm, b: Comm)
    requires a in cfg.allowed && b !in cfg.allowed
    ensures var tr := [Fork(a, 1, 2, true), Fork(b, 2, 3, true), Fork(a, 1, 2, true)];
      && Link(cfg, tr, 3).Some? && Forebears(cfg, tr, 3) == [3, 2, 1]
      && Retraced(cfg, tr, 3, 3) && !Intact(cfg, tr, 3, 3)
  {
    var tr := [Fork(a, 1, 2, true), Fork(b, 2, 3, true), Fork(a, 1, 2, true)];
    assert tr[..3] == tr && tr[..2][..1] == tr[..1];
    LinkAt(cfg, tr, 0);
    assert tr[..1] == tr[..0 + 1];
    LinkAt(cfg, tr, 1);
    LinkAt(cfg, tr, 2);
    assert Creates(cfg, tr, 2, 2);
    assert Forebears(cfg, tr[..1], 2) == [2, 1];
    assert Retraced(cfg, tr, 1, 2);
  }
}
