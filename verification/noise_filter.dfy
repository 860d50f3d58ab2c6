// Removing known-benign start-up probes from the events of a report.

module NoiseFilter {
  import opened Types
  import opened History

  const BENIGN_PATTERNS: seq<Bytes> :=
    [Ascii("pyvenv.cfg"), Ascii("._pth"), Ascii("pybuilddir.txt"), Ascii(".pyc"), Ascii("__pycache__")]

  predicate IsNoise(e: SyscallEvent) {
    && e.ret == -2
    && e.file.Some?
    && exists k :: 0 <= k < |BENIGN_PATTERNS| && Contains(e.file.value.filename, BENIGN_PATTERNS[k])
  }

  /** The events of s that are not noise, in order. */
  function WithoutNoise(s: Events): Events {
    if s == [] then []
    else
      var last := s[|s| - 1];
      if IsNoise(last) then WithoutNoise(s[..|s| - 1]) else WithoutNoise(s[..|s| - 1]) + [last]
  }

  /** Where in s each kept event stands. */
  ghost function KeptAt(s: Events): (at: seq<nat>)
    ensures |at| == |WithoutNoise(s)|
    ensures forall k :: 0 <= k < |at| ==> at[k] < |s| && s[at[k]] == WithoutNoise(s)[k] && !IsNoise(s[at[k]])
    ensures forall j, k :: 0 <= j < k < |at| ==> at[j] < at[k]
  {
    if s == [] then []
    else if IsNoise(s[|s| - 1]) then KeptAt(s[..|s| - 1])
    else KeptAt(s[..|s| - 1]) + [|s| - 1]
  }

  lemma {:induction false} KeptMember(s: Events, e: SyscallEvent)
    ensures e in WithoutNoise(s) <==> e in s && !IsNoise(e)
  {
    if s != [] {
      KeptMember(s[..|s| - 1], e);
      assert s == s[..|s| - 1] + [s[|s| - 1]];
    }
  }

  /** An event is dropped exactly when it is a file event that failed with ENOENT and one
      of the five patterns stands somewhere in its file name. */
  lemma KeptIff(s: Events, e: SyscallEvent)
    ensures e in WithoutNoise(s) <==>
      && e in s
      && !(&& e.ret == -2 && e.file.Some?
           && var name := e.file.value.filename;
              || (exists a, b :: name == a + Ascii("pyvenv.cfg") + b)
              || (exists a, b :: name == a + Ascii("._pth") + b)
              || (exists a, b :: name == a + Ascii("pybuilddir.txt") + b)
              || (exists a, b :: name == a + Ascii(".pyc") + b)
              || (exists a, b :: name == a + Ascii("__pycache__") + b))
  {
    KeptMember(s, e);
    if e.file.Some? {
      var name, ps := e.file.value.filename, BENIGN_PATTERNS;
      forall k | 0 <= k < |ps| ensures Contains(name, ps[k]) <==> exists a, b :: name == a + ps[k] + b {
        ContainsIff(name, ps[k]);
      }
      assert |ps| == 5 && ps[0] == Ascii("pyvenv.cfg") && ps[1] == Ascii("._pth");
      assert ps[2] == Ascii("pybuilddir.txt") && ps[3] == Ascii(".pyc") && ps[4] == Ascii("__pycache__");
      hide Contains, Ascii;
    }
  }

  /** Filtering what was already filtered removes nothing. */
  lemma {:induction false} FilterTwice(s: Events)
    ensures WithoutNoise(WithoutNoise(s)) == WithoutNoise(s)
  {
    if s != [] {
      var k, last := WithoutNoise(s[..|s| - 1]), s[|s| - 1];
      FilterTwice(s[..|s| - 1]);
      assert (k + [last])[..|k|] == k;
      assert WithoutNoise(s) == if IsNoise(last) then k else k + [last];
    }
  }

  lemma FilterSorted(s: Events)
    requires Sorted(s)
    ensures Sorted(WithoutNoise(s))
  {
    var at := KeptAt(s);
  }

  method FilterNoise(events: Events) returns (filtered: Events)
    ensures filtered == WithoutNoise(events)
  {
    filtered := [];
    for i := 0 to |events|
      invariant filtered == WithoutNoise(events[..i])
    {
      assert events[..i + 1][..i] == events[..i];
      if !IsNoise(events[i]) {
        filtered := filtered + [events[i]];
      }
    }
    assert events[..|events|] == events;
  }

  /** What is counted here is exactly what FilterNoise drops. */
  method CountNoise(events: Events) returns (count: nat)
    ensures count + |WithoutNoise(events)| == |events|
  {
    count := 0;
    for i := 0 to |events|
      invariant count + |WithoutNoise(events[..i])| == i
    {
      assert events[..i + 1][..i] == events[..i];
      if IsNoise(events[i]) {
        count := count + 1;
      }
    }
    assert events[..|events|] == events;
  }
}
