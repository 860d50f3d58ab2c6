// Root-cause analysis of a crash from its signal, its fault address and the memory map
// of the process.

module Analysis {
  import opened Types
  import opened Text
  import opened MapsFormat
  import opened Intervals
  import Resolver

  const LOW_MEMORY := 0x10000

  /** Unknown stands for the empty type of a verdict without a memory map. */
  datatype MemoryType = Unknown | Null | Low | Unmapped | Stack | Heap | Library | Executable | Mapped

  predicate HasSuffix(s: string, p: string) {
    |p| <= |s| && s[|s| - |p|..] == p
  }

  /** The class of a mapped address, by the path of its region, and the path shown. */
  function KindOfPath(path: string): (MemoryType, string) {
    if path == "[stack]" then (Stack, "")
    else if path == "[heap]" then (Heap, "")
    else if HasSuffix(path, ".so") || Contains(path, ".so.") then (Library, path)
    else if path != "" && !("[" <= path) then (Executable, path)
    else (Mapped, path)
  }

  function Spans(rs: seq<MemoryRegion>): seq<Span> {
    seq(|rs|, i requires 0 <= i < |rs| => Span(rs[i].start, rs[i].end))
  }

  function Classify(rs: seq<MemoryRegion>, addr: u64): (MemoryType, string) {
    if addr == 0 then (Null, "")
    else if addr < LOW_MEMORY then (Low, "")
    else
      match FirstHit(Spans(rs), addr)
      case None => (Unmapped, "")
      case Some(i) => KindOfPath(rs[i].path)
  }

  method ClassifyAddress(mm: MemoryMap, addr: u64) returns (kind: MemoryType, library: string)
    ensures (kind, library) == Classify(mm.regions, addr)
  {
    if addr == 0 {
      return Null, "";
    }
    if addr < 0x10000 {
      return Low, "";
    }
    for i := 0 to |mm.regions|
      invariant forall j :: 0 <= j < i ==> !Spans(mm.regions)[j].Contains(addr)
    {
      var r := mm.regions[i];
      if addr >= r.start && addr < r.end {
        assert Spans(mm.regions)[i].Contains(addr);
        if r.path == "[stack]" {
          return Stack, "";
        }
        if r.path == "[heap]" {
          return Heap, "";
        }
        if HasSuffix(r.path, ".so") || Contains(r.path, ".so.") {
          return Library, r.path;
        }
        if r.path != "" && !("[" <= r.path) {
          return Executable, r.path;
        }
        return Mapped, r.path;
      }
    }
    return Unmapped, "";
  }

  // ----- the verdict

  /** One constructor per message of the program. */
  datatype Cause =
    | NoCause
    | NullDereference
    | NullDereferenceAt(offset: u64)
    | UnmappedAccess
    | StackCorruption
    | HeapCorruption
    | InvalidAccess
    | AssertionOrAbort
    | FloatingPointException
    | IllegalInstruction

  datatype Advice =
    | NoAdvice
    | CheckNullPointers
    | CheckMembersOfNull
    | CheckFreedPointers
    | CheckStackOverflow
    | CheckDoubleFree
    | CheckOverrunOrPermission
    | CheckAssertions
    | CheckDivision
    | CheckFunctionPointers

  datatype CrashAnalysis = CrashAnalysis(
    signal: i32,
    faultAddr: u64,
    hasFaultAddr: bool,
    memoryType: MemoryType,
    libraryName: string,
    likelyCause: Cause,
    recommendation: Advice)

  /** The verdict by memory type alone; types without advice get none. */
  function CauseOf(memoryType: MemoryType, addr: u64): Cause {
    match memoryType
    case Null => NullDereference
    case Low => NullDereferenceAt(addr)
    case Unmapped => UnmappedAccess
    case Stack => StackCorruption
    case Heap => HeapCorruption
    case Library => InvalidAccess
    case Executable => InvalidAccess
    case Mapped => NoCause
    case Unknown => NoCause
  }

  function AdviceOf(memoryType: MemoryType): Advice {
    match memoryType
    case Null => CheckNullPointers
    case Low => CheckMembersOfNull
    case Unmapped => CheckFreedPointers
    case Stack => CheckStackOverflow
    case Heap => CheckDoubleFree
    case Library => CheckOverrunOrPermission
    case Executable => CheckOverrunOrPermission
    case Mapped => NoAdvice
    case Unknown => NoAdvice
  }

  predicate IsMemoryFault(signal: i32) {
    signal == 11 || signal == 7
  }

  /** What is known about an address: with no readable map only the low ones. */
  function MemoryOf(addr: u64, text: Option<string>): (MemoryType, string) {
    if text.Some? then Classify(Regions(ScanLines(text.value)), addr)
    else if addr < LOW_MEMORY then Classify([], addr)
    else (Unknown, "")
  }

  function AnalysisOf(signal: i32, addr: u64, text: Option<string>): CrashAnalysis {
    if IsMemoryFault(signal) then
      var m := MemoryOf(addr, text);
      CrashAnalysis(signal, addr, true, m.0, m.1, CauseOf(m.0, addr), AdviceOf(m.0))
    else if signal == 6 then
      CrashAnalysis(signal, addr, false, Unknown, "", AssertionOrAbort, CheckAssertions)
    else if signal == 8 then
      CrashAnalysis(signal, addr, false, Unknown, "", FloatingPointException, CheckDivision)
    else if signal == 4 then
      CrashAnalysis(signal, addr, false, Unknown, "", IllegalInstruction, CheckFunctionPointers)
    else
      CrashAnalysis(signal, addr, false, Unknown, "", NoCause, NoAdvice)
  }

  method AnalyzeCrash(signal: i32, faultAddr: u64, text: Option<string>) returns (a: CrashAnalysis)
    ensures a == AnalysisOf(signal, faultAddr, text)
  {
    a := CrashAnalysis(signal, faultAddr, false, Unknown, "", NoCause, NoAdvice);
    if signal == 11 || signal == 7 {
      a := a.(hasFaultAddr := true);
      var mm := ParseMemoryMaps(text);
      if mm.Some? {
        var memType, libName := ClassifyAddress(mm.value, faultAddr);
        a := a.(memoryType := memType, libraryName := libName);
        match memType {
          case Null =>
            a := a.(likelyCause := NullDereference, recommendation := CheckNullPointers);
          case Low =>
            a := a.(likelyCause := NullDereferenceAt(faultAddr), recommendation := CheckMembersOfNull);
          case Unmapped =>
            a := a.(likelyCause := UnmappedAccess, recommendation := CheckFreedPointers);
          case Stack =>
            a := a.(likelyCause := StackCorruption, recommendation := CheckStackOverflow);
          case Heap =>
            a := a.(likelyCause := HeapCorruption, recommendation := CheckDoubleFree);
          case Library =>
            a := a.(likelyCause := InvalidAccess, recommendation := CheckOverrunOrPermission);
          case Executable =>
            a := a.(likelyCause := InvalidAccess, recommendation := CheckOverrunOrPermission);
          case Mapped =>
          case Unknown =>
        }
      } else {
        if faultAddr == 0 {
          a := a.(memoryType := Null, likelyCause := NullDereference, recommendation := CheckNullPointers);
        } else if faultAddr < 0x10000 {
          a := a.(memoryType := Low, likelyCause := NullDereferenceAt(faultAddr),
                  recommendation := CheckMembersOfNull);
        }
      }
    } else if signal == 6 {
      a := a.(likelyCause := AssertionOrAbort, recommendation := CheckAssertions);
    } else if signal == 8 {
      a := a.(likelyCause := FloatingPointException, recommendation := CheckDivision);
    } else if signal == 4 {
      a := a.(likelyCause := IllegalInstruction, recommendation := CheckFunctionPointers);
    }
  }

  // ----- the classes and the verdicts one by one

  lemma HasSuffixIff(s: string, p: string)
    ensures HasSuffix(s, p) <==> exists a :: s == a + p
  {
    if HasSuffix(s, p) { assert s == s[..|s| - |p|] + p; }
  }

  /** The class of a mapped address by the path of the first region around it. */
  lemma ClassIs(rs: seq<MemoryRegion>, addr: u64, i: nat)
    requires addr >= 0x10000 && i < |rs| && rs[i].start <= addr < rs[i].end
    requires forall j :: 0 <= j < i ==> !(rs[j].start <= addr < rs[j].end)
    ensures var path := rs[i].path;
      Classify(rs, addr) ==
      if path == "[stack]" then (Stack, "")
      else if path == "[heap]" then (Heap, "")
      else if (exists a :: path == a + ".so") || (exists a, b :: path == a + ".so." + b) then (Library, path)
      else if path != "" && path[0] != '[' then (Executable, path)
      else (Mapped, path)
  {
    assert Spans(rs)[i].Contains(addr);
    forall j | 0 <= j < i ensures !Spans(rs)[j].Contains(addr) {}
    assert FirstHit(Spans(rs), addr) == Some(i);
    HasSuffixIff(rs[i].path, ".so");
    ContainsIff(rs[i].path, ".so.");
  }

  /** The class of any other address. */
  lemma ClassOutside(rs: seq<MemoryRegion>, addr: u64)
    ensures addr == 0 ==> Classify(rs, addr) == (Null, "")
    ensures 0 < addr < 0x10000 ==> Classify(rs, addr) == (Low, "")
    ensures addr >= 0x10000 && (forall j :: 0 <= j < |rs| ==> !(rs[j].start <= addr < rs[j].end)) ==>
      Classify(rs, addr) == (Unmapped, "")
  {
    if forall j :: 0 <= j < |rs| ==> !(rs[j].start <= addr < rs[j].end) {
      forall j | 0 <= j < |rs| ensures !Spans(rs)[j].Contains(addr) {}
    }
  }

  /** What is said of a memory fault, type by type. */
  lemma MemoryVerdicts(signal: i32, addr: u64, text: Option<string>)
    requires signal in {7, 11}
    ensures var a := AnalysisOf(signal, addr, text);
      && a.signal == signal && a.faultAddr == addr && a.hasFaultAddr
      && (text.Some? ==> (a.memoryType, a.libraryName) == Classify(Regions(ScanLines(text.value)), addr))
      && (text.None? ==> a.libraryName == "")
      && (text.None? ==> a.memoryType == if addr == 0 then Null else if addr < 0x10000 then Low else Unknown)
      && (a.likelyCause, a.recommendation) ==
         match a.memoryType
         case Null => (NullDereference, CheckNullPointers)
         case Low => (NullDereferenceAt(addr), CheckMembersOfNull)
         case Unmapped => (UnmappedAccess, CheckFreedPointers)
         case Stack => (StackCorruption, CheckStackOverflow)
         case Heap => (HeapCorruption, CheckDoubleFree)
         case Library => (InvalidAccess, CheckOverrunOrPermission)
         case Executable => (InvalidAccess, CheckOverrunOrPermission)
         case Mapped => (NoCause, NoAdvice)
         case Unknown => (NoCause, NoAdvice)
  {
  }

  /** What is said of any other signal. */
  lemma OtherVerdicts(signal: i32, addr: u64, text: Option<string>)
    requires signal !in {7, 11}
    ensures var a := AnalysisOf(signal, addr, text);
      && a.signal == signal && a.faultAddr == addr && !a.hasFaultAddr
      && a.memoryType == Unknown && a.libraryName == ""
      && (a.likelyCause, a.recommendation) ==
         if signal == 6 then (AssertionOrAbort, CheckAssertions)
         else if signal == 8 then (FloatingPointException, CheckDivision)
         else if signal == 4 then (IllegalInstruction, CheckFunctionPointers)
         else (NoCause, NoAdvice)
  {
  }

  // ----- what the verdict depends on

  /** With disjoint regions the class of an address does not depend on their order. */
  lemma OrderDoesNotMatter(rs: seq<MemoryRegion>, rs': seq<MemoryRegion>, addr: u64)
    requires Disjoint(Spans(rs)) && Disjoint(Spans(rs'))
    requires forall r :: r in rs <==> r in rs'
    ensures Classify(rs, addr) == Classify(rs', addr)
  {
    if i :| 0 <= i < |rs| && Spans(rs)[i].Contains(addr) {
      SameHit(rs, rs', addr, i);
    } else if j :| 0 <= j < |rs'| && Spans(rs')[j].Contains(addr) {
      SameHit(rs', rs, addr, j);
    }
  }

  lemma SameHit(rs: seq<MemoryRegion>, rs': seq<MemoryRegion>, addr: u64, i: nat)
    requires Disjoint(Spans(rs)) && Disjoint(Spans(rs'))
    requires i < |rs| && Spans(rs)[i].Contains(addr) && rs[i] in rs'
    ensures FirstHit(Spans(rs), addr).Some? && FirstHit(Spans(rs'), addr).Some?
    ensures rs'[FirstHit(Spans(rs'), addr).value] == rs[FirstHit(Spans(rs), addr).value]
  {
    var j :| 0 <= j < |rs'| && rs'[j] == rs[i];
    OnlyHit(Spans(rs), addr, i);
    OnlyHit(Spans(rs'), addr, j);
  }

  /** Analysis and resolver pick the same region out of the same file, and in a disjoint
      layout it is the only half-open interval around the address. */
  lemma SameRegionAsResolver(text: string, addr: u64, k: nat)
    requires forall l :: l in SplitOn(text, '\n') ==> NumbersAgree(l)
    ensures var rs, ms := Regions(ScanLines(text)), Mappings(SplitOn(text, '\n'));
      && FirstHit(Resolver.Spans(ms), addr) == FirstHit(Spans(rs), addr)
      && (Disjoint(Spans(rs)) ==>
            (FirstHit(Spans(rs), addr) == Some(k) <==> k < |rs| && rs[k].start <= addr < rs[k].end))
  {
    FilesAgree(text);
    var rs, ms := Regions(ScanLines(text)), Mappings(SplitOn(text, '\n'));
    assert Resolver.Spans(ms) == Spans(rs);
    if Disjoint(Spans(rs)) { OnlyHit(Spans(rs), addr, k); }
  }

  /** The verdict is the same for every map, and without one, exactly for the addresses
      below 64 KiB and for the signals that are not memory faults. */
  lemma MapIndependentIff(signal: i32, addr: u64)
    ensures (forall t, t': Option<string> :: AnalysisOf(signal, addr, t) == AnalysisOf(signal, addr, t'))
            <==> addr < LOW_MEMORY || !IsMemoryFault(signal)
  {
    if addr >= LOW_MEMORY && IsMemoryFault(signal) {
      assert Regions(ScanLines("")) == [];
      assert AnalysisOf(signal, addr, None).memoryType == Unknown;
      assert AnalysisOf(signal, addr, Some("")).memoryType == Unmapped;
    }
  }
}
