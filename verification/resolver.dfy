// Turning raw instruction addresses into module, file offset and function name.

module Resolver {
  import opened Types
  import opened Text
  import opened MapsFormat
  import opened Intervals

  datatype Symbol = Symbol(value: u64, size: u64, info: byte, name: string)

  const STT_FUNC := 2

  /** The symbols of every binary, as debug/elf reads them: None when the file cannot be
      opened or has no symbol table. Fixed for the life of the program. */
  type Tables = string -> Option<seq<Symbol>>

  // ----- what a lookup should find

  /** A named function symbol that starts at or before the offset and reaches it; a symbol
      of unknown size reaches 4096 bytes. */
  predicate Covers(s: Symbol, offset: u64) {
    && s.info % 0x10 == STT_FUNC
    && s.name != ""
    && s.value <= offset
    && offset - s.value < if s.size > 0 then s.size else 4096
  }

  /** k is the first covering symbol at minimal distance. */
  ghost predicate IsNearest(symbols: seq<Symbol>, offset: u64, k: nat) {
    && k < |symbols| && Covers(symbols[k], offset)
    && forall i :: 0 <= i < |symbols| && Covers(symbols[i], offset) ==>
         symbols[i].value <= symbols[k].value && (i < k ==> symbols[i].value < symbols[k].value)
  }

  function Nearest(symbols: seq<Symbol>, offset: u64): (r: Option<nat>)
    ensures r.Some? ==> r.value < |symbols| && Covers(symbols[r.value], offset)
  {
    if symbols == [] then None
    else
      var n := |symbols| - 1;
      var best := Nearest(symbols[..n], offset);
      if Covers(symbols[n], offset) && (best.None? || symbols[best.value].value < symbols[n].value)
      then Some(n) else best
  }

  lemma {:induction false} NearestIsNearest(symbols: seq<Symbol>, offset: u64)
    ensures var r := Nearest(symbols, offset);
      match r
      case None => forall i :: 0 <= i < |symbols| ==> !Covers(symbols[i], offset)
      case Some(k) => IsNearest(symbols, offset, k)
  {
    if symbols != [] { NearestIsNearest(symbols[..|symbols| - 1], offset); }
  }

  /** The search returns k exactly when k is the first symbol at minimal distance among
      those that cover the offset, and nothing exactly when none does. */
  lemma NearestIff(symbols: seq<Symbol>, offset: u64, k: nat)
    ensures Nearest(symbols, offset) == Some(k) <==> IsNearest(symbols, offset, k)
    ensures Nearest(symbols, offset) == None <==> forall i :: 0 <= i < |symbols| ==> !Covers(symbols[i], offset)
  {
    NearestIsNearest(symbols, offset);
  }

  function NameAt(s: Symbol, offset: u64): string
    requires s.value <= offset
  {
    if offset > s.value then s.name + "+0x" + Hex(offset - s.value) else s.name
  }

  /** The answer computed from the symbol table alone: "" when nothing covers. */
  function Uncached(tables: Tables, path: string, offset: u64): string {
    match tables(path)
    case None => ""
    case Some(symbols) =>
      match Nearest(symbols, offset)
      case None => ""
      case Some(k) => NameAt(symbols[k], offset)
  }

  /** A symbol found is printed with its distance in hexadecimal, if any: symbol k is a
      named function whose range, of 4096 bytes when its size is unknown, holds the offset,
      and none of the others that do starts later, or as late and earlier in the table. */
  lemma AnswerIs(tables: Tables, path: string, offset: u64, k: nat)
    requires tables(path).Some? && k < |tables(path).value|
    requires var s := tables(path).value[k];
      && s.info % 0x10 == 2 && s.name != ""
      && s.value <= offset < s.value + (if s.size > 0 then s.size else 4096)
    requires forall i :: 0 <= i < |tables(path).value| ==>
      var s, best := tables(path).value[i], tables(path).value[k];
      && s.info % 0x10 == 2 && s.name != ""
      && s.value <= offset < s.value + (if s.size > 0 then s.size else 4096)
      ==> s.value < best.value || (s.value == best.value && k <= i)
    ensures var s := tables(path).value[k];
      Uncached(tables, path, offset) == (if offset == s.value then s.name else s.name + "+0x" + Hex(offset - s.value))
  {
    hide Hex, Nearest;
    var symbols := tables(path).value;
    forall i | 0 <= i < |symbols| && Covers(symbols[i], offset)
      ensures symbols[i].value <= symbols[k].value && (i < k ==> symbols[i].value < symbols[k].value) {}
    NearestIff(symbols, offset, k);
  }

  /** There is no answer exactly when the file has no symbol table or no named function
      symbol's range holds the offset. */
  lemma NoAnswerIff(tables: Tables, path: string, offset: u64)
    ensures Uncached(tables, path, offset) == "" <==>
      || tables(path).None?
      || forall i :: 0 <= i < |tables(path).value| ==>
           var s := tables(path).value[i];
           !(&& s.info % 0x10 == 2 && s.name != ""
             && s.value <= offset < s.value + (if s.size > 0 then s.size else 4096))
  {
    if tables(path).Some? {
      var symbols := tables(path).value;
      NearestIsNearest(symbols, offset);
      forall i | 0 <= i < |symbols|
        ensures Covers(symbols[i], offset) <==>
          var s := symbols[i];
          && s.info % 0x10 == 2 && s.name != ""
          && s.value <= offset < s.value + (if s.size > 0 then s.size else 4096) {}
      hide Covers, Nearest, Hex;
    }
  }

  // ----- frames

  datatype Frame = Frame(pc: u64, functionName: string, mod: string, offset: u64)

  datatype StackTrace = StackTrace(frames: seq<Frame>)

  function StripSlashes(path: string): string {
    if path != "" && path[|path| - 1] == '/' then StripSlashes(path[..|path| - 1]) else path
  }

  function AfterSlash(path: string): string {
    if path == "" || path[|path| - 1] == '/' then "" else AfterSlash(path[..|path| - 1]) + [path[|path| - 1]]
  }

  /** filepath.Base */
  function Base(path: string): string {
    if path == "" then "."
    else if StripSlashes(path) == "" then "/"
    else AfterSlash(StripSlashes(path))
  }

  /** The name of a file, whatever directory it is in and however many slashes follow. */
  lemma {:induction false} BaseIsName(dir: string, name: string, slashes: string)
    requires name != "" && '/' !in name
    requires forall i :: 0 <= i < |slashes| ==> slashes[i] == '/'
    ensures Base(dir + "/" + name + slashes) == name
    decreases |slashes|
  {
    var path := dir + "/" + name + slashes;
    if slashes == "" {
      assert path == dir + "/" + name && path[|path| - 1] in name;
      LastName(dir, name);
    } else {
      var fewer := slashes[..|slashes| - 1];
      BaseIsName(dir, name, fewer);
      assert path[..|path| - 1] == dir + "/" + name + fewer;
    }
  }

  lemma {:induction false} LastName(dir: string, name: string)
    requires '/' !in name
    ensures AfterSlash(dir + "/" + name) == name
  {
    var path := dir + "/" + name;
    if name != "" {
      LastName(dir, name[..|name| - 1]);
      assert path[..|path| - 1] == dir + "/" + name[..|name| - 1];
      assert name[|name| - 1] in name;
    }
  }

  function Spans(maps: seq<Mapping>): seq<Span> {
    seq(|maps|, i requires 0 <= i < |maps| => Span(maps[i].start, maps[i].end))
  }

  /** Whether the resolver asks for symbols of this mapping. */
  predicate IsFile(path: string) {
    path != "" && !("[" <= path)
  }

  function FileOffset(m: Mapping, pc: u64): u64 {
    Wrap(pc - m.start + m.offset)
  }

  /** The symbol found for an address inside mapping m, "" if none. */
  function SymbolIn(tables: Tables, m: Mapping, pc: u64): string {
    if IsFile(m.path) then Uncached(tables, m.path, FileOffset(m, pc)) else ""
  }

  function FrameOf(tables: Tables, pc: u64, maps: seq<Mapping>): Frame {
    var raw := "0x" + Hex(pc);
    match FirstHit(Spans(maps), pc)
    case None => Frame(pc, raw, "unknown", 0)
    case Some(i) =>
      var sym := SymbolIn(tables, maps[i], pc);
      Frame(pc, if sym != "" then sym else raw, Base(maps[i].path), FileOffset(maps[i], pc))
  }

  function FramesOf(tables: Tables, pcs: seq<u64>, maps: seq<Mapping>): seq<Frame> {
    if pcs == [] || pcs[0] == 0 then []
    else [FrameOf(tables, pcs[0], maps)] + FramesOf(tables, pcs[1..], maps)
  }

  function RawFrames(pcs: seq<u64>): seq<Frame> {
    seq(|pcs|, i requires 0 <= i < |pcs| => Frame(pcs[i], "0x" + Hex(pcs[i]), "unknown", 0))
  }

  /** The stack of a process whose maps file reads as text. No cache is involved. */
  function TraceOf(tables: Tables, pcs: seq<u64>, text: Option<string>): StackTrace {
    if text.None? then StackTrace(RawFrames(pcs))
    else StackTrace(FramesOf(tables, pcs, Mappings(SplitOn(text.value, '\n'))))
  }

  /** The frame of an address whose first mapping is i: its file's name, its file offset,
      and the symbol there unless the mapping is anonymous or bracketed. */
  lemma FrameIs(tables: Tables, pc: u64, maps: seq<Mapping>, i: nat)
    requires i < |maps| && maps[i].start <= pc < maps[i].end
    requires forall j :: 0 <= j < i ==> !(maps[j].start <= pc < maps[j].end)
    ensures var f, m := FrameOf(tables, pc, maps), maps[i];
      && f.pc == pc && f.mod == Base(m.path)
      && f.offset == Wrap(pc - m.start + m.offset)
      && f.functionName ==
         if m.path != "" && m.path[0] != '[' && Uncached(tables, m.path, f.offset) != ""
         then Uncached(tables, m.path, f.offset) else "0x" + Hex(pc)
  {
    hide Uncached, Base, Hex, Wrap;
    assert Spans(maps)[i].Contains(pc);
    forall j | 0 <= j < i ensures !Spans(maps)[j].Contains(pc) {}
    assert FirstHit(Spans(maps), pc) == Some(i);
  }

  /** An address in no mapping stays raw. */
  lemma FrameOutside(tables: Tables, pc: u64, maps: seq<Mapping>)
    requires forall j :: 0 <= j < |maps| ==> !(maps[j].start <= pc < maps[j].end)
    ensures FrameOf(tables, pc, maps) == Frame(pc, "0x" + Hex(pc), "unknown", 0)
  {
    hide Hex;
    forall j | 0 <= j < |maps| ensures !Spans(maps)[j].Contains(pc) {}
  }

  /** One frame per address before the first zero, in order. */
  lemma {:induction false} FramesAre(tables: Tables, pcs: seq<u64>, maps: seq<Mapping>)
    ensures var fs := FramesOf(tables, pcs, maps);
      && |fs| <= |pcs|
      && (forall k :: 0 <= k < |fs| ==> pcs[k] != 0 && fs[k] == FrameOf(tables, pcs[k], maps))
      && (|fs| < |pcs| ==> pcs[|fs|] == 0)
  {
    hide FrameOf;
    if pcs != [] && pcs[0] != 0 {
      FramesAre(tables, pcs[1..], maps);
    }
  }

  // ----- the resolver and its cache

  class Symbolizer {
    const tables: Tables

    /** Per path, the answers remembered for it. */
    var cache: map<string, map<u64, string>>

    /** Every remembered answer is what a fresh search would give. */
    ghost predicate Valid()
      reads this
    {
      forall p, o :: p in cache && o in cache[p] ==> cache[p][o] == Uncached(tables, p, o)
    }

    constructor (tables: Tables)
      ensures Valid() && this.tables == tables && cache == map[]
    {
      this.tables := tables;
      cache := map[];
    }

    /** Whatever was looked up before, the answer is the uncached one. A miss that finds a
        symbol forgets everything else remembered for the path. */
    method LookupSymbol(path: string, offset: u64) returns (name: string)
      requires Valid()
      modifies this
      ensures Valid()
      ensures name == Uncached(tables, path, offset)
      ensures cache == if (path in old(cache) && offset in old(cache)[path]) || name == "" then old(cache)
                       else old(cache)[path := map[offset := name]]
    {
      if path in cache && offset in cache[path] {
        return cache[path][offset];
      }
      if tables(path).None? {
        return "";
      }
      var symbols := tables(path).value;
      var best: Option<nat> := None;
      var bestDist: u64 := TWO_64 - 1;
      for i := 0 to |symbols|
        invariant best == Nearest(symbols[..i], offset)
        invariant bestDist == if best.Some? then offset - symbols[best.value].value else TWO_64 - 1
      {
        assert symbols[..i + 1][..i] == symbols[..i];
        var sym := symbols[i];
        if sym.info % 0x10 != STT_FUNC {
          continue;
        }
        if sym.name == "" {
          continue;
        }
        if sym.value > offset {
          continue;
        }
        var dist := offset - sym.value;
        var withinBounds := false;
        if sym.size > 0 {
          withinBounds := dist < sym.size;
        } else {
          withinBounds := dist < 4096;
        }
        if withinBounds && dist < bestDist {
          best := Some(i);
          bestDist := dist;
        }
      }
      assert symbols[..|symbols|] == symbols;
      if best.Some? {
        name := symbols[best.value].name;
        if bestDist > 0 {
          name := name + "+0x" + Hex(bestDist);
        }
        cache := cache[path := map[offset := name]];
        return;
      }
      return "";
    }

    /** Fill a frame from the mapping its address lies in. */
    method FillFrame(raw: Frame, m: Mapping) returns (frame: Frame)
      requires Valid()
      modifies this
      ensures Valid()
      ensures var sym := SymbolIn(tables, m, raw.pc);
        frame == Frame(raw.pc, if sym != "" then sym else raw.functionName, Base(m.path), FileOffset(m, raw.pc))
    {
      hide Uncached, Base;
      var fileOffset := Wrap(raw.pc - m.start + m.offset);
      frame := raw.(mod := Base(m.path), offset := fileOffset);
      if m.path != "" && !("[" <= m.path) {
        var sym := LookupSymbol(m.path, fileOffset);
        if sym != "" {
          frame := frame.(functionName := sym);
        }
      }
    }

    method ResolvePC(pc: u64, maps: seq<Mapping>) returns (frame: Frame)
      requires Valid()
      modifies this
      ensures Valid() && frame == FrameOf(tables, pc, maps)
    {
      hide Hex, Base, Uncached;
      frame := Frame(pc, "0x" + Hex(pc), "unknown", 0);
      for i := 0 to |maps|
        invariant Valid()
        invariant forall j :: 0 <= j < i ==> !Spans(maps)[j].Contains(pc)
        invariant frame == Frame(pc, "0x" + Hex(pc), "unknown", 0)
      {
        var m := maps[i];
        if pc >= m.start && pc < m.end {
          assert Spans(maps)[i].Contains(pc);
          frame := FillFrame(frame, m);
          return;
        }
      }
    }

    method ResolveStackTrace(pcs: seq<u64>, text: Option<string>) returns (trace: StackTrace)
      requires Valid()
      modifies this
      ensures Valid() && trace == TraceOf(tables, pcs, text)
      ensures text.None? ==>
        && |trace.frames| == |pcs|
        && forall k :: 0 <= k < |pcs| ==> trace.frames[k] == Frame(pcs[k], "0x" + Hex(pcs[k]), "unknown", 0)
    {
      hide FrameOf, Mappings, SplitOn, Hex, Uncached;
      if |pcs| == 0 {
        return StackTrace([]);
      }
      var maps := ParseProcessMaps(text);
      var frames: seq<Frame> := [];
      if maps.None? {
        for i := 0 to |pcs|
          invariant Valid() && frames == RawFrames(pcs[..i])
        {
          frames := frames + [Frame(pcs[i], "0x" + Hex(pcs[i]), "unknown", 0)];
        }
        assert pcs[..|pcs|] == pcs;
        return StackTrace(frames);
      }
      var i := 0;
      while i < |pcs|
        invariant Valid() && 0 <= i <= |pcs|
        invariant FramesOf(tables, pcs, maps.value) == frames + FramesOf(tables, pcs[i..], maps.value)
      {
        assert pcs[i..][1..] == pcs[i + 1..];
        if pcs[i] == 0 {
          break;
        }
        var frame := ResolvePC(pcs[i], maps.value);
        frames := frames + [frame];
        i := i + 1;
      }
      assert FramesOf(tables, pcs, maps.value) == frames + [];
      return StackTrace(frames);
    }
  }

  // ----- where the kernel put the mappings does not matter

  /** The same mappings moved to other addresses. */
  ghost predicate Moved(maps: seq<Mapping>, maps': seq<Mapping>) {
    && |maps| == |maps'|
    && Disjoint(Spans(maps)) && Disjoint(Spans(maps'))
    && forall i :: 0 <= i < |maps| ==>
         && maps'[i].end - maps'[i].start == maps[i].end - maps[i].start
         && maps'[i].offset == maps[i].offset && maps'[i].path == maps[i].path
  }

  lemma FrameInside(tables: Tables, maps: seq<Mapping>, i: nat, pc: u64)
    requires Disjoint(Spans(maps)) && i < |maps| && maps[i].start <= pc < maps[i].end
    ensures var f, sym := FrameOf(tables, pc, maps), SymbolIn(tables, maps[i], pc);
      && f.mod == Base(maps[i].path) && f.offset == FileOffset(maps[i], pc)
      && f.functionName == if sym != "" then sym else "0x" + Hex(pc)
  {
    OnlyHit(Spans(maps), pc, i);
  }

  /** An address inside a mapping keeps its module, file offset and symbol wherever the
      mappings are moved. */
  lemma AslrInvariance(tables: Tables, maps: seq<Mapping>, maps': seq<Mapping>, i: nat, pc: u64, pc': u64)
    requires Moved(maps, maps') && i < |maps|
    requires maps[i].start <= pc < maps[i].end && pc' - maps'[i].start == pc - maps[i].start
    ensures var f, f', sym := FrameOf(tables, pc, maps), FrameOf(tables, pc', maps'), SymbolIn(tables, maps[i], pc);
      && f'.mod == f.mod && f'.offset == f.offset
      && f.functionName == (if sym != "" then sym else "0x" + Hex(pc))
      && f'.functionName == (if sym != "" then sym else "0x" + Hex(pc'))
  {
    hide FrameOf, Uncached, Base, Hex;
    FrameInside(tables, maps, i, pc);
    FrameInside(tables, maps', i, pc');
    assert pc' - maps'[i].start + maps'[i].offset == pc - maps[i].start + maps[i].offset;
  }

  lemma OffsetBack(m: Mapping, o: u64)
    requires m.offset <= o < m.offset + (m.end - m.start)
    ensures FileOffset(m, m.start + (o - m.offset)) == o
  {
  }

  /** For every file offset a mapping covers, resolving the address it is mapped at gives
      that offset back. */
  lemma OffsetRoundTrip(tables: Tables, maps: seq<Mapping>, i: nat, o: u64, pc: u64)
    requires Disjoint(Spans(maps)) && i < |maps|
    requires maps[i].offset <= o < maps[i].offset + (maps[i].end - maps[i].start)
    requires pc == maps[i].start + (o - maps[i].offset)
    ensures FrameOf(tables, pc, maps).offset == o
  {
    OffsetBack(maps[i], o);
    FrameInside(tables, maps, i, pc);
  }
}
