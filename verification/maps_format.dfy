// The two independent parsers of /proc/<pid>/maps: one for crash analysis, one for the
// stack resolver.

module MapsFormat {
  import opened Types
  import opened Text

  datatype MemoryRegion = MemoryRegion(
    start: u64, end: u64, permissions: string, offset: u64, device: string, inode: u64, path: string)

  /** The resolver's own record of a region. */
  datatype Mapping = Mapping(start: u64, end: u64, perms: string, offset: u64, path: string)

  function AsMapping(r: MemoryRegion): Mapping {
    Mapping(r.start, r.end, r.permissions, r.offset, r.path)
  }

  function PathOf(fields: seq<string>): string
    requires |fields| >= 5
  {
    if |fields| > 5 then Join(fields[5..]) else ""
  }

  /** parseMapLine: None where it returns an error. Number errors are ignored. */
  function ParseMapLine(line: string): Option<MemoryRegion> {
    RegionOf(Fields(line))
  }

  function RegionOf(fields: seq<string>): Option<MemoryRegion> {
    if |fields| < 5 then None
    else
      var addrRange := SplitOn(fields[0], '-');
      if |addrRange| != 2 then None
      else Some(MemoryRegion(
        ParseUint(addrRange[0], 16).value,
        ParseUint(addrRange[1], 16).value,
        fields[1],
        ParseUint(fields[2], 16).value,
        fields[3],
        ParseUint(fields[4], 10).value,
        PathOf(fields)))
  }

  /** One round of the resolver's loop: None where it skips the line. */
  function ParseMapping(line: string): Option<Mapping> {
    if line == "" then None else MappingOf(Fields(line))
  }

  function MappingOf(fields: seq<string>): Option<Mapping> {
    if |fields| < 5 then None
    else
      var addrRange := SplitOn(fields[0], '-');
      if |addrRange| != 2 then None
      else Some(Mapping(
        ScanHex(addrRange[0]), ScanHex(addrRange[1]), fields[1], ScanHex(fields[2]), PathOf(fields)))
  }

  // ----- whole files

  function Regions(lines: seq<string>): seq<MemoryRegion> {
    if lines == [] then []
    else
      match ParseMapLine(lines[|lines| - 1])
      case None => Regions(lines[..|lines| - 1])
      case Some(r) => Regions(lines[..|lines| - 1]) + [r]
  }

  function Mappings(lines: seq<string>): seq<Mapping> {
    if lines == [] then []
    else
      match ParseMapping(lines[|lines| - 1])
      case None => Mappings(lines[..|lines| - 1])
      case Some(m) => Mappings(lines[..|lines| - 1]) + [m]
  }

  function DropCR(line: string): string {
    if line != "" && line[|line| - 1] == '\r' then line[..|line| - 1] else line
  }

  /** The lines bufio.Scanner yields: no terminators, no empty last line. */
  function ScanLines(text: string): seq<string> {
    var parts := SplitOn(text, '\n');
    var last := |parts| - 1;
    var whole := if parts[last] == "" then parts[..last] else parts;
    seq(|whole|, i requires 0 <= i < |whole| => DropCR(whole[i]))
  }

  datatype MemoryMap = MemoryMap(
    regions: seq<MemoryRegion>, heap: Option<MemoryRegion>, stack: Option<MemoryRegion>)

  function LastNamed(rs: seq<MemoryRegion>, path: string): Option<MemoryRegion> {
    if rs == [] then None
    else if rs[|rs| - 1].path == path then Some(rs[|rs| - 1])
    else LastNamed(rs[..|rs| - 1], path)
  }

  /** The text of the maps file, or None when it cannot be opened. */
  method ParseMemoryMaps(text: Option<string>) returns (mm: Option<MemoryMap>)
    ensures mm.None? <==> text.None?
    ensures mm.Some? ==>
      var rs := Regions(ScanLines(text.value));
      mm.value == MemoryMap(rs, LastNamed(rs, "[heap]"), LastNamed(rs, "[stack]"))
  {
    if text.None? {
      return None;
    }
    var lines := ScanLines(text.value);
    var regions: seq<MemoryRegion> := [];
    var heap: Option<MemoryRegion> := None;
    var stack: Option<MemoryRegion> := None;
    for i := 0 to |lines|
      invariant regions == Regions(lines[..i])
      invariant heap == LastNamed(regions, "[heap]") && stack == LastNamed(regions, "[stack]")
    {
      assert lines[..i + 1][..i] == lines[..i];
      var region := ParseMapLine(lines[i]);
      if region.Some? {
        assert (regions + [region.value])[..|regions|] == regions;
        regions := regions + [region.value];
        if region.value.path == "[heap]" {
          heap := region;
        } else if region.value.path == "[stack]" {
          stack := region;
        }
      }
    }
    assert lines[..|lines|] == lines;
    return Some(MemoryMap(regions, heap, stack));
  }

  method ParseProcessMaps(text: Option<string>) returns (maps: Option<seq<Mapping>>)
    ensures maps == if text.None? then None else Some(Mappings(SplitOn(text.value, '\n')))
  {
    if text.None? {
      return None;
    }
    var lines := SplitOn(text.value, '\n');
    var found: seq<Mapping> := [];
    for i := 0 to |lines|
      invariant found == Mappings(lines[..i])
    {
      assert lines[..i + 1][..i] == lines[..i];
      var m := ParseMapping(lines[i]);
      if m.Some? {
        found := found + [m.value];
      }
    }
    assert lines[..|lines|] == lines;
    return Some(found);
  }

  // ----- round trip

  lemma {:induction false} DigitsAreNoSpace(s: string, base: nat)
    requires AllDigits(s, base)
    ensures forall i :: 0 <= i < |s| ==> !IsSpace(s[i]) && s[i] != '-'
  {
    forall i | 0 <= i < |s| ensures !IsSpace(s[i]) && s[i] != '-' {
      assert IsDigit(s[i], base);
    }
  }

  /** The numerals and path words a line is written with. */
  datatype Rendering = Rendering(start: string, end: string, offset: string, inode: string, words: seq<string>)

  predicate Renders(w: Rendering, r: MemoryRegion) {
    && Numeral(w.start, 16, r.start) && Numeral(w.end, 16, r.end) && Numeral(w.offset, 16, r.offset)
    && Numeral(w.inode, 10, r.inode)
    && IsWord(r.permissions) && IsWord(r.device)
    && (forall i :: 0 <= i < |w.words| ==> IsWord(w.words[i]))
    && r.path == Join(w.words)
  }

  function LineWords(w: Rendering, r: MemoryRegion): seq<string> {
    [w.start + "-" + w.end, r.permissions, w.offset, r.device, w.inode] + w.words
  }

  lemma LineIsWords(r: MemoryRegion, w: Rendering)
    requires Renders(w, r)
    ensures forall i :: 0 <= i < |LineWords(w, r)| ==> IsWord(LineWords(w, r)[i])
  {
    DigitsAreNoSpace(w.start, 16);
    DigitsAreNoSpace(w.end, 16);
    DigitsAreNoSpace(w.offset, 16);
    DigitsAreNoSpace(w.inode, 10);
    assert IsWord(w.start + "-" + w.end) && IsWord(w.offset) && IsWord(w.inode);
    var front := [w.start + "-" + w.end, r.permissions, w.offset, r.device, w.inode];
    forall i | 0 <= i < |front| ensures IsWord(front[i]) {}
  }

  lemma WordsReadBack(r: MemoryRegion, w: Rendering)
    requires Renders(w, r)
    ensures RegionOf(LineWords(w, r)) == Some(r) && MappingOf(LineWords(w, r)) == Some(AsMapping(r))
  {
    DigitsAreNoSpace(w.start, 16);
    DigitsAreNoSpace(w.end, 16);
    SplitOnce(w.start, w.end, '-');
    NumeralParses(w.start, 16, r.start);
    NumeralParses(w.end, 16, r.end);
    NumeralParses(w.offset, 16, r.offset);
    NumeralParses(w.inode, 10, r.inode);
    assert LineWords(w, r)[5..] == w.words;
  }

  /** Any region, with any numerals for its numbers, any spacing and any path whose words
      are single-spaced, is read back by both parsers. */
  lemma LineRoundTrip(r: MemoryRegion, w: Rendering, gaps: seq<string>)
    requires Renders(w, r)
    requires |gaps| == 6 + |w.words|
    requires forall i :: 0 <= i < |gaps| ==> AllSpace(gaps[i])
    requires forall i :: 0 < i < |gaps| - 1 ==> gaps[i] != ""
    ensures ParseMapLine(Weave(LineWords(w, r), gaps)) == Some(r)
    ensures ParseMapping(Weave(LineWords(w, r), gaps)) == Some(AsMapping(r))
  {
    LineIsWords(r, w);
    FieldsOfWoven(LineWords(w, r), gaps);
    WordsReadBack(r, w);
  }

  /** A line is rejected, by either parser, exactly when it has fewer than five words or
      its first is not two parts around a single dash. */
  lemma RejectedIff(line: string)
    ensures ParseMapLine(line).None? <==>
      || |Fields(line)| < 5
      || !exists a, b :: '-' !in a && '-' !in b && Fields(line)[0] == a + ['-'] + b
    ensures ParseMapping(line).None? <==> ParseMapLine(line).None?
  {
    if |Fields(line)| >= 5 { SplitInTwo(Fields(line)[0], '-'); }
  }

  /** The regions of a file are those of its lines in order, one for each accepted line. */
  lemma {:induction false} RegionsInOrder(a: seq<string>, b: seq<string>)
    ensures Regions(a + b) == Regions(a) + Regions(b)
  {
    hide ParseMapLine;
    if b == [] {
      assert a + b == a;
    } else {
      var n := |b| - 1;
      RegionsInOrder(a, b[..n]);
      assert (a + b)[..|a + b| - 1] == a + b[..n];
    }
  }

  lemma OneLine(line: string)
    ensures Regions([line]) == match ParseMapLine(line) case None => [] case Some(r) => [r]
    ensures Mappings([line]) == match ParseMapping(line) case None => [] case Some(m) => [m]
  {
    hide ParseMapLine, ParseMapping;
    assert [line][..0] == [];
  }

  lemma {:induction false} MappingsInOrder(a: seq<string>, b: seq<string>)
    ensures Mappings(a + b) == Mappings(a) + Mappings(b)
  {
    hide ParseMapping;
    if b == [] {
      assert a + b == a;
    } else {
      var n := |b| - 1;
      MappingsInOrder(a, b[..n]);
      assert (a + b)[..|a + b| - 1] == a + b[..n];
    }
  }

  /** The heap and the stack are the last regions of those names. */
  lemma {:induction false} LastNamedIs(rs: seq<MemoryRegion>, path: string)
    ensures match LastNamed(rs, path)
      case None => forall i :: 0 <= i < |rs| ==> rs[i].path != path
      case Some(r) => exists i :: 0 <= i < |rs| && rs[i] == r && r.path == path
                                  && forall j :: i < j < |rs| ==> rs[j].path != path
  {
    if rs != [] { LastNamedIs(rs[..|rs| - 1], path); }
  }

  // ----- agreement

  predicate TokenAgrees(s: string) {
    var v := ValueFrom(DigitPrefix(s, 16), 16, 0);
    v < TWO_64 && (DigitPrefix(s, 16) == s || v == 0)
  }

  /** The number tokens of a line that both parsers accept. */
  predicate NumbersAgree(line: string) {
    var fields := Fields(line);
    |fields| >= 5 ==>
      var range := SplitOn(fields[0], '-');
      |range| == 2 ==> TokenAgrees(range[0]) && TokenAgrees(range[1]) && TokenAgrees(fields[2])
  }

  /** For every line whatever, well formed or not: both parsers accept it or neither
      does, and they agree on it exactly when its number tokens allow. */
  lemma ParsersAgreeIff(line: string)
    ensures ParseMapLine(line).Some? <==> ParseMapping(line).Some?
    ensures (match ParseMapLine(line)
             case None => true
             case Some(r) => ParseMapping(line) == Some(AsMapping(r))) <==> NumbersAgree(line)
    ensures ParseMapLine(line).Some? ==>
      var r, m := ParseMapLine(line).value, ParseMapping(line).value;
      r.permissions == m.perms && r.path == m.path
  {
    var fields := Fields(line);
    if |fields| >= 5 {
      var range := SplitOn(fields[0], '-');
      if |range| == 2 {
        HexReadersAgree(range[0]);
        HexReadersAgree(range[1]);
        HexReadersAgree(fields[2]);
      }
    }
  }

  /** A number with something behind its digits: one parser reads 0, the other the digits. */
  lemma ParsersDisagree(gaps: seq<string>)
    requires gaps == ["", " ", " ", " ", " ", ""]
    ensures var line := Weave(["1g-2", "r", "0", "d", "0"], gaps);
      && ParseMapLine(line).Some? && ParseMapLine(line).value.start == 0
      && ParseMapping(line).Some? && ParseMapping(line).value.start == 1
  {
    assert Fields("") == [];
    hide Fields, Weave, SplitOn, ParseUint, ScanHex;
    var words := ["1g-2", "r", "0", "d", "0"];
    FieldsOfWoven(words, gaps);
    SplitOnce("1g", "2", '-');
    assert words[0] == "1g" + ['-'] + "2";
    TokenDisagrees();
  }

  lemma TokenDisagrees()
    ensures ParseUint("1g", 16).value == 0 && ScanHex("1g") == 1
  {
    assert DigitPrefix("1g", 16) == "1" by { assert "1g"[1..] == "g"; }
    ParseMeaning("1g", 16, 0);
    assert Numeral("1", 16, 1);
    NumeralParses("1", 16, 1);
  }

  lemma CarriageReturn(line: string)
    ensures ParseMapLine(DropCR(line)) == ParseMapLine(line)
  {
    if line != "" && line[|line| - 1] == '\r' {
      TrailingSpace(DropCR(line), '\r');
      assert line == DropCR(line) + ['\r'];
    }
  }

  lemma LineMatches(line: string, clean: string)
    requires clean == DropCR(line) && NumbersAgree(line)
    ensures ParseMapLine(clean).None? <==> ParseMapping(line).None?
    ensures ParseMapLine(clean).Some? ==> ParseMapping(line).value == AsMapping(ParseMapLine(clean).value)
  {
    CarriageReturn(line);
    ParsersAgreeIff(line);
  }

  lemma {:induction false} RegionsMatch(lines: seq<string>, clean: seq<string>)
    requires |clean| == |lines| && forall i :: 0 <= i < |lines| ==> clean[i] == DropCR(lines[i])
    requires forall i :: 0 <= i < |lines| ==> NumbersAgree(lines[i])
    ensures |Mappings(lines)| == |Regions(clean)|
    ensures forall i :: 0 <= i < |Mappings(lines)| ==> Mappings(lines)[i] == AsMapping(Regions(clean)[i])
  {
    hide ParseMapLine, ParseMapping, DropCR, NumbersAgree;
    if lines != [] {
      var n := |lines| - 1;
      RegionsMatch(lines[..n], clean[..n]);
      LineMatches(lines[n], clean[n]);
    }
  }

  /** On a whole file whose number tokens are in order the two parsers build the same
      list of regions, though they cut it into lines differently. */
  lemma FilesAgree(text: string)
    requires forall l :: l in SplitOn(text, '\n') ==> NumbersAgree(l)
    ensures var rs, ms := Regions(ScanLines(text)), Mappings(SplitOn(text, '\n'));
      |ms| == |rs| && forall i :: 0 <= i < |ms| ==> ms[i] == AsMapping(rs[i])
  {
    var parts := SplitOn(text, '\n');
    var last := |parts| - 1;
    if parts[last] == "" {
      RegionsMatch(parts[..last], ScanLines(text));
    } else {
      RegionsMatch(parts, ScanLines(text));
    }
  }
}
