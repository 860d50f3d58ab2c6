// The string functions of the Go library that the parsers of /proc/<pid>/maps use.

module Text {
  import opened Types

  // ----- strings.Fields

  /** unicode.IsSpace */
  predicate IsSpace(c: char) {
    || '\t' <= c <= '\r' || c == ' '
    || c == '\U{85}' || c == '\U{A0}' || c == '\U{1680}'
    || '\U{2000}' <= c <= '\U{200A}' || c == '\U{2028}' || c == '\U{2029}'
    || c == '\U{202F}' || c == '\U{205F}' || c == '\U{3000}'
  }

  /** The 25 characters that Unicode calls white space. */
  lemma SpacesAre(c: char)
    ensures IsSpace(c) <==> c in {
        '\t', '\n', '\U{B}', '\U{C}', '\r', ' ', '\U{85}', '\U{A0}', '\U{1680}',
        '\U{2000}', '\U{2001}', '\U{2002}', '\U{2003}', '\U{2004}', '\U{2005}', '\U{2006}', '\U{2007}',
        '\U{2008}', '\U{2009}', '\U{200A}', '\U{2028}', '\U{2029}', '\U{202F}', '\U{205F}', '\U{3000}'}
  {
  }

  predicate AllSpace(s: string) {
    forall i :: 0 <= i < |s| ==> IsSpace(s[i])
  }

  predicate IsWord(s: string) {
    s != "" && forall i :: 0 <= i < |s| ==> !IsSpace(s[i])
  }

  function WordLen(s: string): (n: nat)
    ensures n <= |s| && (s != "" && !IsSpace(s[0]) ==> n > 0)
  {
    if s == "" || IsSpace(s[0]) then 0 else 1 + WordLen(s[1..])
  }

  function Fields(s: string): seq<string>
    decreases |s|
  {
    if s == "" then []
    else if IsSpace(s[0]) then Fields(s[1..])
    else [s[..WordLen(s)]] + Fields(s[WordLen(s)..])
  }

  lemma {:induction false} SkipSpaces(gap: string, rest: string)
    requires AllSpace(gap)
    ensures Fields(gap + rest) == Fields(rest)
  {
    if gap == "" {
      assert gap + rest == rest;
    } else {
      SkipSpaces(gap[1..], rest);
      assert (gap + rest)[1..] == gap[1..] + rest;
    }
  }

  lemma {:induction false} WordLenOf(w: string, rest: string)
    requires forall i :: 0 <= i < |w| ==> !IsSpace(w[i])
    requires rest == "" || IsSpace(rest[0])
    ensures WordLen(w + rest) == |w|
  {
    if w == "" {
      assert w + rest == rest;
    } else {
      WordLenOf(w[1..], rest);
      assert (w + rest)[1..] == w[1..] + rest;
    }
  }

  lemma TakeWord(w: string, rest: string)
    requires IsWord(w) && (rest == "" || IsSpace(rest[0]))
    ensures Fields(w + rest) == [w] + Fields(rest)
  {
    WordLenOf(w, rest);
    assert (w + rest)[..|w|] == w && (w + rest)[|w|..] == rest;
  }

  /** words set between gaps: any whitespace around them, at least some between two. */
  predicate GapsFit(words: seq<string>, gaps: seq<string>) {
    && |gaps| == |words| + 1
    && (forall i :: 0 <= i < |words| ==> IsWord(words[i]))
    && (forall i :: 0 <= i < |gaps| ==> AllSpace(gaps[i]))
    && (forall i :: 0 < i < |words| ==> gaps[i] != "")
  }

  function Weave(words: seq<string>, gaps: seq<string>): string
    requires |gaps| == |words| + 1
  {
    if words == [] then gaps[0] else gaps[0] + (words[0] + Weave(words[1..], gaps[1..]))
  }

  lemma {:induction false} FieldsOfWoven(words: seq<string>, gaps: seq<string>)
    requires GapsFit(words, gaps)
    ensures Fields(Weave(words, gaps)) == words
  {
    if words == [] {
      SkipSpaces(gaps[0], "");
      assert gaps[0] + "" == gaps[0];
    } else {
      var rest := Weave(words[1..], gaps[1..]);
      SkipSpaces(gaps[0], words[0] + rest);
      FieldsOfWoven(words[1..], gaps[1..]);
      if |words| > 1 { assert rest[0] == gaps[1][0]; }
      TakeWord(words[0], rest);
    }
  }

  /** Whitespace behind a line changes nothing. */
  lemma {:induction false} TrailingSpace(s: string, c: char)
    requires IsSpace(c)
    ensures Fields(s + [c]) == Fields(s)
    decreases |s|
  {
    if s == "" {
      assert s + [c] == [c];
    } else if IsSpace(s[0]) {
      TrailingSpace(s[1..], c);
      assert (s + [c])[1..] == s[1..] + [c];
    } else {
      var n := WordLen(s);
      WordLenSplits(s);
      var rest := s[n..];
      assert s + [c] == s[..n] + (rest + [c]) && s == s[..n] + rest;
      TrailingSpace(rest, c);
      TakeWord(s[..n], rest + [c]);
      TakeWord(s[..n], rest);
    }
  }

  lemma {:induction false} WordLenSplits(s: string)
    ensures var n := WordLen(s);
      && (forall i :: 0 <= i < n ==> !IsSpace(s[i]))
      && (n < |s| ==> IsSpace(s[n]))
  {
    if s != "" && !IsSpace(s[0]) {
      WordLenSplits(s[1..]);
      forall i | 0 < i < WordLen(s) ensures !IsSpace(s[i]) {
        assert s[i] == s[1..][i - 1];
      }
    }
  }

  // ----- strings.Split and strings.Join

  function SplitOn(s: string, c: char): (parts: seq<string>)
    ensures parts != []
  {
    if s == "" then [""]
    else
      var parts := SplitOn(s[1..], c);
      if s[0] == c then [""] + parts else [[s[0]] + parts[0]] + parts[1..]
  }

  lemma {:induction false} SplitNone(s: string, c: char)
    requires c !in s
    ensures SplitOn(s, c) == [s]
  {
    if s != "" {
      SplitNone(s[1..], c);
      assert [s[0]] + s[1..] == s;
    }
  }

  lemma {:induction false} SplitOnce(a: string, b: string, c: char)
    requires c !in a && c !in b
    ensures SplitOn(a + [c] + b, c) == [a, b]
  {
    if a == "" {
      SplitNone(b, c);
      assert (a + [c] + b)[1..] == b;
    } else {
      SplitOnce(a[1..], b, c);
      assert (a + [c] + b)[1..] == a[1..] + [c] + b;
      assert [a[0]] + a[1..] == a;
    }
  }

  function Glue(parts: seq<string>, c: char): string
    requires parts != []
  {
    if |parts| == 1 then parts[0] else parts[0] + [c] + Glue(parts[1..], c)
  }

  /** The parts contain no separator and make up the string again. */
  lemma {:induction false} SplitParts(s: string, c: char)
    ensures forall k :: 0 <= k < |SplitOn(s, c)| ==> c !in SplitOn(s, c)[k]
    ensures Glue(SplitOn(s, c), c) == s
  {
    if s != "" {
      SplitParts(s[1..], c);
      var parts := SplitOn(s[1..], c);
      if s[0] == c {
        assert ([""] + parts)[1..] == parts;
      } else if |parts| > 1 {
        assert ([[s[0]] + parts[0]] + parts[1..])[1..] == parts[1..];
      }
    }
  }

  /** Two parts: exactly one separator. */
  lemma SplitInTwo(s: string, c: char)
    ensures |SplitOn(s, c)| == 2 <==> exists a, b :: c !in a && c !in b && s == a + [c] + b
  {
    if |SplitOn(s, c)| == 2 {
      SplitParts(s, c);
      var a, b := SplitOn(s, c)[0], SplitOn(s, c)[1];
      assert s == a + [c] + b;
    }
    if a, b :| c !in a && c !in b && s == a + [c] + b { SplitOnce(a, b, c); }
  }

  function Join(words: seq<string>): string {
    if words == [] then ""
    else if |words| == 1 then words[0]
    else words[0] + " " + Join(words[1..])
  }

  // ----- numerals

  function DigitOf(c: char): Option<nat> {
    if '0' <= c <= '9' then Some(c as int - '0' as int)
    else if 'a' <= c <= 'z' then Some(c as int - 'a' as int + 10)
    else if 'A' <= c <= 'Z' then Some(c as int - 'A' as int + 10)
    else None
  }

  predicate IsDigit(c: char, base: nat) {
    DigitOf(c).Some? && DigitOf(c).value < base
  }

  predicate AllDigits(s: string, base: nat) {
    forall i :: 0 <= i < |s| ==> IsDigit(s[i], base)
  }

  /** The number written as n followed by one more digit. */
  function Extend(n: nat, base: nat, d: nat): nat {
    n * base + d
  }

  /** The number written as n followed by the digits s. */
  function ValueFrom(s: string, base: nat, n: nat): nat
    requires AllDigits(s, base)
  {
    if s == "" then n else ValueFrom(s[1..], base, Extend(n, base, DigitOf(s[0]).value))
  }

  /** s is a numeral for v: leading zeros and either letter case are fine. */
  predicate Numeral(s: string, base: nat, v: nat) {
    s != "" && AllDigits(s, base) && ValueFrom(s, base, 0) == v
  }

  /** The value strconv.ParseUint hands back even when it also returns an error. */
  datatype Parsed = Parsed(value: u64, ok: bool)

  function ParseFrom(s: string, base: nat, n: u64): Parsed {
    if s == "" then Parsed(n, true)
    else if !IsDigit(s[0], base) then Parsed(0, false)
    else
      var n' := Extend(n, base, DigitOf(s[0]).value);
      if n' >= TWO_64 then Parsed(TWO_64 - 1, false) else ParseFrom(s[1..], base, n')
  }

  /** strconv.ParseUint(s, base, 64) */
  function ParseUint(s: string, base: nat): Parsed {
    if s == "" then Parsed(0, false) else ParseFrom(s, base, 0)
  }

  /** The longest front of s that consists of digits. */
  function DigitPrefix(s: string, base: nat): (p: string)
    ensures AllDigits(p, base)
  {
    if s == "" || !IsDigit(s[0], base) then "" else [s[0]] + DigitPrefix(s[1..], base)
  }

  /** What fmt.Sscanf(s, "%x", &v) leaves in v, which was zero. */
  function ScanHex(s: string): u64 {
    var p := ParseUint(DigitPrefix(s, 16), 16);
    if p.ok then p.value else 0
  }

  lemma ValueGrows(s: string, base: nat, n: nat)
    requires AllDigits(s, base) && base > 0
    ensures ValueFrom(s, base, n) >= n
  {
    if s != "" {
      assert n * base >= n;
      ValueGrows(s[1..], base, Extend(n, base, DigitOf(s[0]).value));
    }
  }

  /** ParseUint by the digits in front: out of range beats a bad character behind. */
  lemma {:induction false} ParseMeaning(s: string, base: nat, n: u64)
    requires base > 0
    ensures var p := DigitPrefix(s, base);
      ParseFrom(s, base, n) ==
      if ValueFrom(p, base, n) >= TWO_64 then Parsed(TWO_64 - 1, false)
      else if p == s then Parsed(ValueFrom(p, base, n), true)
      else Parsed(0, false)
  {
    hide Extend;
    if s != "" && IsDigit(s[0], base) {
      var p := DigitPrefix(s, base);
      assert p[1..] == DigitPrefix(s[1..], base);
      var n' := Extend(n, base, DigitOf(s[0]).value);
      if n' >= TWO_64 {
        ValueGrows(p[1..], base, n');
      } else {
        ParseMeaning(s[1..], base, n');
        assert p == s <==> p[1..] == s[1..];
      }
    }
  }

  lemma {:induction false} PrefixOfDigits(s: string, base: nat)
    requires AllDigits(s, base)
    ensures DigitPrefix(s, base) == s
  {
    if s != "" { PrefixOfDigits(s[1..], base); }
  }

  lemma NumeralParses(s: string, base: nat, v: nat)
    requires base > 0 && Numeral(s, base, v) && v < TWO_64
    ensures ParseUint(s, base) == Parsed(v, true)
    ensures base == 16 ==> ScanHex(s) == v
  {
    PrefixOfDigits(s, base);
    ParseMeaning(s, base, 0);
  }

  /** On one token the two ways of reading hexadecimal agree exactly when its leading hex
      digits are in range and are either the whole token or worth nothing. */
  lemma HexReadersAgree(s: string)
    ensures ParseUint(s, 16).value == ScanHex(s) <==>
      var v := ValueFrom(DigitPrefix(s, 16), 16, 0);
      v < TWO_64 && (DigitPrefix(s, 16) == s || v == 0)
  {
    var p := DigitPrefix(s, 16);
    PrefixOfDigits(p, 16);
    ParseMeaning(s, 16, 0);
    ParseMeaning(p, 16, 0);
  }

  // ----- fmt's %x

  function HexDigit(d: nat): char
    requires d < 16
  {
    if d < 10 then '0' + d as char else 'a' + (d - 10) as char
  }

  function Hex(n: nat): string {
    if n < 16 then [HexDigit(n)] else Hex(n / 16) + [HexDigit(n % 16)]
  }

  lemma {:induction false} ValueSnoc(s: string, c: char, base: nat, n: nat)
    requires AllDigits(s, base) && IsDigit(c, base)
    ensures AllDigits(s + [c], base)
    ensures ValueFrom(s + [c], base, n) == ValueFrom(s, base, n) * base + DigitOf(c).value
    decreases |s|
  {
    if s == "" {
      assert s + [c] == [c];
    } else {
      ValueSnoc(s[1..], c, base, Extend(n, base, DigitOf(s[0]).value));
      assert (s + [c])[1..] == s[1..] + [c];
    }
  }

  /** Printing in hexadecimal and reading back is the identity. */
  lemma {:induction false} HexRoundTrip(n: nat)
    ensures Numeral(Hex(n), 16, n)
  {
    if n >= 16 {
      HexRoundTrip(n / 16);
      ValueSnoc(Hex(n / 16), HexDigit(n % 16), 16, 0);
    }
  }

  /** What the digits are worth, letters in either case. */
  lemma DigitsAre(d: nat)
    requires d < 16
    ensures DigitOf("0123456789abcdef"[d]) == Some(d) && DigitOf("0123456789ABCDEF"[d]) == Some(d)
    ensures HexDigit(d) == "0123456789abcdef"[d]
  {
  }

  /** Printed in lower case and without leading zeros. */
  lemma {:induction false} HexShape(n: nat)
    ensures Hex(n) != "" && (n > 0 ==> Hex(n)[0] != '0') && (n == 0 ==> Hex(n) == "0")
    ensures forall k :: 0 <= k < |Hex(n)| ==> Hex(n)[k] in "0123456789abcdef"
  {
    if n < 16 {
      DigitsAre(n);
    } else {
      HexShape(n / 16);
      DigitsAre(n % 16);
    }
  }
}
