/** Python's string primitives, as far as the wiki's parsers use them. */
module Text {
  import opened Sequences

  datatype Option<+T> = None | Some(value: T)

  function Max(a: nat, b: nat): nat {
    if a < b then b else a
  }

  /** `str.isspace` on one character; `str.split`, `str.strip` and the regex class `\s` use the same table. */
  predicate IsSpace(c: char) {
    || '\U{0009}' <= c <= '\U{000D}'
    || '\U{001C}' <= c <= '\U{0020}'
    || c == '\U{0085}' || c == '\U{00A0}' || c == '\U{1680}'
    || '\U{2000}' <= c <= '\U{200A}'
    || c == '\U{2028}' || c == '\U{2029}' || c == '\U{202F}' || c == '\U{205F}' || c == '\U{3000}'
  }

  /** The characters at which `str.splitlines` ends a line. */
  predicate IsLineBreak(c: char) {
    || '\U{000A}' <= c <= '\U{000D}'
    || '\U{001C}' <= c <= '\U{001E}'
    || c == '\U{0085}' || c == '\U{2028}' || c == '\U{2029}'
  }

  /** The two tables by code point. */
  lemma SpacesByCode(c: char)
    ensures var n := c as int;
            && (IsSpace(c) <==>
                  || 9 <= n <= 13 || 28 <= n <= 32 || n == 133 || n == 160 || n == 5760 || 8192 <= n <= 8202
                  || n == 8232 || n == 8233 || n == 8239 || n == 8287 || n == 12288)
            && (IsLineBreak(c) <==> 10 <= n <= 13 || 28 <= n <= 30 || n == 133 || n == 8232 || n == 8233)
            && (IsLineBreak(c) ==> IsSpace(c))
  {
  }

  /** Stripping cuts the whitespace off at both ends and nothing else. */
  lemma StripIsCore(before: string, core: string, after: string)
    requires Blank(before) && Blank(after) && core != "" && !IsSpace(core[0]) && !IsSpace(core[|core| - 1])
    ensures LStrip(before + (core + after)) == core + after && RStrip(before + core + after) == before + core
    ensures Strip(before + (core + after)) == core
  {
    hide IsSpace;
    var right := core + after;
    MarginIs(before + right, |before|);
    assert (before + right)[|before|..] == right && right[0] == core[0];
    ExtentIs(right, |core|);
    assert right[..|core|] == core && right[|core| - 1] == core[|core| - 1];
    var s := before + core + after;
    assert forall i :: |before + core| <= i < |s| ==> s[i] == after[i - |before + core|];
    assert s[|before + core| - 1] == core[|core| - 1];
    ExtentIs(s, |before + core|);
    assert s[..|before + core|] == before + core;
  }

  lemma {:induction false} MarginIs(s: string, n: nat)
    requires n <= |s| && (forall i :: 0 <= i < n ==> IsSpace(s[i])) && (n < |s| ==> !IsSpace(s[n]))
    ensures Margin(s) == n
  {
    hide IsSpace;
    if n > 0 { MarginIs(s[1..], n - 1); }
  }

  lemma {:induction false} ExtentIs(s: string, n: nat)
    requires n <= |s| && (forall i :: n <= i < |s| ==> IsSpace(s[i])) && (n > 0 ==> !IsSpace(s[n - 1]))
    ensures Extent(s) == n
  {
    hide IsSpace;
    if n < |s| { ExtentIs(s[..|s| - 1], n); }
  }

  predicate Blank(s: string) {
    forall i :: 0 <= i < |s| ==> IsSpace(s[i])
  }

  /** A whitespace-separated word: what `str.split()` can produce. */
  predicate Word(s: string) {
    s != "" && forall i :: 0 <= i < |s| ==> !IsSpace(s[i])
  }

  predicate StartsWith(s: string, prefix: string) {
    prefix <= s
  }

  predicate EndsWith(s: string, end: string) {
    |s| >= |end| && s[|s| - |end|..] == end
  }

  /** How many leading characters `str.lstrip` removes. */
  function Margin(s: string): (n: nat)
    ensures n <= |s|
    ensures forall i :: 0 <= i < n ==> IsSpace(s[i])
    ensures n < |s| ==> !IsSpace(s[n])
  {
    if s != "" && IsSpace(s[0]) then 1 + Margin(s[1..]) else 0
  }

  /** How many characters `str.rstrip` keeps. */
  function Extent(s: string): (n: nat)
    ensures n <= |s|
    ensures forall i :: n <= i < |s| ==> IsSpace(s[i])
    ensures n > 0 ==> !IsSpace(s[n - 1])
  {
    if s != "" && IsSpace(s[|s| - 1]) then Extent(s[..|s| - 1]) else |s|
  }

  function LStrip(s: string): string {
    s[Margin(s)..]
  }

  function RStrip(s: string): string {
    s[..Extent(s)]
  }

  function Strip(s: string): string {
    RStrip(LStrip(s))
  }

  function Join(sep: string, parts: seq<string>): string {
    if |parts| == 0 then ""
    else if |parts| == 1 then parts[0]
    else parts[0] + sep + Join(sep, parts[1..])
  }

  lemma StripEmptyIffBlank(s: string)
    ensures Strip(s) == "" <==> Blank(s)
  {
    var m := Margin(s);
    if m < |s| {
      assert s[m..][0] == s[m];
      assert Extent(s[m..]) > 0;
    }
  }

  // ---------------------------------------------------------------------------------------------
  // `str.split("\n")` and `"\n".join`
  // ---------------------------------------------------------------------------------------------

  predicate NewlineFree(s: string) {
    '\n' !in s
  }

  /** `s` up to its first newline. */
  function FirstLine(s: string): (line: string)
    ensures line <= s && NewlineFree(line)
    ensures |line| < |s| ==> s[|line|] == '\n'
    ensures NewlineFree(s) ==> line == s
  {
    if s == "" || s[0] == '\n' then "" else [s[0]] + FirstLine(s[1..])
  }

  function Lines(s: string): (lines: seq<string>)
    ensures |lines| >= 1 && lines[0] == FirstLine(s)
    decreases |s|
  {
    var line := FirstLine(s);
    if |line| == |s| then [line] else [line] + Lines(s[|line| + 1..])
  }

  function Unlines(lines: seq<string>): string {
    Join("\n", lines)
  }

  lemma SplitAtNewline(s: string) returns (rest: string)
    requires !NewlineFree(s)
    ensures Lines(s) == [FirstLine(s)] + Lines(rest) && s == FirstLine(s) + "\n" + rest
    ensures |rest| < |s|
  {
    hide FirstLine;
    var n := |FirstLine(s)|;
    rest := s[n + 1..];
    SplitAround(s, n);
  }

  lemma {:induction false} UnlinesOfLines(s: string)
    ensures Unlines(Lines(s)) == s
    ensures forall i :: 0 <= i < |Lines(s)| ==> NewlineFree(Lines(s)[i])
    decreases |s|
  {
    if NewlineFree(s) {
      assert Lines(s) == [s];
    } else {
      hide Lines, Join;
      var rest := SplitAtNewline(s);
      UnlinesOfLines(rest);
      UnlinesCons(FirstLine(s), Lines(rest));
    }
  }

  lemma {:induction false} FirstLineOf(line: string, rest: string)
    requires NewlineFree(line)
    ensures FirstLine(line + "\n" + rest) == line
  {
    if line != "" {
      assert (line + "\n" + rest)[1..] == line[1..] + "\n" + rest;
      FirstLineOf(line[1..], rest);
    }
  }

  lemma LinesOfCons(line: string, rest: string)
    requires NewlineFree(line)
    ensures Lines(line + "\n" + rest) == [line] + Lines(rest)
  {
    FirstLineOf(line, rest);
    assert (line + "\n" + rest)[|line| + 1..] == rest;
  }

  lemma UnlinesCons(line: string, rest: seq<string>)
    requires rest != []
    ensures Unlines([line] + rest) == line + "\n" + Unlines(rest)
  {
    assert ([line] + rest)[1..] == rest;
  }

  /** Newline-free pieces joined in front of a text come back as its first lines. */
  lemma {:induction false} LinesOfUnlines(pieces: seq<string>, tail: string)
    requires forall i :: 0 <= i < |pieces| ==> NewlineFree(pieces[i])
    ensures Lines(Unlines(pieces + [tail])) == pieces + Lines(tail)
  {
    if pieces == [] {
      EmptyAppend([tail]);
      EmptyAppend(Lines(tail));
    } else {
      hide Lines, Join;
      var line, rest := pieces[0], pieces[1..];
      ConsAppend(pieces, [tail]);
      ConsAppend(pieces, Lines(tail));
      UnlinesCons(line, rest + [tail]);
      LinesOfCons(line, Unlines(rest + [tail]));
      LinesOfUnlines(rest, tail);
    }
  }
}
