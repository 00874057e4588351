/** What the span parser makes of lines and pages that are put together from their parts. */
module MarkdownTexts {
  import opened Sequences
  import opened Text
  import opened MarkdownSpans

  function Repeat(c: char, n: nat): (s: string)
    ensures |s| == n && forall i :: 0 <= i < n ==> s[i] == c
  {
    seq(n, _ => c)
  }

  // ---------------------------------------------------------------------------------------------
  // Lines
  // ---------------------------------------------------------------------------------------------

  lemma LStripPadded(pad: string, core: string)
    requires Blank(pad) && core != "" && !IsSpace(core[0])
    ensures LStrip(pad + core) == core && |pad + core| - |LStrip(pad + core)| == |pad|
  {
    hide IsSpace;
    MarginIs(pad + core, |pad|);
    AppendDrop(pad, core);
  }

  lemma {:induction false} HashRunIs(n: nat, rest: string)
    requires rest == "" || rest[0] != '#'
    ensures HashRun(Repeat('#', n) + rest) == n
  {
    var s := Repeat('#', n) + rest;
    if n > 0 {
      assert s[1..] == Repeat('#', n - 1) + rest;
      HashRunIs(n - 1, rest);
    } else {
      assert s == rest;
    }
  }

  /**
   * A line of padding, `n` hashes and something else is a heading exactly when the padding is short, there
   * are at most six hashes, text follows them, and the line is no shebang. Its level is the number of hashes
   * and its title that text.
   */
  lemma HashLineIsHeading(pad: string, n: nat, rest: string)
    requires Blank(pad) && n >= 1 && (rest == "" || rest[0] != '#')
    ensures var h := HeadingOf(pad + Repeat('#', n) + rest);
            && (h.Some? <==> |pad| < 4 && n <= 6 && Strip(rest) != "" && !(n == 1 && StartsWith(rest, "!")))
            && (h.Some? ==> h.value == Heading(n, Strip(rest)))
  {
    hide Strip, HashRun;
    var core := Repeat('#', n) + rest;
    assert core[0] == '#';
    LStripPadded(pad, core);
    assert pad + Repeat('#', n) + rest == pad + core;
    HashRunIs(n, rest);
    assert core[n..] == rest;
    assert StartsWith(core, "#!") <==> n == 1 && StartsWith(rest, "!") by {
      if n == 1 { assert core[1..] == rest; } else { assert core[1] == '#'; }
    }
  }

  /** A line whose first character past the padding is no hash is no heading. */
  lemma OtherLineIsNoHeading(pad: string, rest: string)
    requires Blank(pad) && rest != "" && !IsSpace(rest[0]) && rest[0] != '#'
    ensures HeadingOf(pad + rest).None?
  {
    LStripPadded(pad, rest);
  }

  /** A run of three backticks or tildes opens a fence, whatever follows it. */
  lemma MarksOpenFence(pad: string, mark: char, k: nat, info: string)
    requires Blank(pad) && !IsSpace(mark) && k >= 1 && (info == "" || info[0] != mark)
    ensures OpensFence(pad + Repeat(mark, k) + info) <==> (mark == '`' || mark == '~') && k >= 3
  {
    var core := Repeat(mark, k) + info;
    LStripPadded(pad, core);
    assert pad + Repeat(mark, k) + info == pad + core;
    assert core[0] == mark;
    if k < 3 && k < |core| { assert core[k] == info[0]; }
  }

  /** The same marks and nothing but whitespace after them close it, if there are at least three. */
  lemma MarksCloseFence(pad: string, mark: char, k: nat, rest: string)
    requires Blank(pad) && !IsSpace(mark) && k >= 1 && (rest == "" || rest[0] != mark)
    ensures ClosesFence(pad + Repeat(mark, k) + rest, mark) <==> k >= 3 && Blank(rest)
  {
    hide IsSpace, LStrip, Extent;
    var core := Repeat(mark, k) + rest;
    assert core[0] == mark;
    LStripPadded(pad, core);
    assert pad + Repeat(mark, k) + rest == pad + core;
    MarksAlone(mark, k, rest);
  }

  /** A line that begins with anything else closes nothing, and opens nothing unless that is the other mark. */
  lemma OtherLineIsNoFence(pad: string, mark: char, rest: string)
    requires Blank(pad) && rest != "" && !IsSpace(rest[0]) && rest[0] != mark
    ensures !ClosesFence(pad + rest, mark)
    ensures rest[0] != '`' && rest[0] != '~' ==> !OpensFence(pad + rest)
  {
    hide IsSpace;
    LStripPadded(pad, rest);
    assert RStrip(rest) == "" || RStrip(rest)[0] == rest[0];
  }

  /** A blank line does neither. */
  lemma BlankLineIsNoFence(line: string, mark: char)
    requires Blank(line)
    ensures !ClosesFence(line, mark) && !OpensFence(line) && HeadingOf(line).None?
  {
    hide IsSpace;
    MarginIs(line, |line|);
  }

  lemma MarksAlone(mark: char, k: nat, rest: string)
    requires !IsSpace(mark) && k >= 1 && (rest == "" || rest[0] != mark)
    ensures var closing := RStrip(Repeat(mark, k) + rest);
            |closing| >= k && (AllAre(closing, mark) <==> Blank(rest)) && (Blank(rest) ==> |closing| == k)
  {
    hide IsSpace;
    var core := Repeat(mark, k) + rest;
    var n := Extent(core);
    assert core[k - 1] == mark && n >= k;
    assert forall i :: k <= i < |core| ==> core[i] == rest[i - k];
    if i :| 0 <= i < |rest| && !IsSpace(rest[i]) {
      assert core[k + i] == rest[i];
      assert core[..n][k] == rest[0];
    } else {
      assert Blank(rest) && n == k;
    }
  }

  // ---------------------------------------------------------------------------------------------
  // Pages
  // ---------------------------------------------------------------------------------------------

  /** A line of `n` hashes and a title. */
  ghost predicate IsTitle(line: string, n: nat, title: string) {
    exists pad, rest ::
      && line == pad + Repeat('#', n) + rest && Blank(pad) && |pad| < 4 && 1 <= n <= 6
      && rest != "" && rest[0] != '#' && rest[0] != '!' && Strip(rest) == title && title != ""
  }

  /** A line that begins with none of the characters that mean something. */
  ghost predicate IsPlain(line: string) {
    exists pad, rest ::
      line == pad + rest && Blank(pad) && rest != "" && !IsSpace(rest[0]) && rest[0] !in "#`~"
  }

  /** A line that opens a fence of `mark`s. */
  ghost predicate IsOpening(line: string, mark: char) {
    exists pad, k: nat, info ::
      line == pad + Repeat(mark, k) + info && Blank(pad) && mark in "`~" && k >= 3 && (info == "" || info[0] != mark)
  }

  lemma TitleLine(line: string, n: nat, title: string)
    requires IsTitle(line, n, title)
    ensures HeadingOf(line) == Some(Heading(n, title)) && !OpensFence(line)
  {
    hide Strip, HeadingOf;
    var pad, rest :|
      && line == pad + Repeat('#', n) + rest && Blank(pad) && |pad| < 4 && 1 <= n <= 6
      && rest != "" && rest[0] != '#' && rest[0] != '!' && Strip(rest) == title && title != "";
    HashLineIsHeading(pad, n, rest);
    MarksOpenFence(pad, '#', n, rest);
  }

  lemma PlainLine(line: string)
    requires IsPlain(line)
    ensures HeadingOf(line).None? && !OpensFence(line) && !Blank(line)
  {
    var pad, rest :| line == pad + rest && Blank(pad) && rest != "" && !IsSpace(rest[0]) && rest[0] !in "#`~";
    OtherLineIsNoHeading(pad, rest);
    LStripPadded(pad, rest);
    assert line[|pad|] == rest[0];
  }

  lemma OpeningLine(line: string, mark: char)
    requires IsOpening(line, mark)
    ensures OpensFence(line) && LStrip(line)[0] == mark
  {
    hide OpensFence, LStrip, IsSpace;
    assert !IsSpace('`') && !IsSpace('~') by { MarksAreNoSpace(); }
    var pad, k: nat, info :|
      line == pad + Repeat(mark, k) + info && Blank(pad) && mark in "`~" && k >= 3 && (info == "" || info[0] != mark);
    MarksOpenFence(pad, mark, k, info);
    assert line == pad + (Repeat(mark, k) + info);
    assert (Repeat(mark, k) + info)[0] == mark;
    LStripPadded(pad, Repeat(mark, k) + info);
  }

  lemma MarksAreNoSpace()
    ensures !IsSpace('`') && !IsSpace('~')
  {
  }

  /**
   * Two titles and a prose line: one span, located at the second title, whose path has both titles exactly
   * when the second is deeper.
   */
  lemma TitlesNest(first: string, n1: nat, t1: string, second: string, n2: nat, t2: string, prose: string)
    requires IsTitle(first, n1, t1) && IsTitle(second, n2, t2) && IsPlain(prose)
    ensures Spans([first, second, prose]) == [Span(if n1 < n2 then [t1, t2] else [t2], prose, false, 2)]
  {
    hide HeadingOf, OpensFence, IsTitle, IsPlain;
    var lines := [first, second, prose];
    TitleLine(first, n1, t1);
    TitleLine(second, n2, t2);
    PlainLine(prose);
    assert FenceBefore(lines, 0) == FenceBefore(lines, 1) == FenceBefore(lines, 2) == None;
    var ks := [Heading(n1, t1), Heading(n2, t2), Prose];
    assert Kinds(lines) == ks;
    hide KindAt, FenceBefore;
    PathOfTwo(ks);
    OneProseLine(lines, ks);
  }

  lemma PathOfTwo(ks: seq<Kind>)
    requires |ks| == 3 && ks[0].Heading? && ks[1].Heading? && ks[2].Prose?
    ensures PathAt(ks, 2) == if ks[0].level < ks[1].level then [ks[0].text, ks[1].text] else [ks[1].text]
  {
    assert Governs(ks, 1, 2);
    assert Governs(ks, 0, 2) <==> ks[0].level < ks[1].level;
    assert PathAmong(ks, 0, 2) == [];
    assert PathAmong(ks, 1, 2) == if ks[0].level < ks[1].level then [ks[0].text] else [];
    assert PathAmong(ks, 2, 2) == PathAmong(ks, 1, 2) + [ks[1].text];
  }

  lemma OneProseLine(lines: seq<string>, ks: seq<Kind>)
    requires |lines| == |ks| == 3 && ks[0].Heading? && ks[1].Heading? && ks[2].Prose? && !Blank(lines[2])
    ensures SpansBefore(lines, ks, 3) == [Span(PathAt(ks, 2), lines[2], false, 2)]
  {
    hide PathAt;
    assert ProseEnd(ks, 2) == 3 && lines[2..3] == [lines[2]];
    assert SpanAt(lines, ks, 0) == [] && SpanAt(lines, ks, 1) == [];
    assert SpansBefore(lines, ks, 1) == [] && SpansBefore(lines, ks, 2) == [];
  }

  /**
   * A page that is one fence, from its opening line to its end or to a closing line: its one span holds
   * what is in between, as code, located by the opening line.
   */
  lemma FenceIsOneSpan(open: string, mark: char, body: seq<string>, close: Option<string>)
    requires IsOpening(open, mark) && (forall i :: 0 <= i < |body| ==> !ClosesFence(body[i], mark))
    requires close.Some? ==> ClosesFence(close.value, mark)
    ensures Spans([open] + body + (if close.Some? then [close.value] else []))
            == [Span([], Join("\n", body), true, 1)]
  {
    hide HeadingOf, OpensFence, ClosesFence, IsOpening, SpansBefore, LStrip, Join;
    var lines := [open] + body + (if close.Some? then [close.value] else []);
    assert lines[0] == open && lines[1..|body| + 1] == body;
    assert forall i :: 1 <= i <= |body| ==> lines[i] == body[i - 1];
    assert close.Some? ==> lines[|body| + 1] == close.value;
    OpeningLine(open, mark);
    FenceKinds(lines, mark, |body|);
    FencePage(lines, Kinds(lines), |body|);
  }

  lemma FenceKinds(lines: seq<string>, mark: char, n: nat)
    requires n < |lines| <= n + 2 && OpensFence(lines[0]) && LStrip(lines[0])[0] == mark
    requires forall k :: 1 <= k <= n ==> !ClosesFence(lines[k], mark)
    requires |lines| == n + 2 ==> ClosesFence(lines[n + 1], mark)
    ensures var ks := Kinds(lines);
            && ks[0] == FenceOpen && (forall k :: 1 <= k <= n ==> ks[k] == FenceBody)
            && (|lines| == n + 2 ==> ks[n + 1] == FenceClose)
  {
    hide HeadingOf, OpensFence, ClosesFence, LStrip, FenceBefore;
    NoFenceBefore(lines);
    forall i | 1 <= i <= n + 1 ensures FenceBefore(lines, i) == Some(mark) { FenceStays(lines, mark, n, i); }
  }

  lemma NoFenceBefore(lines: seq<string>)
    ensures FenceBefore(lines, 0) == None
  {
  }

  lemma FencePage(lines: seq<string>, ks: seq<Kind>, n: nat)
    requires |ks| == |lines| && n < |lines| <= n + 2
    requires ks[0] == FenceOpen && (forall k :: 1 <= k <= n ==> ks[k] == FenceBody)
    requires |lines| == n + 2 ==> ks[n + 1] == FenceClose
    ensures SpansBefore(lines, ks, |lines|) == [Span([], Join("\n", lines[1..n + 1]), true, 1)]
  {
    hide Join;
    assert FenceEnd(ks, 1) == n + 1;
    assert PathAt(ks, 0) == [];
    assert SpanAt(lines, ks, 0) == [Span([], Join("\n", lines[1..n + 1]), true, 1)];
    NoSpansBetween(lines, ks, 1, |lines|);
    assert SpansBefore(lines, ks, 0) == [] && SpansBefore(lines, ks, 1) == SpanAt(lines, ks, 0);
  }

  lemma {:induction false} FenceStays(lines: seq<string>, mark: char, n: nat, i: nat)
    requires 1 <= i <= n + 1 <= |lines| && OpensFence(lines[0]) && LStrip(lines[0])[0] == mark
    requires forall k :: 1 <= k <= n ==> !ClosesFence(lines[k], mark)
    ensures FenceBefore(lines, i) == Some(mark)
  {
    hide OpensFence, ClosesFence, LStrip;
    if i > 1 {
      FenceStays(lines, mark, n, i - 1);
    } else {
      assert FenceBefore(lines, 0) == None;
    }
  }

  // ---------------------------------------------------------------------------------------------
  // Line ends
  // ---------------------------------------------------------------------------------------------

  predicate Unbroken(line: string) {
    forall i :: 0 <= i < |line| ==> !IsLineBreak(line[i])
  }

  lemma {:induction false} UnbrokenLengthIs(line: string, rest: string)
    requires Unbroken(line) && (rest == "" || IsLineBreak(rest[0]))
    ensures UnbrokenLength(line + rest) == |line|
  {
    hide IsLineBreak;
    if line == "" {
      EmptyAppend(rest);
    } else {
      assert (line + rest)[0] == line[0] && (line + rest)[1..] == line[1..] + rest;
      UnbrokenLengthIs(line[1..], rest);
    }
  }

  /** A line break ends a line, and a carriage return and the newline after it are one line break. */
  lemma SplitAtBreak(line: string, end: string, rest: string)
    requires Unbroken(line)
    requires end == "\r\n" || (|end| == 1 && IsLineBreak(end[0]) && !(end == "\r" && StartsWith(rest, "\n")))
    ensures SplitLines(line + end + rest) == [line] + SplitLines(rest)
  {
    assert IsLineBreak('\r');
    var s := line + end + rest;
    assert s == line + (end + rest);
    UnbrokenLengthIs(line, end + rest);
    assert s[..|line|] == line && s[|line|] == end[0];
    assert |line| + 1 < |s| ==> s[|line| + 1] == (end + rest)[1];
    assert s[|line| + |end|..] == rest;
    if |end| == 1 && rest != "" { assert (end + rest)[1] == rest[0]; }
  }

  /** The last line needs no line break. */
  lemma SplitLastLine(line: string)
    requires Unbroken(line)
    ensures SplitLines(line) == if line == "" then [] else [line]
  {
    UnbrokenLengthIs(line, "");
    EmptyEnd(line);
    assert line + "" == line;
  }
}
