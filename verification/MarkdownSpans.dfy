/**
 * The markdown span parser: one pass over the lines with a heading stack, a fence mode and an open
 * prose block, proved equal to a position-wise specification that carries no parser state.
 */
module MarkdownSpans {
  import opened Sequences
  import opened Text

  datatype Span = Span(headingPath: seq<string>, body: string, codeFence: bool, startLine: nat)

  /** `str.splitlines`. */
  function SplitLines(s: string): seq<string>
    decreases |s|
  {
    if s == "" then []
    else
      var n := UnbrokenLength(s);
      if n == |s| then [s]
      else
        var gap := if s[n] == '\r' && n + 1 < |s| && s[n + 1] == '\n' then 2 else 1;
        [s[..n]] + SplitLines(s[n + gap..])
  }

  function UnbrokenLength(s: string): (n: nat)
    ensures n <= |s|
    ensures forall i :: 0 <= i < n ==> !IsLineBreak(s[i])
    ensures n < |s| ==> IsLineBreak(s[n])
  {
    if s == "" || IsLineBreak(s[0]) then 0 else 1 + UnbrokenLength(s[1..])
  }

  // ---------------------------------------------------------------------------------------------
  // What each line is
  // ---------------------------------------------------------------------------------------------

  datatype Kind = FenceOpen | FenceBody | FenceClose | Heading(level: nat, text: string) | Prose

  predicate OpensFence(raw: string) {
    StartsWith(LStrip(raw), "```") || StartsWith(LStrip(raw), "~~~")
  }

  predicate AllAre(s: string, c: char) {
    forall i :: 0 <= i < |s| ==> s[i] == c
  }

  /** A closing delimiter: nothing but the opening character, at least three times. */
  predicate ClosesFence(raw: string, mark: char) {
    var closing := RStrip(LStrip(raw));
    |closing| >= 3 && AllAre(closing, mark)
  }

  function HashRun(s: string): (n: nat)
    ensures n <= |s|
    ensures forall i :: 0 <= i < n ==> s[i] == '#'
    ensures n < |s| ==> s[n] != '#'
  {
    if s != "" && s[0] == '#' then 1 + HashRun(s[1..]) else 0
  }

  function HeadingOf(raw: string): (h: Option<Kind>)
    ensures h.Some? ==> h.value.Heading? && 1 <= h.value.level <= 6
  {
    var stripped := LStrip(raw);
    if StartsWith(stripped, "#") && !StartsWith(stripped, "#!") && |raw| - |stripped| < 4 then
      var level := HashRun(stripped);
      var text := Strip(stripped[level..]);
      if text != "" && level <= 6 then Some(Heading(level, text)) else None
    else None
  }

  /** The fence character that is open when line `i` is reached. */
  function FenceBefore(lines: seq<string>, i: nat): Option<char>
    requires i <= |lines|
  {
    if i == 0 then None
    else
      match FenceBefore(lines, i - 1)
      case None => if OpensFence(lines[i - 1]) then Some(LStrip(lines[i - 1])[0]) else None
      case Some(mark) => if ClosesFence(lines[i - 1], mark) then None else Some(mark)
  }

  function KindAt(lines: seq<string>, i: nat): Kind
    requires i < |lines|
  {
    match FenceBefore(lines, i)
    case Some(mark) => if ClosesFence(lines[i], mark) then FenceClose else FenceBody
    case None =>
      if OpensFence(lines[i]) then FenceOpen
      else if HeadingOf(lines[i]).Some? then HeadingOf(lines[i]).value
      else Prose
  }

  function Fences(lines: seq<string>): seq<Option<char>> {
    seq(|lines| + 1, i requires 0 <= i <= |lines| => FenceBefore(lines, i))
  }

  function Kinds(lines: seq<string>): seq<Kind> {
    seq(|lines|, i requires 0 <= i < |lines| => KindAt(lines, i))
  }

  // ---------------------------------------------------------------------------------------------
  // The specification: what span, if any, begins at a line
  // ---------------------------------------------------------------------------------------------

  /** Heading `j` is still an ancestor at line `n`: nothing of its level or above came since. */
  predicate Governs(ks: seq<Kind>, j: nat, n: nat)
    requires j < n <= |ks|
  {
    && ks[j].Heading?
    && forall k :: j < k < n && ks[k].Heading? ==> ks[k].level > ks[j].level
  }

  /** The titles of the ancestors at line `n` among the first `m` lines, outermost first. */
  function PathAmong(ks: seq<Kind>, m: nat, n: nat): seq<string>
    requires m <= n <= |ks|
  {
    if m == 0 then []
    else PathAmong(ks, m - 1, n) + if Governs(ks, m - 1, n) then [ks[m - 1].text] else []
  }

  /** The heading path in force at line `n`. */
  function PathAt(ks: seq<Kind>, n: nat): seq<string>
    requires n <= |ks|
  {
    PathAmong(ks, n, n)
  }

  function ProseEnd(ks: seq<Kind>, i: nat): (e: nat)
    requires i <= |ks|
    ensures i <= e <= |ks|
    ensures forall j :: i <= j < e ==> ks[j].Prose?
    ensures e < |ks| ==> !ks[e].Prose?
    decreases |ks| - i
  {
    if i < |ks| && ks[i].Prose? then ProseEnd(ks, i + 1) else i
  }

  function FenceEnd(ks: seq<Kind>, i: nat): (e: nat)
    requires i <= |ks|
    ensures i <= e <= |ks|
    ensures forall j :: i <= j < e ==> ks[j].FenceBody?
    ensures e < |ks| ==> !ks[e].FenceBody?
    decreases |ks| - i
  {
    if i < |ks| && ks[i].FenceBody? then FenceEnd(ks, i + 1) else i
  }

  predicate AllBlank(lines: seq<string>) {
    forall i :: 0 <= i < |lines| ==> Blank(lines[i])
  }

  /** The source lines covered by the span that begins at line `i`, as a half-open range, if one does. */
  function BlockAt(lines: seq<string>, ks: seq<Kind>, i: nat): Option<(nat, nat)>
    requires i < |lines| == |ks|
  {
    if ks[i].FenceOpen? then Some((i + 1, FenceEnd(ks, i + 1)))
    else if ks[i].Prose? && (i == 0 || !ks[i - 1].Prose?) && !AllBlank(lines[i..ProseEnd(ks, i)]) then
      Some((i, ProseEnd(ks, i)))
    else None
  }

  function SpanAt(lines: seq<string>, ks: seq<Kind>, i: nat): seq<Span>
    requires i < |lines| == |ks|
  {
    match BlockAt(lines, ks, i)
    case None => []
    case Some((lo, hi)) =>
      var fenced := ks[i].FenceOpen?;
      // A prose block directly under a heading is located by the heading line.
      var start := if !fenced && i > 0 && ks[i - 1].Heading? then i else i + 1;
      [Span(PathAt(ks, i), Join("\n", lines[lo..hi]), fenced, start)]
  }

  function SpansBefore(lines: seq<string>, ks: seq<Kind>, n: nat): seq<Span>
    requires n <= |lines| == |ks|
  {
    if n == 0 then [] else SpansBefore(lines, ks, n - 1) + SpanAt(lines, ks, n - 1)
  }

  /** All spans, in order of the line they begin at. */
  function Spans(lines: seq<string>): seq<Span> {
    SpansBefore(lines, Kinds(lines), |lines|)
  }

  // ---------------------------------------------------------------------------------------------
  // The heading stack
  // ---------------------------------------------------------------------------------------------

  type Entry = (nat, string)

  function EntryOf(k: Kind): Entry
    requires k.Heading?
  {
    (k.level, k.text)
  }

  /** What the parser's stack should hold at line `n`, counting only headings among the first `m` lines. */
  function StackAmong(ks: seq<Kind>, m: nat, n: nat): seq<Entry>
    requires m <= n <= |ks|
  {
    if m == 0 then []
    else StackAmong(ks, m - 1, n) + if Governs(ks, m - 1, n) then [EntryOf(ks[m - 1])] else []
  }

  function StackAt(ks: seq<Kind>, n: nat): seq<Entry>
    requires n <= |ks|
  {
    StackAmong(ks, n, n)
  }

  function Titles(stack: seq<Entry>): seq<string> {
    seq(|stack|, k requires 0 <= k < |stack| => stack[k].1)
  }

  predicate WellLeveled(ks: seq<Kind>) {
    forall i :: 0 <= i < |ks| && ks[i].Heading? ==> 1 <= ks[i].level <= 6
  }

  lemma KindsAreWellLeveled(lines: seq<string>)
    ensures WellLeveled(Kinds(lines))
  {
  }

  predicate Nested(stack: seq<Entry>) {
    && (forall k :: 0 <= k < |stack| ==> 1 <= stack[k].0 <= 6)
    && (forall k, l :: 0 <= k < l < |stack| ==> stack[k].0 < stack[l].0)
  }

  function Popped(stack: seq<Entry>, level: nat): seq<Entry> {
    if stack != [] && stack[|stack| - 1].0 >= level then Popped(stack[..|stack| - 1], level) else stack
  }

  /** Every entry governs `n`, so a later entry is deeper and levels strictly increase. */
  lemma {:induction false} StackIsNested(ks: seq<Kind>, m: nat, n: nat)
    requires m <= n <= |ks| && WellLeveled(ks)
    ensures Nested(StackAmong(ks, m, n))
    ensures forall e, j :: e in StackAmong(ks, m, n) && m <= j < n && ks[j].Heading? ==> e.0 < ks[j].level
  {
    if m > 0 { StackIsNested(ks, m - 1, n); }
  }

  /** Distinct levels between 1 and 6 leave room for six entries. */
  lemma {:induction false} NestedIsShort(stack: seq<Entry>)
    requires Nested(stack)
    ensures |stack| <= 6
    ensures stack != [] ==> stack[|stack| - 1].0 >= |stack|
  {
    if |stack| > 1 {
      NestedIsShort(stack[..|stack| - 1]);
      assert stack[|stack| - 2].0 < stack[|stack| - 1].0;
    }
  }

  lemma {:induction false} TitlesArePath(ks: seq<Kind>, m: nat, n: nat)
    requires m <= n <= |ks|
    ensures Titles(StackAmong(ks, m, n)) == PathAmong(ks, m, n)
  {
    if m > 0 { TitlesArePath(ks, m - 1, n); }
  }

  lemma PopFixed(stack: seq<Entry>, level: nat)
    requires forall e :: e in stack ==> e.0 < level
    ensures Popped(stack, level) == stack
  {
  }

  /** A heading at line `i` turns the old ancestors into the popped ones. */
  lemma {:induction false} HeadingPops(ks: seq<Kind>, m: nat, i: nat)
    requires m <= i < |ks| && WellLeveled(ks) && ks[i].Heading?
    ensures StackAmong(ks, m, i + 1) == Popped(StackAmong(ks, m, i), ks[i].level)
  {
    if m > 0 {
      HeadingPops(ks, m - 1, i);
      if Governs(ks, m - 1, i) {
        var front := StackAmong(ks, m - 1, i);
        assert StackAmong(ks, m, i)[..|front|] == front;
        if ks[m - 1].level < ks[i].level {
          StackIsNested(ks, m - 1, i);
          PopFixed(front, ks[i].level);
        }
      } else {
        assert !Governs(ks, m - 1, i + 1);
        assert StackAmong(ks, m, i) == StackAmong(ks, m - 1, i);
      }
    }
  }

  lemma {:induction false} OtherLinesKeepStack(ks: seq<Kind>, m: nat, i: nat)
    requires m <= i < |ks| && !ks[i].Heading?
    ensures StackAmong(ks, m, i + 1) == StackAmong(ks, m, i)
  {
    if m > 0 {
      OtherLinesKeepStack(ks, m - 1, i);
      assert Governs(ks, m - 1, i + 1) == Governs(ks, m - 1, i);
    }
  }

  /** The parser's stack update is the step from one line's ancestors to the next line's. */
  lemma StackStep(ks: seq<Kind>, i: nat)
    requires i < |ks| && WellLeveled(ks)
    ensures StackAt(ks, i + 1) ==
            if ks[i].Heading? then Popped(StackAt(ks, i), ks[i].level) + [EntryOf(ks[i])] else StackAt(ks, i)
  {
    if ks[i].Heading? {
      HeadingPops(ks, i, i);
      assert Governs(ks, i, i + 1);
    } else {
      OtherLinesKeepStack(ks, i, i);
      assert !Governs(ks, i, i + 1);
    }
  }

  /** Lines that begin no span add nothing. */
  lemma {:induction false} NoSpansBetween(lines: seq<string>, ks: seq<Kind>, lo: nat, hi: nat)
    requires lo <= hi <= |lines| == |ks|
    requires forall j :: lo <= j < hi ==> SpanAt(lines, ks, j) == []
    ensures SpansBefore(lines, ks, hi) == SpansBefore(lines, ks, lo)
    decreases hi - lo
  {
    if lo < hi { NoSpansBetween(lines, ks, lo, hi - 1); }
  }

  // ---------------------------------------------------------------------------------------------
  // The parser
  // ---------------------------------------------------------------------------------------------

  /** Before line `i`: `body` is the prose run so far, and `spans` holds all that began before it. */
  ghost predicate ProseIsOpen(lines: seq<string>, ks: seq<Kind>, i: nat,
                              body: seq<string>, start: Option<nat>, spans: seq<Span>)
    requires i <= |lines| == |ks|
  {
    && |body| <= i
    && var base := i - |body|;
       && body == lines[base..i]
       && (forall j :: base <= j < i ==> ks[j].Prose?)
       && (base > 0 ==> !ks[base - 1].Prose?)
       && start == (if base > 0 && ks[base - 1].Heading? then Some(base)
                    else if base < i then Some(base + 1) else None)
       && spans == SpansBefore(lines, ks, base)
  }

  /** Before line `i`: inside the fence whose opening line is number `start`. */
  ghost predicate FenceIsOpen(lines: seq<string>, ks: seq<Kind>, i: nat,
                              start: Option<nat>, body: seq<string>, spans: seq<Span>)
    requires i <= |lines| == |ks|
  {
    && start.Some? && 1 <= start.value <= i
    && var open := start.value - 1;
       && ks[open].FenceOpen?
       && (forall j :: open < j < i ==> ks[j].FenceBody?)
       && body == lines[open + 1..i]
       && spans == SpansBefore(lines, ks, open)
  }

  lemma MoreFence(lines: seq<string>, ks: seq<Kind>, i: nat,
                  start: Option<nat>, body: seq<string>, spans: seq<Span>)
    requires i < |lines| == |ks| && FenceIsOpen(lines, ks, i, start, body, spans) && ks[i].FenceBody?
    ensures FenceIsOpen(lines, ks, i + 1, start, body + [lines[i]], spans)
  {
    hide SpansBefore;
    SliceSnoc(lines, start.value, i);
  }

  lemma MoreProse(lines: seq<string>, ks: seq<Kind>, i: nat,
                  body: seq<string>, start: Option<nat>, spans: seq<Span>)
    requires i < |lines| == |ks| && ProseIsOpen(lines, ks, i, body, start, spans) && ks[i].Prose?
    ensures ProseIsOpen(lines, ks, i + 1, body + [lines[i]], if start == None then Some(i + 1) else start, spans)
  {
    hide SpansBefore;
    SliceSnoc(lines, i - |body|, i);
  }

  /** After a heading or a closed fence nothing is open; a heading alone sets the next block's start. */
  lemma NothingOpen(lines: seq<string>, ks: seq<Kind>, i: nat)
    requires 1 <= i <= |lines| == |ks| && !ks[i - 1].Prose?
    ensures ProseIsOpen(lines, ks, i, [], if ks[i - 1].Heading? then Some(i) else None, SpansBefore(lines, ks, i))
  {
    hide SpansBefore;
  }

  lemma HeadingEntered(lines: seq<string>, ks: seq<Kind>, n: nat)
    requires 1 <= n <= |lines| == |ks| && WellLeveled(ks) && ks[n - 1].Heading?
    ensures StackAt(ks, n) == Popped(StackAt(ks, n - 1), ks[n - 1].level) + [EntryOf(ks[n - 1])]
    ensures ProseIsOpen(lines, ks, n, [], Some(n), SpansBefore(lines, ks, n - 1))
  {
    StackStep(ks, n - 1);
    SkippedLine(lines, ks, n - 1);
    NothingOpen(lines, ks, n);
  }

  lemma NothingYet(lines: seq<string>, ks: seq<Kind>)
    requires |lines| == |ks|
    ensures SpansBefore(lines, ks, 0) == [] && StackAt(ks, 0) == [] && Fences(lines)[0] == None
  {
  }

  lemma FenceOpened(lines: seq<string>, ks: seq<Kind>, i: nat)
    requires i < |lines| == |ks| && ks[i].FenceOpen?
    ensures FenceIsOpen(lines, ks, i + 1, Some(i + 1), [], SpansBefore(lines, ks, i))
  {
    hide SpansBefore;
  }

  predicate Marker(m: string) {
    m == "```" || m == "~~~"
  }

  /** What a line inside a fence marked `mark` is, read off the line alone. */
  predicate FencedLine(raw: string, k: Kind, mark: char, next: Option<char>) {
    if ClosesFence(raw, mark) then k == FenceClose && next == None else k == FenceBody && next == Some(mark)
  }

  /** What a line outside fences is, read off the line alone. */
  predicate OpenLine(raw: string, k: Kind, next: Option<char>) {
    if OpensFence(raw) then k == FenceOpen && next == Some(LStrip(raw)[0])
    else next == None && k == if HeadingOf(raw).Some? then HeadingOf(raw).value else Prose
  }

  lemma LineStep(lines: seq<string>, i: nat)
    requires i < |lines|
    ensures var before, next := Fences(lines)[i], Fences(lines)[i + 1];
            if before.Some? then FencedLine(lines[i], Kinds(lines)[i], before.value, next)
            else OpenLine(lines[i], Kinds(lines)[i], next)
  {
  }

  /** A line that is neither prose nor a fence opening begins no span. */
  lemma SkippedLine(lines: seq<string>, ks: seq<Kind>, i: nat)
    requires i < |lines| == |ks| && !ks[i].Prose? && !ks[i].FenceOpen?
    ensures SpansBefore(lines, ks, i + 1) == SpansBefore(lines, ks, i)
  {
  }

  class SpanParser {
    var spans: seq<Span>
    var headingStack: seq<Entry>
    var currentBodyLines: seq<string>
    var currentStart: Option<nat>
    var inFence: bool
    var fenceMarker: Option<string>
    var fenceStart: Option<nat>
    var fenceBodyLines: seq<string>

    constructor ()
      ensures spans == [] && headingStack == [] && currentBodyLines == [] && currentStart == None
      ensures !inFence && fenceMarker == None && fenceStart == None && fenceBodyLines == []
    {
      spans, headingStack, currentBodyLines, currentStart := [], [], [], None;
      inFence, fenceMarker, fenceStart, fenceBodyLines := false, None, None, [];
    }

    /** The parser stands before line `i` with everything before the open block already emitted. */
    ghost predicate Tracks(lines: seq<string>, ks: seq<Kind>, i: nat, fence: Option<char>)
      reads this
      requires i <= |lines| == |ks|
    {
      && headingStack == StackAt(ks, i)
      && if inFence then
           && currentBodyLines == [] && currentStart == None
           && fenceMarker.Some? && Marker(fenceMarker.value) && fence == Some(fenceMarker.value[0])
           && FenceIsOpen(lines, ks, i, fenceStart, fenceBodyLines, spans)
         else
           && fenceMarker == None && fenceStart == None && fenceBodyLines == [] && fence == None
           && ProseIsOpen(lines, ks, i, currentBodyLines, currentStart, spans)
    }

    /** Closes the open prose block; `currentStart or end_line` never needs its fallback. */
    method FlushBody(endLine: nat, ghost lines: seq<string>, ghost ks: seq<Kind>, ghost i: nat,
                     ghost fence: Option<char>)
      requires i <= |lines| == |ks| && WellLeveled(ks) && Tracks(lines, ks, i, fence) && !inFence
      requires i < |ks| ==> !ks[i].Prose?
      modifies this`spans, this`currentBodyLines, this`currentStart
      ensures spans == SpansBefore(lines, ks, i)
      ensures currentBodyLines == [] && currentStart == None
    {
      hide SpansBefore, StackAmong, LStrip, RStrip, PathAmong, Join;
      ghost var base := i - |currentBodyLines|;
      if base < i { EmittedProse(lines, ks, base, i); }
      if currentBodyLines == [] && currentStart == None { return; }
      if !exists k :: 0 <= k < |currentBodyLines| && Strip(currentBodyLines[k]) != "" {
        forall k | 0 <= k < |currentBodyLines| ensures Blank(currentBodyLines[k]) {
          StripEmptyIffBlank(currentBodyLines[k]);
        }
        currentBodyLines, currentStart := [], None;
        return;
      }
      ghost var k :| 0 <= k < |currentBodyLines| && Strip(currentBodyLines[k]) != "";
      StripEmptyIffBlank(currentBodyLines[k]);
      TitlesArePath(ks, i, i);
      var body := Join("\n", currentBodyLines);
      var start := if currentStart.Some? && currentStart.value != 0 then currentStart.value else endLine;
      spans := spans + [Span(Titles(headingStack), body, false, start)];
      currentBodyLines, currentStart := [], None;
    }

    method FlushFence(endLine: nat, ghost lines: seq<string>, ghost ks: seq<Kind>, ghost i: nat,
                     ghost fence: Option<char>)
      requires i <= |lines| == |ks| && WellLeveled(ks) && Tracks(lines, ks, i, fence) && inFence
      requires i < |ks| ==> !ks[i].FenceBody?
      modifies this`spans, this`inFence, this`fenceMarker, this`fenceStart, this`fenceBodyLines
      ensures spans == SpansBefore(lines, ks, i)
      ensures !inFence && fenceMarker == None && fenceStart == None && fenceBodyLines == []
    {
      hide SpansBefore, StackAmong, LStrip, RStrip, PathAmong, Join;
      if !inFence { return; }
      ghost var open := fenceStart.value - 1;
      EmittedFence(lines, ks, open, i);
      TitlesArePath(ks, i, i);
      var body := Join("\n", fenceBodyLines);
      var start := if fenceStart.Some? && fenceStart.value != 0 then fenceStart.value else endLine;
      spans := spans + [Span(Titles(headingStack), body, true, start)];
      inFence, fenceMarker, fenceStart, fenceBodyLines := false, None, None, [];
    }

    /** Pops headings that are as deep or deeper, then pushes. */
    method PushHeading(level: nat, text: string)
      modifies this`headingStack
      ensures headingStack == Popped(old(headingStack), level) + [(level, text)]
    {
      while headingStack != [] && headingStack[|headingStack| - 1].0 >= level
        invariant Popped(headingStack, level) == Popped(old(headingStack), level)
        decreases |headingStack|
      {
        headingStack := headingStack[..|headingStack| - 1];
      }
      headingStack := headingStack + [(level, text)];
    }

    /** A fence-open line ends the prose before it. */
    method EnterFence(marker: string, n: nat, ghost lines: seq<string>, ghost ks: seq<Kind>)
      requires 1 <= n <= |lines| == |ks| && WellLeveled(ks) && ks[n - 1].FenceOpen? && Marker(marker)
      requires Tracks(lines, ks, n - 1, None) && !inFence
      modifies this
      ensures Tracks(lines, ks, n, Some(marker[0]))
    {
      hide SpansBefore, StackAmong, ProseIsOpen, FenceIsOpen;
      StackStep(ks, n - 1);
      FlushBody(n - 1, lines, ks, n - 1, None);
      FenceOpened(lines, ks, n - 1);
      inFence, fenceMarker, fenceStart, fenceBodyLines := true, Some(marker), Some(n), [];
    }

    /** A heading ends the prose before it and locates the prose after it. */
    method EnterHeading(level: nat, text: string, n: nat, ghost lines: seq<string>, ghost ks: seq<Kind>)
      requires 1 <= n <= |lines| == |ks| && WellLeveled(ks) && ks[n - 1] == Heading(level, text)
      requires Tracks(lines, ks, n - 1, None) && !inFence
      modifies this
      ensures Tracks(lines, ks, n, None)
    {
      hide SpansBefore, StackAmong, ProseIsOpen, FenceIsOpen;
      FlushBody(n - 1, lines, ks, n - 1, None);
      PushHeading(level, text);
      currentStart := Some(n);
      HeadingEntered(lines, ks, n);
    }

    method AddProse(raw: string, n: nat, ghost lines: seq<string>, ghost ks: seq<Kind>)
      requires 1 <= n <= |lines| == |ks| && WellLeveled(ks) && raw == lines[n - 1] && ks[n - 1].Prose?
      requires Tracks(lines, ks, n - 1, None) && !inFence
      modifies this
      ensures Tracks(lines, ks, n, None)
    {
      hide SpansBefore, StackAmong, ProseIsOpen, FenceIsOpen;
      StackStep(ks, n - 1);
      MoreProse(lines, ks, n - 1, currentBodyLines, currentStart, spans);
      if currentStart == None { currentStart := Some(n); }
      currentBodyLines := currentBodyLines + [raw];
    }

    method LeaveFence(n: nat, ghost lines: seq<string>, ghost ks: seq<Kind>, ghost mark: char)
      requires 1 <= n <= |lines| == |ks| && WellLeveled(ks) && ks[n - 1].FenceClose?
      requires Tracks(lines, ks, n - 1, Some(mark)) && inFence
      modifies this
      ensures Tracks(lines, ks, n, None)
    {
      hide SpansBefore, StackAmong, ProseIsOpen, FenceIsOpen;
      StackStep(ks, n - 1);
      FlushFence(n, lines, ks, n - 1, Some(mark));
      SkippedLine(lines, ks, n - 1);
      NothingOpen(lines, ks, n);
    }

    /** One line inside a fence: the closing delimiter, or one more line of its body. */
    method FeedFenced(raw: string, n: nat,
                      ghost lines: seq<string>, ghost ks: seq<Kind>, ghost mark: char, ghost next: Option<char>)
      requires 1 <= n <= |lines| == |ks| && WellLeveled(ks)
      requires raw == lines[n - 1] && FencedLine(raw, ks[n - 1], mark, next)
      requires Tracks(lines, ks, n - 1, Some(mark)) && inFence
      modifies this
      ensures Tracks(lines, ks, n, next)
    {
      hide SpansBefore, StackAmong, ProseIsOpen, FenceIsOpen, LStrip, RStrip, HeadingOf;
      var closing := RStrip(LStrip(raw));
      if fenceMarker.Some? && |closing| >= |fenceMarker.value| && AllAre(closing, fenceMarker.value[0]) {
        LeaveFence(n, lines, ks, mark);
        return;
      }
      StackStep(ks, n - 1);
      MoreFence(lines, ks, n - 1, fenceStart, fenceBodyLines, spans);
      fenceBodyLines := fenceBodyLines + [raw];
    }

    /** One line outside fences: a fence opening, a heading, or prose. */
    method FeedOpen(raw: string, n: nat, ghost lines: seq<string>, ghost ks: seq<Kind>, ghost next: Option<char>)
      requires 1 <= n <= |lines| == |ks| && WellLeveled(ks)
      requires raw == lines[n - 1] && OpenLine(raw, ks[n - 1], next)
      requires Tracks(lines, ks, n - 1, None) && !inFence
      modifies this
      ensures Tracks(lines, ks, n, next)
    {
      hide SpansBefore, StackAmong, ProseIsOpen, FenceIsOpen, LStrip, RStrip, HeadingOf;
      var stripped := LStrip(raw);
      if StartsWith(stripped, "```") || StartsWith(stripped, "~~~") {
        EnterFence(stripped[..3], n, lines, ks);
        return;
      }
      var heading := ReadHeading(raw, stripped);
      if heading.Some? {
        EnterHeading(heading.value.level, heading.value.text, n, lines, ks);
        return;
      }
      AddProse(raw, n, lines, ks);
    }
  }

  /** The ATX test on one line, counting its hashes one by one. */
  method ReadHeading(raw: string, stripped: string) returns (heading: Option<Kind>)
    requires stripped == LStrip(raw)
    ensures heading == HeadingOf(raw)
  {
    hide LStrip, Strip, HashRun;
    var indent := |raw| - |stripped|;
    if StartsWith(stripped, "#") && !StartsWith(stripped, "#!") && indent < 4 {
      var level := 0;
      while level < |stripped| && stripped[level] == '#'
        invariant level <= |stripped| && forall j :: 0 <= j < level ==> stripped[j] == '#'
      {
        level := level + 1;
      }
      var headingText := Strip(stripped[level..]);
      if headingText != "" && level <= 6 {
        return Some(Heading(level, headingText));
      }
    }
    return None;
  }

  lemma {:induction false} PathAcross(ks: seq<Kind>, lo: nat, hi: nat)
    requires lo <= hi <= |ks| && WellLeveled(ks)
    requires forall j :: lo <= j < hi ==> !ks[j].Heading?
    ensures StackAt(ks, hi) == StackAt(ks, lo) && PathAt(ks, hi) == PathAt(ks, lo)
    decreases hi - lo
  {
    if lo < hi {
      PathAcross(ks, lo, hi - 1);
      StackStep(ks, hi - 1);
    }
    TitlesArePath(ks, lo, lo);
    TitlesArePath(ks, hi, hi);
  }

  /** A finished prose run contributes the one span its first line begins, or nothing when it is blank. */
  lemma EmittedProse(lines: seq<string>, ks: seq<Kind>, base: nat, i: nat)
    requires base < i <= |lines| == |ks| && WellLeveled(ks)
    requires forall j :: base <= j < i ==> ks[j].Prose?
    requires base > 0 ==> !ks[base - 1].Prose?
    requires i < |ks| ==> !ks[i].Prose?
    ensures BlockAt(lines, ks, base) == if AllBlank(lines[base..i]) then None else Some((base, i))
    ensures SpansBefore(lines, ks, i) == SpansBefore(lines, ks, base) + SpanAt(lines, ks, base)
    ensures PathAt(ks, i) == PathAt(ks, base)
  {
    assert ProseEnd(ks, base) == i;
    NoSpansBetween(lines, ks, base + 1, i);
    PathAcross(ks, base, i);
  }

  lemma EmittedFence(lines: seq<string>, ks: seq<Kind>, open: nat, i: nat)
    requires open < i <= |lines| == |ks| && WellLeveled(ks)
    requires ks[open].FenceOpen? && forall j :: open < j < i ==> ks[j].FenceBody?
    requires i < |ks| ==> !ks[i].FenceBody?
    ensures BlockAt(lines, ks, open) == Some((open + 1, i))
    ensures SpansBefore(lines, ks, i) == SpansBefore(lines, ks, open) + SpanAt(lines, ks, open)
    ensures PathAt(ks, i) == PathAt(ks, open)
  {
    assert FenceEnd(ks, open + 1) == i;
    NoSpansBetween(lines, ks, open + 1, i);
    PathAcross(ks, open, i);
  }

  /** The parser's single pass computes the position-wise specification. */
  method ParseSpans(text: string) returns (spans: seq<Span>)
    ensures spans == Spans(SplitLines(text))
  {
    hide SpansBefore, StackAmong, LStrip, RStrip, FenceBefore, KindAt;
    var lines := SplitLines(text);
    ghost var ks, fs := Kinds(lines), Fences(lines);
    KindsAreWellLeveled(lines);
    NothingYet(lines, ks);
    if text == "" { return []; }
    var p := new SpanParser();
    for n := 0 to |lines|
      invariant fresh(p) && p.Tracks(lines, ks, n, fs[n])
    {
      LineStep(lines, n);
      if p.inFence {
        p.FeedFenced(lines[n], n + 1, lines, ks, fs[n].value, fs[n + 1]);
      } else {
        p.FeedOpen(lines[n], n + 1, lines, ks, fs[n + 1]);
      }
    }
    if p.inFence {
      p.FlushFence(|lines|, lines, ks, |lines|, fs[|lines|]);
    } else {
      p.FlushBody(|lines|, lines, ks, |lines|, fs[|lines|]);
    }
    return p.spans;
  }
}
