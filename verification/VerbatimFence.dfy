/** The self-widening fence around a prompt value, read back by the fenced-code rules of CommonMark. */
module VerbatimFence {
  import opened Text

  // ---------------------------------------------------------------------------------------------
  // The printer
  // ---------------------------------------------------------------------------------------------

  /** The length of the run of `c` that begins `s`. */
  function RunLength(c: char, s: string): (n: nat)
    ensures n <= |s|
    ensures forall i :: 0 <= i < n ==> s[i] == c
    ensures n < |s| ==> s[n] != c
  {
    if s == "" || s[0] != c then 0 else 1 + RunLength(c, s[1..])
  }

  /** The longest of the maximal backtick runs of a text, 0 if it has none. */
  function LongestRun(s: string): nat
    decreases |s|
  {
    if s == "" then 0
    else if s[0] == '`' then Max(RunLength('`', s), LongestRun(s[RunLength('`', s)..]))
    else LongestRun(s[1..])
  }

  function Backticks(n: nat): (s: string)
    ensures |s| == n && forall i :: 0 <= i < n ==> s[i] == '`'
  {
    seq(n, _ => '`')
  }

  function FenceWidth(value: string): nat {
    Max(3, LongestRun(value) + 1)
  }

  const INSTRUCTION := " (pass this string verbatim, do not re-quote):"

  /** `_verbatim`: a labelled block whose fence is wider than any backtick run of the value. */
  function Verbatim(name: string, value: string): string {
    var fence := Backticks(FenceWidth(value));
    name + INSTRUCTION + "\n" + (fence + "\n" + (value + "\n" + fence))
  }

  // ---------------------------------------------------------------------------------------------
  // The reader: CommonMark 0.31.2, sections 2.1 (lines) and 4.5 (fenced code blocks)
  // ---------------------------------------------------------------------------------------------

  predicate LineEnd(c: char) {
    c == '\n' || c == '\r'
  }

  /** The length of the first line, without its line ending. */
  function LineLength(s: string): (n: nat)
    ensures n <= |s|
    ensures forall i :: 0 <= i < n ==> !LineEnd(s[i])
    ensures n < |s| ==> LineEnd(s[n])
  {
    if s == "" || LineEnd(s[0]) then 0 else 1 + LineLength(s[1..])
  }

  /** The length of the first line with its ending: a newline, a return, or both. */
  function LineSpan(s: string): (n: nat)
    ensures LineLength(s) <= n <= |s|
    ensures s != "" ==> n > 0
  {
    var n := LineLength(s);
    if n == |s| then n
    else if s[n] == '\r' && n + 1 < |s| && s[n + 1] == '\n' then n + 2
    else n + 1
  }

  predicate BlankTail(s: string) {
    forall i :: 0 <= i < |s| ==> s[i] == ' ' || s[i] == '\t'
  }

  /** A closing fence: at most three spaces, enough backticks, and then only spaces or tabs. */
  predicate ClosingLine(line: string, width: nat) {
    var indent := RunLength(' ', line);
    var ticks := RunLength('`', line[indent..]);
    indent <= 3 && ticks >= width && BlankTail(line[indent + ticks..])
  }

  /** The width of the fence an opening line starts, 0 if it opens none. */
  function OpeningWidth(line: string): nat {
    var indent := RunLength(' ', line);
    var ticks := RunLength('`', line[indent..]);
    if indent <= 3 && ticks >= 3 && '`' !in line[indent + ticks..] then ticks else 0
  }

  /** Where the block's closing line begins; a block that is never closed runs to the end. */
  function ClosesAt(s: string, width: nat): (n: nat)
    ensures n <= |s|
    decreases |s|
  {
    if s == "" || ClosingLine(s[..LineLength(s)], width) then 0
    else LineSpan(s) + ClosesAt(s[LineSpan(s)..], width)
  }

  /** A text without its last line ending. */
  function ChopEnding(s: string): string {
    if s != "" && s[|s| - 1] == '\n' then
      if |s| >= 2 && s[|s| - 2] == '\r' then s[..|s| - 2] else s[..|s| - 1]
    else if s != "" && s[|s| - 1] == '\r' then s[..|s| - 1]
    else s
  }

  /** The content of the first backtick-fenced block of a document. */
  function ReadBlock(doc: string): Option<string>
    decreases |doc|
  {
    if doc == "" then None
    else
      var width, rest := OpeningWidth(doc[..LineLength(doc)]), doc[LineSpan(doc)..];
      if width > 0 then Some(ChopEnding(rest[..ClosesAt(rest, width)])) else ReadBlock(rest)
  }

  // ---------------------------------------------------------------------------------------------
  // No line of the value closes the block
  // ---------------------------------------------------------------------------------------------

  lemma {:induction false} RunsAreShort(s: string, i: nat, k: nat)
    requires i + k <= |s| && forall j :: i <= j < i + k ==> s[j] == '`'
    ensures k <= LongestRun(s)
    decreases |s|
  {
    if k > 0 {
      if s[0] == '`' {
        var n := RunLength('`', s);
        if n <= i { RunsAreShort(s[n..], i - n, k); }
      } else {
        RunsAreShort(s[1..], i - 1, k);
      }
    }
  }

  /** `w` backticks in a row stand somewhere in `s`. */
  ghost predicate HasRun(s: string, w: nat) {
    exists i :: IsRun(s, i, w)
  }

  predicate IsRun(s: string, i: int, w: nat) {
    0 <= i && i + w <= |s| && forall k :: i <= k < i + w ==> s[k] == '`'
  }

  lemma {:induction false} LongestRunStands(s: string)
    ensures HasRun(s, LongestRun(s))
    decreases |s|
  {
    if s == "" {
      assert IsRun(s, 0, 0);
    } else {
      var n := if s[0] == '`' then RunLength('`', s) else 1;
      LongestRunStands(s[n..]);
      var w := LongestRun(s[n..]);
      var i :| IsRun(s[n..], i, w);
      assert forall k :: i + n <= k < i + n + w ==> s[k] == s[n..][k - n];
      assert IsRun(s, i + n, w);
      if s[0] == '`' { assert IsRun(s, 0, n); }
    }
  }

  /** The fence has at least three backticks and is the narrowest such that no run of the value is as wide. */
  lemma FenceIsNarrowest(value: string)
    ensures FenceWidth(value) >= 3 && !HasRun(value, FenceWidth(value))
    ensures FenceWidth(value) > 3 ==> HasRun(value, FenceWidth(value) - 1)
  {
    LongestRunStands(value);
    if i :| IsRun(value, i, FenceWidth(value)) { RunsAreShort(value, i, FenceWidth(value)); }
  }

  /** The block is the label and its instruction, the fence, the value as it is, and the fence again. */
  lemma VerbatimIsLaidOut(name: string, value: string)
    ensures exists fence :: |fence| == FenceWidth(value) && (forall i :: 0 <= i < |fence| ==> fence[i] == '`')
                            && Verbatim(name, value) == name + " (pass this string verbatim, do not re-quote):" + "\n"
                                                        + fence + "\n" + value + "\n" + fence
  {
    hide LongestRun;
    var fence := Backticks(FenceWidth(value));
    assert Verbatim(name, value) == name + " (pass this string verbatim, do not re-quote):" + "\n"
                                    + fence + "\n" + value + "\n" + fence;
  }

  lemma LinesStayOpen(value: string, i: nat, n: nat, width: nat)
    requires i + n <= |value| && width > LongestRun(value)
    ensures !ClosingLine(value[i..i + n], width)
  {
    hide RunLength, BlankTail, LongestRun;
    var line := value[i..i + n];
    var indent := RunLength(' ', line);
    var ticks := RunLength('`', line[indent..]);
    forall j | i + indent <= j < i + indent + ticks ensures value[j] == '`' {
      assert value[j] == line[j - i] == line[indent..][j - i - indent];
    }
    RunsAreShort(value, i + indent, ticks);
  }

  /** The line ending added after `a` joins the last line of `a`, or its trailing return. */
  predicate RunsOn(a: string) {
    LineLength(a) == |a| || (LineLength(a) == |a| - 1 && a[|a| - 1] == '\r')
  }

  lemma {:induction false} FirstLineOf(a: string, rest: string)
    ensures var s := a + "\n" + rest; LineLength(s) == LineLength(a) && s[..LineLength(s)] == a[..LineLength(a)]
  {
    var s := a + "\n" + rest;
    if a != "" && !LineEnd(a[0]) {
      FirstLineOf(a[1..], rest);
      assert s[1..] == a[1..] + "\n" + rest;
    }
  }

  lemma FirstSpanOf(a: string, rest: string)
    ensures var s := a + "\n" + rest;
            && LineSpan(s) == (if RunsOn(a) then |a| + 1 else LineSpan(a))
            && s[LineSpan(s)..] == (if RunsOn(a) then rest else a[LineSpan(a)..] + "\n" + rest)
  {
    hide LineLength;
    var s, n := a + "\n" + rest, LineLength(a);
    FirstLineOf(a, rest);
    assert forall i :: 0 <= i < |a| ==> s[i] == a[i];
    assert s[|a|] == '\n';
    var span := LineSpan(s);
    if RunsOn(a) {
      assert s[span..] == rest;
    } else {
      assert s[span..] == a[span..] + "\n" + rest;
    }
  }

  /** Lines that do not close are skipped one by one. */
  lemma {:induction false} ClosesAfter(value: string, start: nat, rest: string, width: nat)
    requires start <= |value| && width > LongestRun(value)
    ensures ClosesAt(value[start..] + "\n" + rest, width) == |value| - start + 1 + ClosesAt(rest, width)
    decreases |value| - start
  {
    hide LineLength, LineSpan, ClosingLine, LongestRun, RunsOn;
    var a := value[start..];
    var s := a + "\n" + rest;
    FirstLineOf(a, rest);
    FirstSpanOf(a, rest);
    LinesStayOpen(value, start, LineLength(a), width);
    assert value[start..start + LineLength(a)] == a[..LineLength(a)];
    if !RunsOn(a) {
      RunsOnAtEnd(a);
      assert a[LineSpan(a)..] == value[start + LineSpan(a)..];
      ClosesAfter(value, start + LineSpan(a), rest, width);
    }
  }

  lemma RunsOnAtEnd(a: string)
    requires !RunsOn(a)
    ensures a != "" && LineSpan(a) > 0
  {
  }

  // ---------------------------------------------------------------------------------------------
  // Reading the block back
  // ---------------------------------------------------------------------------------------------

  /** A name that opens a paragraph: it starts with a letter and stays on one line. */
  predicate PlainName(name: string) {
    && name != "" && ('A' <= name[0] <= 'Z' || 'a' <= name[0] <= 'z')
    && forall i :: 0 <= i < |name| ==> !LineEnd(name[i])
  }

  /** What follows the block on its last line leaves that line a closing fence. */
  predicate EndsFence(after: string) {
    var line := after[..LineLength(after)];
    BlankTail(line[RunLength('`', line)..])
  }

  lemma {:induction false} WholeLine(line: string)
    requires forall i :: 0 <= i < |line| ==> !LineEnd(line[i])
    ensures LineLength(line) == |line|
  {
    if line != "" { WholeLine(line[1..]); }
  }

  lemma {:induction false} RunIs(c: char, s: string, n: nat)
    requires n <= |s| && forall i :: 0 <= i < n ==> s[i] == c
    requires n < |s| ==> s[n] != c
    ensures RunLength(c, s) == n
  {
    if n > 0 { RunIs(c, s[1..], n - 1); }
  }

  lemma InstructionParts()
    ensures INSTRUCTION == " (pass this" + " string ver" + "batim, do n" + "ot re-quote):"
  {
  }

  lemma InstructionIsOneLine()
    ensures forall i :: 0 <= i < |INSTRUCTION| ==> !LineEnd(INSTRUCTION[i])
  {
    hide INSTRUCTION;
    InstructionParts();
    assert '\n' !in " (pass this" && '\n' !in " string ver" && '\n' !in "batim, do n" && '\n' !in "ot re-quote):";
    assert '\r' !in " (pass this" && '\r' !in " string ver" && '\r' !in "batim, do n" && '\r' !in "ot re-quote):";
    assert '\n' !in INSTRUCTION && '\r' !in INSTRUCTION;
  }

  lemma NamedLineOpensNothing(name: string)
    requires PlainName(name)
    ensures var line := name + INSTRUCTION;
            OpeningWidth(line) == 0 && LineLength(line) == |line|
  {
    hide LineLength, RunLength, INSTRUCTION, LineEnd;
    var line := name + INSTRUCTION;
    InstructionIsOneLine();
    WholeLine(line);
    assert line[0] == name[0];
    RunIs(' ', line, 0);
    assert line[0..] == line;
    RunIs('`', line, 0);
  }

  lemma FenceOpens(n: nat)
    requires n >= 3
    ensures OpeningWidth(Backticks(n)) == n && LineLength(Backticks(n)) == n
  {
    hide LineLength, RunLength;
    var fence := Backticks(n);
    WholeLine(fence);
    RunIs(' ', fence, 0);
    assert fence[0..] == fence;
    RunIs('`', fence, n);
  }

  lemma FenceCloses(n: nat, after: string)
    requires n >= 3
    ensures ClosingLine((Backticks(n) + after)[..LineLength(Backticks(n) + after)], n) <==> EndsFence(after)
    ensures LineLength(Backticks(n) + after) == n + LineLength(after)
  {
    hide LineLength, RunLength, INSTRUCTION, BlankTail, LineEnd;
    var s := Backticks(n) + after;
    var tail := after[..LineLength(after)];
    LongerLine(n, after);
    var line := s[..LineLength(s)];
    var k := RunLength('`', tail);
    TicksThenTail(n, tail, line);
    RunIs(' ', line, 0);
    RunIs('`', line, n + k);
  }

  lemma TicksThenTail(n: nat, tail: string, line: string)
    requires n >= 3 && line == Backticks(n) + tail
    ensures var k := RunLength('`', tail);
            && line[0..] == line && line[n + k..] == tail[k..] && line[0] == '`'
            && (forall i :: 0 <= i < n + k ==> line[i] == '`') && (k < |tail| ==> line[n + k] != '`')
  {
    hide INSTRUCTION, Backticks;
    assert forall i :: 0 <= i < |tail| ==> line[n + i] == tail[i];
  }

  lemma {:induction false} LongerLine(n: nat, after: string)
    ensures LineLength(Backticks(n) + after) == n + LineLength(after)
  {
    hide INSTRUCTION;
    if n == 0 {
      assert Backticks(0) + after == after;
    } else {
      LongerLine(n - 1, after);
      OneMoreBacktick(n, after);
    }
  }

  lemma OneMoreBacktick(n: nat, after: string)
    requires n > 0
    ensures (Backticks(n) + after)[0] == '`' && (Backticks(n) + after)[1..] == Backticks(n - 1) + after
  {
    hide INSTRUCTION, Backticks;
  }

  /** A line with an ending of its own, alone in front of a text. */
  lemma LineInFront(line: string, rest: string)
    requires LineLength(line) == |line|
    ensures var s := line + "\n" + rest; s[..LineLength(s)] == line && s[LineSpan(s)..] == rest && s != ""
  {
    hide LineLength, LineSpan;
    FirstLineOf(line, rest);
    FirstSpanOf(line, rest);
  }

  lemma OpeningOf(name: string, value: string, after: string)
    requires PlainName(name)
    ensures var rest := value + "\n" + (Backticks(FenceWidth(value)) + after);
            ReadBlock(Verbatim(name, value) + after) == Some(ChopEnding(rest[..ClosesAt(rest, FenceWidth(value))]))
  {
    hide LongestRun, LineLength, LineSpan, OpeningWidth, ClosesAt, ChopEnding;
    var width := FenceWidth(value);
    var fence := Backticks(width);
    var line := name + INSTRUCTION;
    var rest := value + "\n" + (fence + after);
    assert Verbatim(name, value) + after == line + "\n" + (fence + "\n" + rest);
    NamedLineOpensNothing(name);
    LineInFront(line, fence + "\n" + rest);
    FenceOpens(width);
    LineInFront(fence, rest);
  }

  /**
   * Reading the block gives back exactly the value if and only if the value does not end in a return
   * and nothing but spaces and tabs follows the closing fence on its line.
   */
  lemma VerbatimReadsBack(name: string, value: string, after: string)
    requires PlainName(name)
    ensures ReadBlock(Verbatim(name, value) + after) == Some(value)
            <==> (value == "" || value[|value| - 1] != '\r') && EndsFence(after)
  {
    hide LongestRun, LineLength, LineSpan, ClosesAt, EndsFence, ClosingLine, FenceWidth, ReadBlock;
    var width := FenceWidth(value);
    var close := Backticks(width) + after;
    var rest := value + "\n" + close;
    OpeningOf(name, value, after);
    WideEnough(value);
    assert value[0..] == value;
    ClosesAfter(value, 0, close, width);
    FenceCloses(width, after);
    CloseOrLater(close, width);
    var n := ClosesAt(close, width);
    assert rest[..|value| + 1 + n] == value + "\n" + close[..n];
    if n == 0 {
      ChopAdded(value);
    } else {
      ChopsAtMostTwo(value + "\n" + close[..n]);
    }
  }

  lemma WideEnough(value: string)
    ensures FenceWidth(value) > LongestRun(value) && FenceWidth(value) >= 3
  {
    hide LongestRun;
  }

  lemma CloseOrLater(close: string, width: nat)
    requires |close| >= width >= 3 && forall i :: 0 <= i < width ==> close[i] == '`'
    ensures ClosesAt(close, width) == 0 <==> ClosingLine(close[..LineLength(close)], width)
    ensures ClosesAt(close, width) > 0 ==> ClosesAt(close, width) >= 3
  {
    hide LineLength, ClosingLine;
    assert LineLength(close) >= 3;
  }

  lemma ChopAdded(value: string)
    ensures ChopEnding(value + "\n" + "") == value <==> (value == "" || value[|value| - 1] != '\r')
  {
    var s := value + "\n" + "";
    assert s[..|s| - 1] == value;
  }

  lemma ChopsAtMostTwo(s: string)
    ensures |ChopEnding(s)| >= |s| - 2
  {
  }

  /** A value that ends in a return loses it: with the newline before the fence it makes one line ending. */
  lemma TrailingReturnIsLost(name: string)
    requires PlainName(name)
    ensures ReadBlock(Verbatim(name, "x\r")) != Some("x\r")
  {
    hide LongestRun, ClosesAt, FenceWidth, ReadBlock, Verbatim, EndsFence;
    VerbatimReadsBack(name, "x\r", "");
    assert Verbatim(name, "x\r") + "" == Verbatim(name, "x\r");
  }

  /** In the bodies of `ask` and `ground` the closing fence is followed by more text, so nothing closes there. */
  lemma BodyDoesNotReadBack(name: string, value: string, rest: string)
    requires PlainName(name)
    ensures ReadBlock(Verbatim(name, value) + ", tag_expr=" + rest) != Some(value)
  {
    hide LongestRun, ClosesAt, FenceWidth, ReadBlock, Verbatim;
    var after := ", tag_expr=" + rest;
    assert after[0] == ',';
    assert Verbatim(name, value) + ", tag_expr=" + rest == Verbatim(name, value) + after;
    VerbatimReadsBack(name, value, after);
    RunIs('`', after[..LineLength(after)], 0);
  }
}
