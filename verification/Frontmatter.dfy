/** Frontmatter blocks of mirror files: the printer, the stripper that undoes it, and the date derived from a hash. */
module Frontmatter {
  import opened Text

  // ---------------------------------------------------------------------------------------------
  // Rule lines and blank lines
  // ---------------------------------------------------------------------------------------------

  function RStripCr(s: string): string {
    if s != "" && s[|s| - 1] == '\r' then RStripCr(s[..|s| - 1]) else s
  }

  function LStripCrLf(s: string): string {
    if s != "" && (s[0] == '\r' || s[0] == '\n') then LStripCrLf(s[1..]) else s
  }

  /** A line that opens or closes a block. */
  predicate IsRule(line: string) {
    Strip(RStripCr(line)) == "---"
  }

  predicate IsBlank(line: string) {
    Strip(line) == ""
  }

  predicate Trimmed(s: string, a: nat, b: nat) {
    && a < b <= |s| && !IsSpace(s[a]) && !IsSpace(s[b - 1])
    && forall i :: 0 <= i < |s| && (i < a || b <= i) ==> IsSpace(s[i])
  }

  lemma StripIsMiddle(s: string, a: nat, b: nat)
    requires Trimmed(s, a, b)
    ensures Strip(s) == s[a..b]
  {
    hide IsSpace;
    assert Margin(s) == a;
    var t := s[a..];
    forall i | 0 <= i < |t| ensures t[i] == s[a + i] {}
    assert !IsSpace(t[b - a - 1]);
    assert Extent(t) == b - a;
  }

  lemma {:induction false} RStripCrIsPrefix(s: string)
    ensures |RStripCr(s)| <= |s| && RStripCr(s) == s[..|RStripCr(s)|]
    ensures forall i :: |RStripCr(s)| <= i < |s| ==> s[i] == '\r'
  {
    if s != "" && s[|s| - 1] == '\r' {
      RStripCrIsPrefix(s[..|s| - 1]);
    }
  }

  lemma StripIgnoresTail(s: string, k: nat)
    requires k <= |s| && forall i :: k <= i < |s| ==> IsSpace(s[i])
    ensures Strip(s[..k]) == Strip(s)
  {
    hide IsSpace;
    var t, a, b := s[..k], Margin(s), Extent(s);
    forall i | 0 <= i < k ensures t[i] == s[i] {}
    if a == |s| {
      StripEmptyIffBlank(s);
      StripEmptyIffBlank(t);
    } else {
      StripIsMiddle(s, a, b);
      StripIsMiddle(t, a, b);
      assert t[a..b] == s[a..b];
    }
  }

  /** Dropping carriage returns first makes no difference to the test. */
  lemma RuleByStrip(line: string)
    ensures IsRule(line) <==> Strip(line) == "---"
  {
    RStripCrIsPrefix(line);
    StripIgnoresTail(line, |RStripCr(line)|);
  }

  lemma BlankIsNoRule(line: string)
    requires IsBlank(line)
    ensures !IsRule(line)
  {
    RuleByStrip(line);
  }

  lemma OpeningIsRule()
    ensures IsRule("---") && !IsBlank("---")
  {
    RuleByStrip("---");
    StripIsMiddle("---", 0, 3);
  }

  /** A line beginning with a letter of a key is neither. */
  lemma KeyLineIsPlain(line: string)
    requires line != "" && !IsSpace(line[0]) && line[0] != '-'
    ensures !IsRule(line) && !IsBlank(line)
  {
    StripIsMiddle(line, 0, Extent(line));
    RuleByStrip(line);
  }

  lemma LeadingCr(line: string)
    requires line != "" && line[0] == '\r'
    ensures IsRule(line[1..]) == IsRule(line) && IsBlank(line[1..]) == IsBlank(line)
  {
    RuleByStrip(line);
    RuleByStrip(line[1..]);
    assert LStrip(line) == LStrip(line[1..]);
  }

  // ---------------------------------------------------------------------------------------------
  // Stripping
  // ---------------------------------------------------------------------------------------------

  function DropBlank(lines: seq<string>): seq<string> {
    if lines != [] && IsBlank(lines[0]) then DropBlank(lines[1..]) else lines
  }

  /** The first rule line at or after `from`, or the number of lines. */
  function NextRule(lines: seq<string>, from: nat): (n: nat)
    requires from <= |lines|
    ensures from <= n <= |lines|
    ensures forall i :: from <= i < n ==> !IsRule(lines[i])
    ensures n < |lines| ==> IsRule(lines[n])
    decreases |lines| - from
  {
    if from < |lines| && !IsRule(lines[from]) then NextRule(lines, from + 1) else from
  }

  /** What follows every consecutive leading block; `None` when a block never closes. */
  function AfterBlocks(lines: seq<string>, removed: bool): Option<seq<string>>
    decreases |lines|
  {
    var here := if removed then DropBlank(lines) else lines;
    DropBlankIsSuffix(lines);
    if here == [] || !IsRule(here[0]) then Some(here)
    else
      var closer := NextRule(here, 1);
      if closer == |here| then None else AfterBlocks(here[closer + 1..], true)
  }

  function Stripped(text: string): string {
    if !StartsWith(text, "---") || !IsRule(Lines(text)[0]) then text
    else
      match AfterBlocks(Lines(text), false)
      case None => text
      case Some(rest) => LStripCrLf(Unlines(rest))
  }

  lemma {:induction false} DropBlankIsSuffix(lines: seq<string>)
    ensures |DropBlank(lines)| <= |lines|
    ensures DropBlank(lines) != [] ==> !IsBlank(DropBlank(lines)[0])
    ensures forall l :: l in DropBlank(lines) ==> l in lines
  {
    if lines != [] && IsBlank(lines[0]) { DropBlankIsSuffix(lines[1..]); }
  }

  lemma {:induction false} DropBlankIs(lines: seq<string>, from: nat, to: nat)
    requires from <= to <= |lines|
    requires forall i :: from <= i < to ==> IsBlank(lines[i])
    requires to < |lines| ==> !IsBlank(lines[to])
    ensures DropBlank(lines[from..]) == lines[to..]
    decreases |lines| - from
  {
    hide IsBlank;
    if from < to {
      assert lines[from..][1..] == lines[from + 1..];
      DropBlankIs(lines, from + 1, to);
    }
  }

  /** One block, from its opening rule at `index` to its closing rule. */
  lemma BlockGoes(lines: seq<string>, index: nat, closer: nat)
    requires index < closer <= |lines| && IsRule(lines[index])
    requires forall i :: index < i < closer ==> !IsRule(lines[i])
    requires closer < |lines| ==> IsRule(lines[closer])
    ensures AfterBlocks(lines[index..], true) == AfterBlocks(lines[index..], false) ==
            if closer < |lines| then AfterBlocks(lines[closer + 1..], true) else None
  {
    hide IsRule, IsBlank;
    if IsBlank(lines[index]) { BlankIsNoRule(lines[index]); }
    var here := lines[index..];
    forall i | 0 <= i < |here| ensures here[i] == lines[index + i] {}
    assert NextRule(here, 1) == closer - index;
    if closer < |lines| { assert here[closer - index + 1..] == lines[closer + 1..]; }
  }

  /** The nested index loops of the stripper. */
  method StripFrontmatter(text: string) returns (body: string)
    ensures body == Stripped(text)
  {
    hide IsRule, IsBlank, AfterBlocks, DropBlank, Unlines, LStripCrLf;
    if !StartsWith(text, "---") { return text; }
    var lines := Lines(text);
    var index, removed := 0, false;
    assert lines[0..] == lines;
    while index < |lines|
      invariant index <= |lines|
      invariant AfterBlocks(lines[index..], removed) == AfterBlocks(lines, false)
      invariant if removed then IsRule(lines[0]) else index == 0
    {
      ghost var from := index;
      if removed {
        while index < |lines| && IsBlank(lines[index])
          invariant from <= index <= |lines|
          invariant forall i :: from <= i < index ==> IsBlank(lines[i])
        {
          index := index + 1;
        }
        DropBlankIs(lines, from, index);
        AfterDrop(lines[from..], lines[index..]);
      }
      if index >= |lines| || !IsRule(lines[index]) { break; }
      var closer := index + 1;
      while closer < |lines| && !IsRule(lines[closer])
        invariant index < closer <= |lines|
        invariant forall i :: index < i < closer ==> !IsRule(lines[i])
      {
        closer := closer + 1;
      }
      BlockGoes(lines, index, closer);
      if closer >= |lines| { return text; }
      index := closer + 1;
      removed := true;
    }
    if !removed { return text; }
    NothingMore(lines[index..]);
    return LStripCrLf(Unlines(lines[index..]));
  }

  lemma AfterDrop(lines: seq<string>, rest: seq<string>)
    requires DropBlank(lines) == rest
    ensures AfterBlocks(lines, true) == AfterBlocks(rest, false)
    ensures DropBlank(rest) == rest
  {
    hide IsBlank, IsRule;
    DropBlankIsSuffix(lines);
  }

  lemma NothingMore(rest: seq<string>)
    requires rest == [] || (!IsRule(rest[0]) && !IsBlank(rest[0]))
    ensures AfterBlocks(rest, true) == AfterBlocks(rest, false) == Some(rest)
  {
  }

  // ---------------------------------------------------------------------------------------------
  // Idempotence
  // ---------------------------------------------------------------------------------------------

  /** What is left starts with a line that opens no block. */
  lemma {:induction false} RestIsPlain(lines: seq<string>, removed: bool)
    requires AfterBlocks(lines, removed).Some? && (removed || (lines != [] && IsRule(lines[0])))
    ensures var rest := AfterBlocks(lines, removed).value;
            && (rest != [] ==> !IsRule(rest[0]) && !IsBlank(rest[0]))
            && (forall l :: l in rest ==> l in lines)
    decreases |lines|
  {
    hide IsRule, IsBlank;
    DropBlankIsSuffix(lines);
    var here := if removed then DropBlank(lines) else lines;
    if here != [] && IsRule(here[0]) {
      RestIsPlain(here[NextRule(here, 1) + 1..], true);
    }
  }

  /** Dropping leading line ends from a text with a non-blank first line only takes carriage returns off that line. */
  lemma {:induction false} FirstLineAfterDrop(s: string)
    requires !IsBlank(FirstLine(s))
    ensures IsRule(FirstLine(LStripCrLf(s))) == IsRule(FirstLine(s))
    ensures IsBlank(FirstLine(LStripCrLf(s))) == IsBlank(FirstLine(s))
    ensures LStripCrLf(s) != "" && LStripCrLf(s)[0] != '\r' && LStripCrLf(s)[0] != '\n'
  {
    EmptyIsBlank();
    if s[0] == '\r' {
      LeadingCr(FirstLine(s));
      assert FirstLine(s)[1..] == FirstLine(s[1..]);
      FirstLineAfterDrop(s[1..]);
    }
  }

  lemma EmptyIsBlank()
    ensures IsBlank("")
  {
  }

  lemma FirstOfUnlines(lines: seq<string>)
    requires lines != [] && forall l :: l in lines ==> NewlineFree(l)
    ensures FirstLine(Unlines(lines)) == lines[0]
  {
    if |lines| > 1 {
      FirstLineOf(lines[0], Join("\n", lines[1..]));
    }
  }

  /** A removed block leaves a body that neither opens a block nor starts with a line end. */
  lemma StrippedIsPlain(text: string)
    requires Stripped(text) != text
    ensures var body := Stripped(text);
            body == "" || (!IsRule(FirstLine(body)) && !IsBlank(FirstLine(body)) && body[0] != '\r')
  {
    RestIsPlain(Lines(text), false);
    var rest := AfterBlocks(Lines(text), false).value;
    if rest != [] {
      UnlinesOfLines(text);
      FirstOfUnlines(rest);
      FirstLineAfterDrop(Unlines(rest));
    }
  }

  /** Stripping is idempotent on every text. */
  lemma StripIsIdempotent(text: string)
    ensures Stripped(Stripped(text)) == Stripped(text)
  {
    if Stripped(text) != text { StrippedIsPlain(text); }
  }
}
