/** Rendering a mirror file: what stripping undoes, and exactly when re-rendering is the identity. */
module Mirror {
  import opened Text
  import opened Frontmatter
  import opened FrontmatterPrinter

  function EndLine(body: string): string {
    if body != "" && body[|body| - 1] == '\n' then body else body + "\n"
  }

  /** `render_mirror`, with the title already chosen. */
  function Render(m: Metadata, body: string): string {
    BuildFrontmatter(m) + "\n" + EndLine(Stripped(body))
  }

  /** A page the writer has stacked once for each entry of `ms`. */
  function Stacked(ms: seq<Metadata>, body: string): string {
    if ms == [] then body else BuildFrontmatter(ms[0]) + "\n" + Stacked(ms[1..], body)
  }

  predicate AllPrintable(ms: seq<Metadata>) {
    forall m :: m in ms ==> Printable(m)
  }

  /** A body that stripping leaves alone even right after a block. */
  predicate Settled(body: string) {
    body == "" || (!IsBlank(FirstLine(body)) && !IsRule(FirstLine(body)) && body[0] != '\r')
  }

  lemma BlockThenBody(m: Metadata, rest: string)
    requires Printable(m)
    ensures Lines(BuildFrontmatter(m) + "\n" + rest) == (BlockLines(m) + [""]) + Lines(rest)
  {
    hide BlockLines, IsRule, Join, Lines;
    BlockIsWellFormed(m);
    var b := BlockLines(m);
    UnlinesSnoc(b, "");
    UnlinesSnoc(b + [""], rest);
    assert BuildFrontmatter(m) + "" == BuildFrontmatter(m);
    LinesOfUnlines(b + [""], rest);
  }

  /** A leading block and the blank line under it are stepped over. */
  lemma BlockIsSkipped(block: seq<string>, rest: seq<string>, removed: bool)
    requires IsBlock(block)
    ensures AfterBlocks((block + [""]) + rest, removed) == AfterBlocks(rest, true)
  {
    hide IsRule, IsBlank;
    OpeningIsRule();
    EmptyIsBlank();
    var lines := (block + [""]) + rest;
    forall i | 0 <= i < 8 ensures lines[i] == block[i] {}
    BlockGoes(lines, 0, 7);
    assert lines[0..] == lines && lines[8..][0] == "" && lines[8..][1..] == rest;
  }

  lemma {:induction false} StackIsSkipped(ms: seq<Metadata>, body: string, removed: bool)
    requires AllPrintable(ms)
    ensures ms != [] || removed ==> AfterBlocks(Lines(Stacked(ms, body)), removed) == AfterBlocks(Lines(body), true)
  {
    if ms != [] {
      hide BlockLines, Lines, AfterBlocks, IsBlock;
      BlockIsWellFormed(ms[0]);
      BlockThenBody(ms[0], Stacked(ms[1..], body));
      BlockIsSkipped(BlockLines(ms[0]), Lines(Stacked(ms[1..], body)), removed);
      StackIsSkipped(ms[1..], body, true);
    }
  }

  lemma StackOpens(ms: seq<Metadata>, body: string)
    requires AllPrintable(ms) && ms != []
    ensures StartsWith(Stacked(ms, body), "---") && IsRule(Lines(Stacked(ms, body))[0])
    ensures |Stacked(ms, body)| > |body|
  {
    hide IsRule;
    OpeningIsRule();
    BlockThenBody(ms[0], Stacked(ms[1..], body));
    BlockIsWellFormed(ms[0]);
    assert FirstLine(Stacked(ms, body)) == "---";
    StackGrows(ms[1..], body);
  }

  lemma {:induction false} StackGrows(ms: seq<Metadata>, body: string)
    ensures |Stacked(ms, body)| >= |body|
  {
    if ms != [] { StackGrows(ms[1..], body); }
  }

  /** Whatever the blocks are, stripping a stack depends on the body alone. */
  lemma StrippedStack(ms: seq<Metadata>, body: string)
    requires AllPrintable(ms) && ms != []
    ensures Stripped(Stacked(ms, body)) ==
            match AfterBlocks(Lines(body), true)
            case None => Stacked(ms, body)
            case Some(rest) => LStripCrLf(Unlines(rest))
  {
    hide IsRule, AfterBlocks, Stacked;
    StackOpens(ms, body);
    StackIsSkipped(ms, body, false);
  }

  lemma SettledStays(body: string)
    requires Settled(body)
    ensures AfterBlocks(Lines(body), true).Some?
    ensures LStripCrLf(Unlines(AfterBlocks(Lines(body), true).value)) == body
  {
    hide IsRule, IsBlank, Lines, AfterBlocks, Join;
    EmptyIsBlank();
    if body == "" {
      LinesOfEmpty();
      AllBlankGoes([""]);
      EmptyJoin();
    } else {
      NothingMore(Lines(body));
      UnlinesOfLines(body);
    }
  }

  lemma AllBlankGoes(lines: seq<string>)
    requires forall i :: 0 <= i < |lines| ==> IsBlank(lines[i])
    ensures AfterBlocks(lines, true) == Some([])
  {
    hide IsBlank, IsRule;
    DropBlankIs(lines, 0, |lines|);
    assert lines[0..] == lines;
  }

  /** Anything the stripper returns after a block is settled. */
  lemma RestIsSettled(body: string)
    requires AfterBlocks(Lines(body), true).Some?
    ensures Settled(LStripCrLf(Unlines(AfterBlocks(Lines(body), true).value)))
  {
    hide IsRule, IsBlank, Join, Lines;
    RestIsPlain(Lines(body), true);
    var rest := AfterBlocks(Lines(body), true).value;
    if rest == [] {
      EmptyJoin();
    } else {
      UnlinesOfLines(body);
      FirstOfUnlines(rest);
      FirstLineAfterDrop(Unlines(rest));
    }
  }

  lemma EmptyJoin()
    ensures Unlines([]) == "" && LStripCrLf("") == ""
  {
  }

  /**
   * Stripping n stacked blocks gives back the body exactly when the body is empty, or its first line is
   * neither blank nor a rule and does not start with a carriage return.
   */
  lemma StrippingUndoesStacking(ms: seq<Metadata>, body: string)
    requires AllPrintable(ms) && ms != []
    ensures Stripped(Stacked(ms, body)) == body <==> Settled(body)
  {
    hide Settled, Stripped, Stacked, AfterBlocks, Join, LStripCrLf;
    StrippedStack(ms, body);
    if Settled(body) {
      SettledStays(body);
    } else if AfterBlocks(Lines(body), true).Some? {
      RestIsSettled(body);
    } else {
      StackOpens(ms, body);
    }
  }

  lemma SettledOfEndLine(body: string)
    requires body != ""
    ensures Settled(EndLine(body)) == Settled(body)
  {
    hide IsRule, IsBlank;
    if body[|body| - 1] != '\n' {
      FirstLineOfEndLine(body);
    }
  }

  lemma {:induction false} FirstLineOfEndLine(body: string)
    ensures FirstLine(body + "\n") == FirstLine(body)
  {
    if body != "" && body[0] != '\n' {
      assert (body + "\n")[1..] == body[1..] + "\n";
      FirstLineOfEndLine(body[1..]);
    }
  }

  lemma StrippedRender(m: Metadata, body: string)
    requires Printable(m)
    ensures Render(m, body) == Stacked([m], EndLine(Stripped(body)))
    ensures Render(m, body) != ""
  {
    hide Stripped;
    assert Stacked([m][1..], EndLine(Stripped(body))) == EndLine(Stripped(body));
  }

  /** Stripping one block off a body that ends in a newline and ending the line again gives that body back. */
  lemma ReEnded(m: Metadata, body: string)
    requires Printable(m)
    ensures EndLine(Stripped(Stacked([m], EndLine(body)))) == EndLine(body) <==> Settled(body) || body == "\n"
  {
    hide Settled, Stripped, Stacked, AfterBlocks, LStripCrLf, Join, Lines;
    var b := EndLine(body);
    var r := Stripped(Stacked([m], b));
    StrippingUndoesStacking([m], b);
    StrippedStack([m], b);
    EmptyIsSettled();
    if body == "" || body == "\n" {
      assert b == "\n" && EndLine("") == "\n";
      NewlineAlone();
    } else {
      SettledOfEndLine(body);
      if EndLine(r) == b && r != b {
        StackOpens([m], b);
        RestIsSettled(b);
        if r != "" { SettledOfEndLine(r); }
      }
    }
  }

  lemma EmptyIsSettled()
    ensures Settled("")
  {
  }

  lemma NewlineAlone()
    ensures AfterBlocks(Lines("\n"), true) == Some([])
    ensures LStripCrLf(Unlines([])) == ""
    ensures !Settled("\n")
  {
    hide IsBlank, IsRule, Lines, AfterBlocks, Join;
    EmptyIsBlank();
    LinesOfEmpty();
    LinesOfCons("", "");
    assert "" + "\n" + "" == "\n";
    assert Lines("\n") == ["", ""];
    AllBlankGoes(["", ""]);
    EmptyJoin();
  }

  /**
   * Re-rendering a rendered mirror, under any metadata, replaces the block and keeps the body exactly when
   * the stripped body is settled or a lone newline.
   */
  lemma RenderIsIdempotent(first: Metadata, second: Metadata, body: string)
    requires Printable(first) && Printable(second)
    ensures Render(second, Render(first, body)) == Render(second, body)
       <==> Settled(Stripped(body)) || Stripped(body) == "\n"
  {
    hide Stripped, Stacked, Settled, EndLine, BuildFrontmatter;
    StrippedRender(first, body);
    ReEnded(first, Stripped(body));
    SamePrefix(BuildFrontmatter(second) + "\n", EndLine(Stripped(Render(first, body))), EndLine(Stripped(body)));
  }

  lemma SamePrefix(prefix: string, a: string, b: string)
    ensures prefix + a == prefix + b <==> a == b
  {
    if prefix + a == prefix + b {
      assert a == (prefix + a)[|prefix|..] && b == (prefix + b)[|prefix|..];
    }
  }

  /** A body that already carried a block always re-renders to itself. */
  lemma MirroredBodyIsStable(first: Metadata, second: Metadata, body: string)
    requires Printable(first) && Printable(second) && Stripped(body) != body
    ensures Render(second, Render(first, body)) == Render(second, body)
  {
    StrippedIsPlain(body);
    RenderIsIdempotent(first, second, body);
  }

  /** A body that opens with a blank line is not: the second rendering drops that line. */
  lemma BlankOpeningIsLost(m: Metadata)
    requires Printable(m)
    ensures Render(m, Render(m, "\n# Page\n")) != Render(m, "\n# Page\n")
  {
    EmptyIsBlank();
    assert FirstLine("\n# Page\n") == "";
    RenderIsIdempotent(m, m, "\n# Page\n");
  }
}
