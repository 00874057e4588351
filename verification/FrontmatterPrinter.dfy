/** The frontmatter printer, and what readers get back out of the blocks it writes. */
module FrontmatterPrinter {
  import opened Sequences
  import opened Text
  import opened Frontmatter
  import opened IngestDate

  // ---------------------------------------------------------------------------------------------
  // Quoting
  // ---------------------------------------------------------------------------------------------

  function Replace(s: string, c: char, sub: string): string {
    if s == "" then "" else (if s[0] == c then sub else [s[0]]) + Replace(s[1..], c, sub)
  }

  function Quoted(value: string): string {
    var safe := Replace(Replace(Replace(Replace(value, '\r', " "), '\n', " "), '\\', "\\\\"), '"', "\\\"");
    "\"" + safe + "\""
  }

  /** The value a reader can hope for: line ends have become spaces. */
  function OneLine(value: string): (r: string)
    ensures |r| == |value|
    ensures forall i :: 0 <= i < |value| ==> r[i] == if value[i] == '\r' || value[i] == '\n' then ' ' else value[i]
  {
    seq(|value|, i requires 0 <= i < |value| => if value[i] == '\r' || value[i] == '\n' then ' ' else value[i])
  }

  function Escaped(c: char): string {
    if c == '\r' || c == '\n' then " "
    else if c == '\\' then "\\\\"
    else if c == '"' then "\\\""
    else [c]
  }

  function EscapedAll(s: string): string {
    if s == "" then "" else Escaped(s[0]) + EscapedAll(s[1..])
  }

  lemma {:induction false} ReplaceAppend(s: string, t: string, c: char, sub: string)
    ensures Replace(s + t, c, sub) == Replace(s, c, sub) + Replace(t, c, sub)
  {
    if s == "" {
      assert s + t == t;
    } else {
      assert (s + t)[1..] == s[1..] + t;
      ReplaceAppend(s[1..], t, c, sub);
    }
  }

  /** The four replacements in sequence escape each character on its own. */
  lemma {:induction false} QuotingIsPerCharacter(value: string)
    ensures Quoted(value) == "\"" + EscapedAll(value) + "\""
  {
    if value != "" {
      var c, rest := value[0], value[1..];
      QuotingIsPerCharacter(rest);
      var s1 := Replace(rest, '\r', " ");
      var h1 := Replace([c], '\r', " ");
      assert value == [c] + rest;
      ReplaceAppend([c], rest, '\r', " ");
      var s2, h2 := Replace(s1, '\n', " "), Replace(h1, '\n', " ");
      ReplaceAppend(h1, s1, '\n', " ");
      var s3, h3 := Replace(s2, '\\', "\\\\"), Replace(h2, '\\', "\\\\");
      ReplaceAppend(h2, s2, '\\', "\\\\");
      var s4, h4 := Replace(s3, '"', "\\\""), Replace(h3, '"', "\\\"");
      ReplaceAppend(h3, s3, '"', "\\\"");
      OneCharacter(c);
      assert h4 == Escaped(c);
      assert Quoted(rest) == "\"" + s4 + "\"";
      assert s4 == EscapedAll(rest) by {
        assert ("\"" + s4 + "\"")[1..|s4| + 1] == s4;
        assert ("\"" + EscapedAll(rest) + "\"")[1..|EscapedAll(rest)| + 1] == EscapedAll(rest);
      }
    }
  }

  lemma ReplaceOne(s: string, c: char, sub: string)
    requires |s| == 1
    ensures Replace(s, c, sub) == if s[0] == c then sub else s
  {
    assert s[1..] == "" && Replace("", c, sub) == "";
  }

  lemma OneCharacter(c: char)
    ensures Replace(Replace(Replace(Replace([c], '\r', " "), '\n', " "), '\\', "\\\\"), '"', "\\\"") == Escaped(c)
  {
    ReplaceOne([c], '\r', " ");
    var h := Replace([c], '\r', " ");
    ReplaceOne(h, '\n', " ");
    h := Replace(h, '\n', " ");
    ReplaceOne(h, '\\', "\\\\");
    if c == '\\' {
      assert "\\\\" == "\\" + "\\";
      ReplaceAppend("\\", "\\", '"', "\\\"");
      ReplaceOne("\\", '"', "\\\"");
    } else {
      ReplaceOne(h, '"', "\\\"");
    }
  }

  /** The characters a quoted scalar may hold unescaped: tab, and everything from the space on. */
  predicate JsonChar(c: char) {
    c == '\t' || c >= ' '
  }

  /** A single-line double-quoted scalar, section 7.3.1 of YAML 1.2, restricted to the two escapes the printer emits. */
  function ReadQuoted(s: string): Option<string> {
    if s != "" && s[0] == '"' then ReadRest(s[1..]) else None
  }

  function ReadRest(s: string): Option<string> {
    if s == "" || !JsonChar(s[0]) then None
    else if s[0] == '"' then if |s| == 1 then Some("") else None
    else if s[0] != '\\' then Prepend(s[0], ReadRest(s[1..]))
    else if |s| > 1 && (s[1] == '\\' || s[1] == '"') then Prepend(s[1], ReadRest(s[2..]))
    else None
  }

  function Prepend(c: char, rest: Option<string>): Option<string> {
    if rest.Some? then Some([c] + rest.value) else None
  }

  /** A value that printing can carry: every control character in it is a tab or a line end. */
  predicate Carried(value: string) {
    forall i :: 0 <= i < |value| ==> CarriedChar(value[i])
  }

  predicate CarriedChar(c: char) {
    JsonChar(c) || c == '\n' || c == '\r'
  }

  lemma ReadOne(c: char, rest: string)
    requires rest != ""
    ensures ReadRest(Escaped(c) + rest)
            == if CarriedChar(c) then Prepend(if c == '\r' || c == '\n' then ' ' else c, ReadRest(rest)) else None
  {
    var e := Escaped(c);
    assert (e + rest)[|e|..] == rest && (e + rest)[0] == e[0];
    if |e| == 2 { assert (e + rest)[1] == c; }
  }

  lemma {:induction false} RestIsRead(value: string)
    ensures ReadRest(EscapedAll(value) + "\"") == if Carried(value) then Some(OneLine(value)) else None
  {
    if value == "" {
      EmptyAppend("\"");
    } else {
      hide ReadRest, Escaped, CarriedChar;
      var rest := EscapedAll(value[1..]) + "\"";
      RestIsRead(value[1..]);
      assert EscapedAll(value) + "\"" == Escaped(value[0]) + rest;
      ReadOne(value[0], rest);
      CarriedParts(value);
      if Carried(value) { OneLineParts(value); }
    }
  }

  lemma CarriedParts(value: string)
    requires value != ""
    ensures Carried(value) <==> CarriedChar(value[0]) && Carried(value[1..])
  {
    hide CarriedChar;
    assert forall i :: 1 <= i < |value| ==> value[i] == value[1..][i - 1];
  }

  lemma OneLineParts(value: string)
    requires value != ""
    ensures OneLine(value) == [OneLine(value)[0]] + OneLine(value[1..])
  {
  }

  /**
   * Unquoting a quoted value returns the input with CR and LF replaced by spaces, exactly when the value
   * holds no control character but tabs and line ends; otherwise the printed scalar is not one.
   */
  lemma UnquoteOfQuoted(value: string)
    ensures ReadQuoted(Quoted(value)) == if Carried(value) then Some(OneLine(value)) else None
  {
    QuotingIsPerCharacter(value);
    RestIsRead(value);
    assert Quoted(value)[1..] == EscapedAll(value) + "\"";
  }

  /** A bell in a title is such a character. */
  lemma BellIsNotCarried()
    ensures ReadQuoted(Quoted("a\U{0007}b")) == None
  {
    var value := "a\U{0007}b";
    assert !CarriedChar(value[1]);
    UnquoteOfQuoted(value);
  }

  lemma QuotedIsNewlineFree(value: string)
    ensures NewlineFree(Quoted(value))
  {
    QuotingIsPerCharacter(value);
    EscapedIsNewlineFree(value);
  }

  lemma {:induction false} EscapedIsNewlineFree(value: string)
    ensures NewlineFree(EscapedAll(value))
  {
    if value != "" { EscapedIsNewlineFree(value[1..]); }
  }

  // ---------------------------------------------------------------------------------------------
  // The block
  // ---------------------------------------------------------------------------------------------

  datatype Metadata = Metadata(title: string, sourceUrl: Option<string>, sourcePath: Option<string>,
                               sourceHash: string, fetchedVia: string)

  /** The two fields that are printed unquoted carry no newline. */
  predicate Printable(m: Metadata) {
    NewlineFree(m.sourceHash) && NewlineFree(m.fetchedVia)
  }

  function OrNull(value: Option<string>): string {
    if value.Some? then Quoted(value.value) else "null"
  }

  function BlockLines(m: Metadata): seq<string> {
    [ "---",
      "title: " + Quoted(m.title),
      "source_url: " + OrNull(m.sourceUrl),
      "source_path: " + OrNull(m.sourcePath),
      "source_hash: " + m.sourceHash,
      "fetched_via: " + m.fetchedVia,
      "ingested_at: " + IngestedAt(m.sourceHash),
      "---" ]
  }

  function BuildFrontmatter(m: Metadata): string {
    Unlines(BlockLines(m)) + "\n"
  }

  lemma {:induction false} UnlinesSnoc(lines: seq<string>, last: string)
    requires lines != []
    ensures Unlines(lines + [last]) == Unlines(lines) + "\n" + last
  {
    if |lines| > 1 {
      UnlinesSnoc(lines[1..], last);
      ConsAppend(lines, [last]);
      UnlinesCons(lines[0], lines[1..] + [last]);
    } else {
      assert lines + [last] == [lines[0]] + [last];
      UnlinesCons(lines[0], [last]);
    }
  }

  /** Six key lines between two rules; no line in between can close the block early. */
  ghost predicate IsBlock(lines: seq<string>) {
    && |lines| == 8 && lines[0] == "---" && lines[7] == "---"
    && (forall i :: 0 <= i < 8 ==> NewlineFree(lines[i]))
    && (forall i :: 0 < i < 7 ==> !IsRule(lines[i]))
    && StartsWith(lines[1], "title: ") && StartsWith(lines[2], "source_url: ") && StartsWith(lines[3], "source_path: ")
    && StartsWith(lines[4], "source_hash: ") && StartsWith(lines[5], "fetched_via: ")
    && StartsWith(lines[6], "ingested_at: ")
  }

  lemma OrNullIsNewlineFree(value: Option<string>)
    ensures NewlineFree(OrNull(value))
  {
    if value.Some? { QuotedIsNewlineFree(value.value); }
  }

  lemma BlockIsWellFormed(m: Metadata)
    requires Printable(m)
    ensures IsBlock(BlockLines(m))
  {
    hide IsRule, Quoted, OrNull, IngestedAt;
    QuotedIsNewlineFree(m.title);
    OrNullIsNewlineFree(m.sourceUrl);
    OrNullIsNewlineFree(m.sourcePath);
    IngestedAtIsNewlineFree(m.sourceHash);
    forall i | 0 < i < 7 ensures !IsRule(BlockLines(m)[i]) { KeyLineIsPlain(BlockLines(m)[i]); }
  }

  /** The printed block splits back into its own lines. */
  lemma PrintedBlockSplits(m: Metadata)
    requires Printable(m)
    ensures IsBlock(BlockLines(m)) && Lines(BuildFrontmatter(m)) == BlockLines(m) + [""]
  {
    hide BlockLines, IsRule, Join, Lines;
    BlockIsWellFormed(m);
    UnlinesSnoc(BlockLines(m), "");
    assert BuildFrontmatter(m) + "" == BuildFrontmatter(m);
    LinesOfUnlines(BlockLines(m), "");
    LinesOfEmpty();
  }

  lemma LinesOfEmpty()
    ensures Lines("") == [""]
  {
  }

  function Value(line: string, key: string): string
    requires |key| <= |line|
  {
    line[|key|..]
  }

  lemma HashLine(m: Metadata)
    ensures |BlockLines(m)[4]| >= |"source_hash: "| && Value(BlockLines(m)[4], "source_hash: ") == m.sourceHash
  {
  }

  /** What a reader gets for a quoted field: the value on one line, if it can be carried at all. */
  function ReadBack(value: string): Option<string> {
    if Carried(value) then Some(OneLine(value)) else None
  }

  /**
   * In the printed text, split into lines, each quoted field reads back as its input on one line, exactly
   * when that input can be carried; the unquoted fields read back as they are, a missing one as null.
   */
  lemma PrintedFieldsReadBack(m: Metadata)
    requires Printable(m)
    ensures var lines := Lines(BuildFrontmatter(m));
            && |lines| == 9 && lines[8] == "" && IsBlock(lines[..8])
            && ReadQuoted(Value(lines[1], "title: ")) == ReadBack(m.title)
            && (m.sourceUrl.Some? ==> ReadQuoted(Value(lines[2], "source_url: ")) == ReadBack(m.sourceUrl.value))
            && (m.sourcePath.Some? ==> ReadQuoted(Value(lines[3], "source_path: ")) == ReadBack(m.sourcePath.value))
            && (m.sourceUrl.None? ==> Value(lines[2], "source_url: ") == "null")
            && (m.sourcePath.None? ==> Value(lines[3], "source_path: ") == "null")
            && Value(lines[4], "source_hash: ") == m.sourceHash && Value(lines[5], "fetched_via: ") == m.fetchedVia
            && Value(lines[6], "ingested_at: ") == IngestedAt(m.sourceHash)
  {
    hide IsRule, Quoted, ReadQuoted, IngestedAt, Lines, BuildFrontmatter, Carried;
    PrintedBlockSplits(m);
    var lines := Lines(BuildFrontmatter(m));
    assert lines[..8] == BlockLines(m);
    assert forall i :: 0 <= i < 8 ==> lines[i] == BlockLines(m)[i];
    UnquoteOfQuoted(m.title);
    if m.sourceUrl.Some? { UnquoteOfQuoted(m.sourceUrl.value); }
    if m.sourcePath.Some? { UnquoteOfQuoted(m.sourcePath.value); }
  }
}
