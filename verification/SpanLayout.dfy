/** What the spans of a page promise their readers: where they are, what they hold and what they leave out. */
module SpanLayout {
  import opened Text
  import opened MarkdownSpans

  /** The lines at which a span begins, in order. */
  function Begins(lines: seq<string>, ks: seq<Kind>, n: nat): seq<nat>
    requires n <= |lines| == |ks|
  {
    if n == 0 then []
    else Begins(lines, ks, n - 1) + if BlockAt(lines, ks, n - 1).Some? then [n - 1] else []
  }

  lemma {:induction false} BeginsAreOrdered(lines: seq<string>, ks: seq<Kind>, n: nat)
    requires n <= |lines| == |ks|
    ensures var bs := Begins(lines, ks, n);
            && (forall k :: 0 <= k < |bs| ==> bs[k] < n && BlockAt(lines, ks, bs[k]).Some?)
            && (forall k, l :: 0 <= k < l < |bs| ==> bs[k] < bs[l])
            && (forall b: nat :: b < n && BlockAt(lines, ks, b).Some? ==> b in bs)
  {
    if n > 0 { BeginsAreOrdered(lines, ks, n - 1); }
  }

  lemma {:induction false} OneSpanPerBegin(lines: seq<string>, ks: seq<Kind>, n: nat)
    requires n <= |lines| == |ks|
    ensures |Begins(lines, ks, n)| == |SpansBefore(lines, ks, n)|
    ensures forall k :: 0 <= k < |Begins(lines, ks, n)| ==>
              Begins(lines, ks, n)[k] < n
              && SpanAt(lines, ks, Begins(lines, ks, n)[k]) == [SpansBefore(lines, ks, n)[k]]
  {
    if n > 0 { OneSpanPerBegin(lines, ks, n - 1); }
  }

  /** The line at which span `k` begins. */
  function Begin(lines: seq<string>, k: nat): (b: nat)
    requires k < |Spans(lines)|
    ensures b < |lines| && BlockAt(lines, Kinds(lines), b).Some?
    ensures SpanAt(lines, Kinds(lines), b) == [Spans(lines)[k]]
  {
    var ks := Kinds(lines);
    OneSpanPerBegin(lines, ks, |lines|);
    BeginsAreOrdered(lines, ks, |lines|);
    Begins(lines, ks, |lines|)[k]
  }

  /** The range of lines whose text is the body of span `k`. */
  function Block(lines: seq<string>, k: nat): (nat, nat)
    requires k < |Spans(lines)|
  {
    BlockAt(lines, Kinds(lines), Begin(lines, k)).value
  }

  /** A later span begins past the end of an earlier block, and its start line is strictly larger. */
  lemma BlocksFollow(lines: seq<string>, ks: seq<Kind>, b: nat, c: nat)
    requires b < c < |lines| == |ks| && BlockAt(lines, ks, b).Some? && BlockAt(lines, ks, c).Some?
    ensures BlockAt(lines, ks, b).value.1 <= c <= BlockAt(lines, ks, c).value.0
    ensures SpanAt(lines, ks, b)[0].startLine < SpanAt(lines, ks, c)[0].startLine
  {
    if c < BlockAt(lines, ks, b).value.1 { assert false; }
  }

  /**
   * `s` holds lines `lo..hi` verbatim, and `startLine` is the fence or the heading directly above them, or
   * their first line if there is none.
   */
  ghost predicate Located(lines: seq<string>, ks: seq<Kind>, s: Span, lo: nat, hi: nat)
    requires |lines| == |ks|
  {
    && lo <= hi <= |lines|
    && s.body == Join("\n", lines[lo..hi])
    && 1 <= s.startLine <= |lines|
    && var first := ks[s.startLine - 1];
       if s.codeFence then lo == s.startLine && first.FenceOpen?
       else if first.Heading? then lo == s.startLine
       else lo == s.startLine - 1 && first.Prose? && (lo == 0 || !ks[lo - 1].Heading?)
  }

  lemma LocatedAtBegin(lines: seq<string>, ks: seq<Kind>, b: nat)
    requires b < |lines| == |ks| && BlockAt(lines, ks, b).Some?
    ensures var (lo, hi) := BlockAt(lines, ks, b).value; Located(lines, ks, SpanAt(lines, ks, b)[0], lo, hi)
  {
  }

  /** Every span body is a verbatim, contiguous block of source lines found from `startLine`. */
  lemma SpanIsVerbatim(lines: seq<string>, k: nat)
    requires k < |Spans(lines)|
    ensures Located(lines, Kinds(lines), Spans(lines)[k], Block(lines, k).0, Block(lines, k).1)
  {
    LocatedAtBegin(lines, Kinds(lines), Begin(lines, k));
  }

  /** Blocks are disjoint and in order, and start lines strictly increase. */
  lemma SpansAreOrdered(lines: seq<string>, k: nat, l: nat)
    requires k < l < |Spans(lines)|
    ensures Block(lines, k).1 <= Block(lines, l).0
    ensures Spans(lines)[k].startLine < Spans(lines)[l].startLine
  {
    var ks := Kinds(lines);
    OneSpanPerBegin(lines, ks, |lines|);
    BeginsAreOrdered(lines, ks, |lines|);
    BlocksFollow(lines, ks, Begin(lines, k), Begin(lines, l));
  }

  // ---------------------------------------------------------------------------------------------
  // Heading paths
  // ---------------------------------------------------------------------------------------------

  /** The headings that govern line `n`, by line number, outermost first. */
  function Ancestors(ks: seq<Kind>, m: nat, n: nat): seq<nat>
    requires m <= n <= |ks|
  {
    if m == 0 then [] else Ancestors(ks, m - 1, n) + if Governs(ks, m - 1, n) then [m - 1] else []
  }

  /** The ancestors are exactly the governing headings, in order, and the path reads off their titles. */
  lemma {:induction false} PathReadsAncestors(ks: seq<Kind>, m: nat, n: nat)
    requires m <= n <= |ks|
    ensures var a := Ancestors(ks, m, n);
            && (forall j: nat :: j in a <==> j < m && Governs(ks, j, n))
            && (forall k, l :: 0 <= k < l < |a| ==> a[k] < a[l])
            && |PathAmong(ks, m, n)| == |a| == |StackAmong(ks, m, n)|
            && (forall k :: 0 <= k < |a| ==>
                  && a[k] < m && ks[a[k]].Heading? && PathAmong(ks, m, n)[k] == ks[a[k]].text
                  && StackAmong(ks, m, n)[k] == EntryOf(ks[a[k]]))
  {
    if m > 0 { PathReadsAncestors(ks, m - 1, n); }
  }

  /**
   * The path is the ancestor chain at line `n`: the headings outside fences before it with no later
   * heading of equal or smaller level in between. Levels strictly increase down the chain, so it has
   * at most six entries.
   */
  ghost predicate IsAncestorChain(ks: seq<Kind>, n: nat, path: seq<string>)
    requires n <= |ks|
  {
    var a := Ancestors(ks, n, n);
    && |path| == |a| <= 6
    && (forall j: nat :: j in a <==> j < n && Governs(ks, j, n))
    && (forall i :: 0 <= i < |a| ==> a[i] < n && ks[a[i]].Heading? && path[i] == ks[a[i]].text)
    && (forall i, j :: 0 <= i < j < |a| ==> a[i] < a[j] && ks[a[i]].level < ks[a[j]].level)
  }

  lemma PathIsAncestorChain(ks: seq<Kind>, n: nat)
    requires n <= |ks| && WellLeveled(ks)
    ensures IsAncestorChain(ks, n, PathAt(ks, n))
  {
    PathReadsAncestors(ks, n, n);
    StackIsNested(ks, n, n);
    NestedIsShort(StackAt(ks, n));
    var a := Ancestors(ks, n, n);
    forall i, j | 0 <= i < j < |a| ensures ks[a[i]].level < ks[a[j]].level {
      assert StackAt(ks, n)[i].0 < StackAt(ks, n)[j].0;
    }
  }

  lemma PathAtBegin(lines: seq<string>, ks: seq<Kind>, b: nat)
    requires b < |lines| == |ks| && WellLeveled(ks) && BlockAt(lines, ks, b).Some?
    ensures var s := SpanAt(lines, ks, b)[0]; b <= s.startLine <= |lines| && s.headingPath == PathAt(ks, s.startLine)
  {
    PathAcross(ks, b, b + 1);
  }

  /** A span's heading path is the ancestor chain of the headings at or before its start line. */
  lemma SpanPathIsAncestorChain(lines: seq<string>, k: nat)
    requires k < |Spans(lines)|
    ensures Spans(lines)[k].startLine <= |lines|
    ensures IsAncestorChain(Kinds(lines), Spans(lines)[k].startLine, Spans(lines)[k].headingPath)
  {
    KindsAreWellLeveled(lines);
    PathAtBegin(lines, Kinds(lines), Begin(lines, k));
    PathIsAncestorChain(Kinds(lines), Spans(lines)[k].startLine);
  }

  // ---------------------------------------------------------------------------------------------
  // Coverage
  // ---------------------------------------------------------------------------------------------

  ghost predicate InBlockOf(lines: seq<string>, ks: seq<Kind>, b: nat, j: nat)
    requires b < |lines| == |ks|
  {
    BlockAt(lines, ks, b).Some? && BlockAt(lines, ks, b).value.0 <= j < BlockAt(lines, ks, b).value.1
  }

  ghost predicate Covered(lines: seq<string>, j: nat) {
    exists k :: 0 <= k < |Spans(lines)| && Block(lines, k).0 <= j < Block(lines, k).1
  }

  lemma SpanOfBegin(lines: seq<string>, b: nat) returns (k: nat)
    requires b < |lines| && BlockAt(lines, Kinds(lines), b).Some?
    ensures k < |Spans(lines)| && Begin(lines, k) == b
  {
    var ks := Kinds(lines);
    OneSpanPerBegin(lines, ks, |lines|);
    BeginsAreOrdered(lines, ks, |lines|);
    k :| 0 <= k < |Begins(lines, ks, |lines|)| && Begins(lines, ks, |lines|)[k] == b;
  }

  lemma CoveredMeansBlock(lines: seq<string>, j: nat)
    ensures Covered(lines, j) <==> exists b :: 0 <= b < |lines| && InBlockOf(lines, Kinds(lines), b, j)
  {
    var ks := Kinds(lines);
    if Covered(lines, j) {
      var k :| 0 <= k < |Spans(lines)| && Block(lines, k).0 <= j < Block(lines, k).1;
      assert InBlockOf(lines, ks, Begin(lines, k), j);
    }
    if b :| 0 <= b < |lines| && InBlockOf(lines, ks, b, j) {
      var k := SpanOfBegin(lines, b);
      assert Block(lines, k).0 <= j < Block(lines, k).1;
    }
  }

  /** A fenced line or a closing delimiter follows the opening line or another fenced line. */
  predicate WellFenced(ks: seq<Kind>) {
    forall j :: 0 <= j < |ks| && (ks[j].FenceBody? || ks[j].FenceClose?) ==>
      j > 0 && (ks[j - 1].FenceOpen? || ks[j - 1].FenceBody?)
  }

  lemma KindsAreWellFenced(lines: seq<string>)
    ensures WellFenced(Kinds(lines))
  {
    forall j | 0 <= j < |lines| && (Kinds(lines)[j].FenceBody? || Kinds(lines)[j].FenceClose?)
      ensures j > 0 && (Kinds(lines)[j - 1].FenceOpen? || Kinds(lines)[j - 1].FenceBody?)
    {
      LineStep(lines, j);
      if j > 0 { LineStep(lines, j - 1); }
    }
  }

  /** The line that opened the fence holding line `j`. */
  lemma {:induction false} FenceOpener(ks: seq<Kind>, j: nat) returns (open: nat)
    requires j < |ks| && WellFenced(ks) && ks[j].FenceBody?
    ensures open < j && ks[open].FenceOpen? && j < FenceEnd(ks, open + 1)
    ensures forall i :: open < i <= j ==> ks[i].FenceBody?
  {
    if ks[j - 1].FenceOpen? {
      open := j - 1;
    } else {
      open := FenceOpener(ks, j - 1);
    }
  }

  /** The first line of the prose run that holds line `j`. */
  lemma {:induction false} ProseOpener(ks: seq<Kind>, j: nat) returns (base: nat)
    requires j < |ks| && ks[j].Prose?
    ensures base <= j && (base == 0 || !ks[base - 1].Prose?)
    ensures forall i :: base <= i <= j ==> ks[i].Prose?
    ensures j < ProseEnd(ks, base)
  {
    if j == 0 || !ks[j - 1].Prose? {
      base := j;
    } else {
      base := ProseOpener(ks, j - 1);
    }
  }

  ghost predicate MaximalRun(ks: seq<Kind>, lo: nat, hi: nat) {
    && lo <= hi <= |ks|
    && (forall i :: lo <= i < hi ==> ks[i].Prose?)
    && (lo > 0 ==> !ks[lo - 1].Prose?)
    && (hi < |ks| ==> !ks[hi].Prose?)
  }

  /** Line `j` lies in a maximal run of prose lines that is all whitespace. */
  ghost predicate InBlankRun(lines: seq<string>, ks: seq<Kind>, j: nat)
    requires j < |lines| == |ks|
  {
    exists lo: nat, hi: nat :: MaximalRun(ks, lo, hi) && lo <= j < hi && AllBlank(lines[lo..hi])
  }

  lemma RunsAreUnique(ks: seq<Kind>, lo: nat, hi: nat, lo': nat, hi': nat, j: nat)
    requires MaximalRun(ks, lo, hi) && MaximalRun(ks, lo', hi') && lo <= j < hi && lo' <= j < hi'
    ensures lo == lo' && hi == hi'
  {
  }

  lemma ProseLineCovered(lines: seq<string>, ks: seq<Kind>, j: nat)
    requires j < |lines| == |ks| && ks[j].Prose?
    ensures (exists b :: 0 <= b < |lines| && InBlockOf(lines, ks, b, j)) <==> !InBlankRun(lines, ks, j)
  {
    var base := ProseOpener(ks, j);
    var end := ProseEnd(ks, base);
    assert MaximalRun(ks, base, end);
    if !AllBlank(lines[base..end]) {
      assert InBlockOf(lines, ks, base, j);
    }
    if lo: nat, hi: nat :| MaximalRun(ks, lo, hi) && lo <= j < hi && AllBlank(lines[lo..hi]) {
      RunsAreUnique(ks, lo, hi, base, end, j);
    }
    if b :| 0 <= b < |lines| && InBlockOf(lines, ks, b, j) {
      assert MaximalRun(ks, b, ProseEnd(ks, b));
      RunsAreUnique(ks, b, ProseEnd(ks, b), base, end, j);
    }
  }

  /**
   * No content is lost: the lines that no block covers are exactly the headings, the fence delimiters
   * and the whitespace-only runs of prose lines.
   */
  lemma UncoveredLines(lines: seq<string>, j: nat)
    requires j < |lines|
    ensures var k := Kinds(lines)[j];
            !Covered(lines, j) <==>
            k.Heading? || k.FenceOpen? || k.FenceClose? || (k.Prose? && InBlankRun(lines, Kinds(lines), j))
  {
    var ks := Kinds(lines);
    CoveredMeansBlock(lines, j);
    if ks[j].FenceBody? {
      KindsAreWellFenced(lines);
      var open := FenceOpener(ks, j);
      assert InBlockOf(lines, ks, open, j);
    } else if ks[j].Prose? {
      ProseLineCovered(lines, ks, j);
    } else if b :| 0 <= b < |lines| && InBlockOf(lines, ks, b, j) {
      assert false;
    }
  }
}
