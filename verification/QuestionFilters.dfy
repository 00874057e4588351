/** The leading run of `+tag` / `-tag` atoms in front of a question. */
module QuestionFilters {
  import opened Sequences
  import opened Text
  import opened Words

  predicate Letter(c: char) {
    'A' <= c <= 'Z' || 'a' <= c <= 'z'
  }

  predicate AtomChar(c: char) {
    Letter(c) || '0' <= c <= '9' || c in "_.:,|&+-"
  }

  /** The filter pattern: a sigil, a letter, then tag characters. */
  predicate FilterShaped(t: string) {
    && |t| >= 2 && (t[0] == '+' || t[0] == '-') && Letter(t[1])
    && forall i :: 2 <= i < |t| ==> AtomChar(t[i])
  }

  /** Filter-shaped and plausibly a tag: qualified, or longer than one letter. */
  predicate IsAtom(t: string) {
    FilterShaped(t) && (':' in t[1..] || |t[1..]| >= 2)
  }

  /** How many tokens, from the front, are filter atoms. */
  function AtomRun(tokens: seq<string>): (n: nat)
    ensures n <= |tokens|
    ensures forall i :: 0 <= i < n ==> IsAtom(tokens[i])
    ensures n < |tokens| ==> !IsAtom(tokens[n])
  {
    if tokens == [] || !IsAtom(tokens[0]) then 0 else 1 + AtomRun(tokens[1..])
  }

  /** The tags, in order, of the atoms that carry the given sigil. */
  function Tagged(sigil: char, tokens: seq<string>): seq<string> {
    if tokens == [] then []
    else (if IsAtom(tokens[0]) && tokens[0][0] == sigil then [tokens[0][1..]] else []) + Tagged(sigil, tokens[1..])
  }

  datatype Filters = Filters(tagExpr: Option<string>, excludeTags: Option<seq<string>>)

  /** The filters a token list asks for: included tags are alternatives, excluded ones a list. */
  function FiltersOf(tokens: seq<string>): Filters {
    var plus, minus := Tagged('+', tokens), Tagged('-', tokens);
    Filters(if plus != [] then Some(Join("|", plus)) else None, if minus != [] then Some(minus) else None)
  }

  // ---------------------------------------------------------------------------------------------
  // What the filters mean
  // ---------------------------------------------------------------------------------------------

  /** The ASCII codes of the letters. */
  predicate LetterCode(n: int) {
    65 <= n <= 90 || 97 <= n <= 122
  }

  /** The ASCII codes of the letters, the digits, and `_ . : , | & + -`. */
  predicate TagCode(n: int) {
    || LetterCode(n) || 48 <= n <= 57
    || n == 95 || n == 46 || n == 58 || n == 44 || n == 124 || n == 38 || n == 43 || n == 45
  }

  lemma CodesOf(c: char)
    ensures Letter(c) <==> LetterCode(c as int)
    ensures AtomChar(c) <==> TagCode(c as int)
  {
    if AtomChar(c) { AtomCharHasCode(c); }
    if TagCode(c as int) { CodeIsAtomChar(c); }
  }

  lemma AtomCharHasCode(c: char)
    requires AtomChar(c)
    ensures TagCode(c as int)
  {
    if c in "_.:,|&+-" {
      var marks := "_.:,|&+-";
      var i :| 0 <= i < |marks| && marks[i] == c;
    }
  }

  lemma CodeIsAtomChar(c: char)
    requires TagCode(c as int)
    ensures AtomChar(c)
  {
    var marks := "_.:,|&+-";
    assert marks[0] == '_' && marks[1] == '.' && marks[2] == ':' && marks[3] == ',';
    assert marks[4] == '|' && marks[5] == '&' && marks[6] == '+' && marks[7] == '-';
    assert c in marks ==> AtomChar(c);
  }

  /** Past its sigil and its letter an atom needs one more character, and only tag characters. */
  lemma AtomIsSpelled(sigil: char, first: char, rest: string)
    ensures IsAtom([sigil, first] + rest) <==>
            && (sigil == '+' || sigil == '-') && LetterCode(first as int)
            && rest != "" && forall i :: 0 <= i < |rest| ==> TagCode(rest[i] as int)
  {
    hide AtomChar, Letter, TagCode, LetterCode;
    var t := [sigil, first] + rest;
    assert t[1..] == [first] + rest;
    assert forall i :: 0 <= i < |rest| ==> t[i + 2] == rest[i];
    assert !Letter(':') by { ColonIsNoLetter(); }
    CodesOf(first);
    forall c: char ensures AtomChar(c) <==> TagCode(c as int) { CodesOf(c); }
  }

  lemma ColonIsNoLetter()
    ensures !Letter(':')
  {
  }

  /** Options, numbers and dashes in a question are ordinary words. */
  lemma OptionsAreNoAtoms(c: char)
    ensures !IsAtom("-v") && !IsAtom("-1") && !IsAtom("--") && !IsAtom("+") && !IsAtom("the") && !IsAtom("--flag")
    ensures !IsAtom(['-', c]) && !IsAtom(['+', c])
  {
    AtomIsSpelled('-', c, "");
    AtomIsSpelled('+', c, "");
    assert ['-', c] + "" == ['-', c] && ['+', c] + "" == ['+', c];
  }

  /** The atoms are `+p` for each `p` in `plus` and `-m` for each `m` in `minus`, interleaved in order. */
  ghost predicate Interleaves(ts: seq<string>, plus: seq<string>, minus: seq<string>) {
    if ts == [] then plus == [] && minus == []
    else
      || (plus != [] && ts[0] == "+" + plus[0] && Interleaves(ts[1..], plus[1..], minus))
      || (minus != [] && ts[0] == "-" + minus[0] && Interleaves(ts[1..], plus, minus[1..]))
  }

  /**
   * `f` includes exactly the tags of the `+` atoms and excludes exactly those of the `-` atoms, each in
   * order, and asks for nothing where there are none.
   */
  ghost predicate Means(ts: seq<string>, f: Filters) {
    && (f.tagExpr.Some? <==> exists t :: t in ts && StartsWith(t, "+"))
    && (f.excludeTags.Some? <==> exists t :: t in ts && StartsWith(t, "-"))
    && (f.excludeTags.Some? ==> forall tag :: tag in f.excludeTags.value <==> "-" + tag in ts)
    && (forall plus, minus :: Interleaves(ts, plus, minus) ==>
          && f.tagExpr == (if plus == [] then None else Some(Join("|", plus)))
          && f.excludeTags == (if minus == [] then None else Some(minus)))
  }

  ghost predicate AllAtoms(ts: seq<string>) {
    forall t :: t in ts ==> IsAtom(t)
  }

  lemma SigilAndTag(t: string)
    requires IsAtom(t)
    ensures t[0] == '+' || t[0] == '-'
    ensures t == [t[0]] + t[1..] && forall c: char :: StartsWith(t, [c]) <==> c == t[0]
  {
  }

  lemma {:induction false} TaggedMeans(sigil: char, ts: seq<string>, tag: string)
    requires AllAtoms(ts)
    ensures tag in Tagged(sigil, ts) <==> [sigil] + tag in ts
  {
    hide IsAtom;
    if ts != [] {
      TaggedMeans(sigil, ts[1..], tag);
      assert ts[0] in ts;
      SigilAndTag(ts[0]);
      assert ([sigil] + tag)[0] == sigil && ([sigil] + tag)[1..] == tag;
      HeadTail(ts);
      assert [sigil] + tag in ts <==> [sigil] + tag == ts[0] || [sigil] + tag in ts[1..];
      assert [sigil] + tag == ts[0] <==> ts[0][0] == sigil && ts[0][1..] == tag;
    }
  }

  lemma SomeTagged(sigil: char, ts: seq<string>)
    requires AllAtoms(ts) && (sigil == '+' || sigil == '-')
    ensures Tagged(sigil, ts) != [] <==> exists t :: t in ts && StartsWith(t, [sigil])
  {
    hide IsAtom, Tagged;
    var tags := Tagged(sigil, ts);
    if tags != [] {
      TaggedMeans(sigil, ts, tags[0]);
      assert StartsWith([sigil] + tags[0], [sigil]);
    }
    if t :| t in ts && StartsWith(t, [sigil]) {
      SigilAndTag(t);
      TaggedMeans(sigil, ts, t[1..]);
    }
  }

  lemma {:induction false} TaggedOfInterleaved(ts: seq<string>, plus: seq<string>, minus: seq<string>)
    requires AllAtoms(ts) && Interleaves(ts, plus, minus)
    ensures Tagged('+', ts) == plus && Tagged('-', ts) == minus
  {
    hide IsAtom;
    if ts != [] {
      assert ts[0] in ts;
      SigilAndTag(ts[0]);
      if ts[0][0] == '+' {
        assert ts[0][1..] == plus[0];
        TaggedOfInterleaved(ts[1..], plus[1..], minus);
        HeadTail(plus);
      } else {
        assert ts[0][1..] == minus[0];
        TaggedOfInterleaved(ts[1..], plus, minus[1..]);
        HeadTail(minus);
      }
    }
  }

  lemma FiltersMean(ts: seq<string>)
    requires AllAtoms(ts)
    ensures Means(ts, FiltersOf(ts))
  {
    hide IsAtom, Tagged, Interleaves, Join, AllAtoms;
    SomeTagged('+', ts);
    SomeTagged('-', ts);
    forall tag ensures tag in Tagged('-', ts) <==> "-" + tag in ts { TaggedMeans('-', ts, tag); }
    forall plus, minus | Interleaves(ts, plus, minus) ensures Tagged('+', ts) == plus && Tagged('-', ts) == minus {
      TaggedOfInterleaved(ts, plus, minus);
    }
  }

  /** Every run of atoms is such an interleaving, so its filters are fixed. */
  lemma {:induction false} AtomsInterleave(ts: seq<string>) returns (plus: seq<string>, minus: seq<string>)
    requires AllAtoms(ts)
    ensures Interleaves(ts, plus, minus)
  {
    hide IsAtom;
    plus, minus := [], [];
    if ts != [] {
      assert ts[0] in ts;
      SigilAndTag(ts[0]);
      plus, minus := AtomsInterleave(ts[1..]);
      if ts[0][0] == '+' {
        ConsTail(ts[0][1..], plus);
        plus := [ts[0][1..]] + plus;
      } else {
        ConsTail(ts[0][1..], minus);
        minus := [ts[0][1..]] + minus;
      }
    }
  }

  /** What the scan of a question returns means its leading atoms. */
  lemma FilteredMeans(question: string, query: string, filters: Filters)
    requires IsFiltered(question, query, filters)
    ensures var tokens := Split(question); Means(tokens[..AtomRun(tokens)], filters)
  {
    hide IsAtom, Split, FiltersOf;
    var tokens := Split(question);
    var ts := tokens[..AtomRun(tokens)];
    assert forall i :: 0 <= i < |ts| ==> ts[i] == tokens[i];
    FiltersMean(ts);
  }

  // ---------------------------------------------------------------------------------------------
  // The scan
  // ---------------------------------------------------------------------------------------------

  lemma {:induction false} TaggedSnoc(sigil: char, tokens: seq<string>, t: string)
    requires IsAtom(t)
    ensures Tagged(sigil, tokens + [t]) == Tagged(sigil, tokens) + (if t[0] == sigil then [t[1..]] else [])
  {
    hide IsAtom;
    if tokens == [] {
      assert [t][1..] == [] && [] + [t] == [t];
    } else {
      TaggedSnoc(sigil, tokens[1..], t);
      ConsAppend(tokens, [t]);
      assert (tokens + [t])[1..] == tokens[1..] + [t];
    }
  }

  lemma {:induction false} AtomRunIs(tokens: seq<string>, n: nat)
    requires n <= |tokens| && forall i :: 0 <= i < n ==> IsAtom(tokens[i])
    requires n < |tokens| ==> !IsAtom(tokens[n])
    ensures AtomRun(tokens) == n
  {
    hide IsAtom;
    if n > 0 { AtomRunIs(tokens[1..], n - 1); }
  }

  /** The next word of a question: where it starts and where it ends. */
  method NextWord(question: string, pos: nat) returns (start: nat, end: nat)
    requires pos <= |question|
    ensures pos <= start <= end <= |question|
    ensures forall i :: pos <= i < start ==> IsSpace(question[i])
    ensures forall i :: start <= i < end ==> !IsSpace(question[i])
    ensures start == end ==> end == |question|
    ensures end < |question| ==> IsSpace(question[end])
  {
    hide IsSpace;
    start := pos;
    while start < |question| && IsSpace(question[start])
      invariant pos <= start <= |question|
      invariant forall i :: pos <= i < start ==> IsSpace(question[i])
    {
      start := start + 1;
    }
    end := start;
    while end < |question| && !IsSpace(question[end])
      invariant start <= end <= |question|
      invariant forall i :: start <= i < end ==> !IsSpace(question[i])
      invariant start < |question| ==> start < end || !IsSpace(question[start])
    {
      end := end + 1;
    }
  }

  /** The question splits at `pos` between two words. */
  ghost predicate Boundary(question: string, pos: nat) {
    && pos <= |question|
    && Split(question) == Split(question[..pos]) + Split(question[pos..])
    && (pos == 0 || pos == |question| || IsSpace(question[pos]))
  }

  /** `question[start..end]` is the first word from `pos` on. */
  ghost predicate FirstWord(question: string, pos: nat, start: nat, end: nat) {
    && pos <= start < end <= |question|
    && (forall i :: pos <= i < start ==> IsSpace(question[i]))
    && (forall i :: start <= i < end ==> !IsSpace(question[i]))
    && (end < |question| ==> IsSpace(question[end]))
  }

  lemma WordAhead(question: string, pos: nat, start: nat, end: nat)
    requires FirstWord(question, pos, start, end)
    ensures Split(question[pos..]) == [question[start..end]] + Split(question[end..])
    ensures Split(question[start..]) == Split(question[pos..])
  {
    hide IsSpace, Split;
    var word := question[start..end];
    LeadingSpaces(question[pos..], start - pos);
    DropPast(question, pos, start);
    assert question[start..] == word + question[end..];
    WordInFront(word, question[end..]);
  }

  lemma WordAlone(question: string, pos: nat, start: nat, end: nat)
    requires FirstWord(question, pos, start, end)
    ensures Split(question[pos..end]) == [question[start..end]]
  {
    hide IsSpace, Split;
    var more := question[pos..end];
    LeadingSpaces(more, start - pos);
    assert more[start - pos..] == question[start..end];
    LoneWord(question[start..end]);
  }

  lemma SpacesBefore(question: string, pos: nat, start: nat, end: nat)
    requires FirstWord(question, pos, start, end)
    ensures Split(question[..start]) == Split(question[..pos])
  {
    hide IsSpace, Split;
    TrailingSpaces(question[..start], pos);
    assert question[..start][..pos] == question[..pos];
  }

  /** A word found from a boundary is the next token, and its end is a boundary. */
  lemma WordAtBoundary(question: string, pos: nat, start: nat, end: nat)
    requires Boundary(question, pos) && FirstWord(question, pos, start, end)
    ensures Boundary(question, end)
    ensures Split(question[pos..]) == [question[start..end]] + Split(question[end..])
    ensures Split(question[..end]) == Split(question[..pos]) + [question[start..end]]
    ensures Split(question[start..]) == Split(question[pos..])
    ensures Split(question[..start]) == Split(question[..pos])
  {
    hide IsSpace, Split;
    WordAhead(question, pos, start, end);
    WordAlone(question, pos, start, end);
    SpacesBefore(question, pos, start, end);
    assert question[..end] == question[..pos] + question[pos..end];
    assert pos < end;
    SplitAppend(question[..pos], question[pos..end]);
    assert question == question[..end] + question[end..];
    SplitAppend(question[..end], question[end..]);
  }

  /** What the filter scan returns, as a statement about the question's own words and characters. */
  ghost predicate IsFiltered(question: string, query: string, filters: Filters) {
    var tokens := Split(question);
    var n := AtomRun(tokens);
    && filters == FiltersOf(tokens[..n])
    && exists start :: QueryStartsAt(question, query, n, start)
  }

  /** The query is the question from `start` on, stripped; only the first `n` words stand before it. */
  ghost predicate QueryStartsAt(question: string, query: string, n: nat, start: nat) {
    && start <= |question| && n <= |Split(question)|
    && query == Strip(question[start..])
    && Split(question[..start]) == Split(question)[..n]
    && Split(query) == Split(question)[n..]
    && (start < |question| ==> !IsSpace(question[start]))
  }

  /** `_parse_question_filters`: the scan over the words of the question. */
  method ParseQuestionFilters(question: string) returns (query: string, filters: Filters)
    ensures IsFiltered(question, query, filters)
  {
    hide IsSpace, Split, IsAtom, Strip, Tagged, Boundary;
    var plus, minus: seq<string> := [], [];
    var restStart: Option<nat> := None;
    var pos := 0;
    ghost var seen: seq<string> := [];
    StartIsBoundary(question);
    while pos < |question| && restStart.None?
      invariant pos <= |question| && Boundary(question, pos)
      invariant seen == Split(question[..pos]) && forall i :: 0 <= i < |seen| ==> IsAtom(seen[i])
      invariant plus == Tagged('+', seen) && minus == Tagged('-', seen)
      invariant restStart.Some? ==> Stopped(question, pos, restStart.value)
      decreases |question| - pos, restStart.None?
    {
      var start, end := NextWord(question, pos);
      if start == end {
        BlankEnd(question, pos);
        pos := |question|;
        break;
      }
      var token := question[start..end];
      WordAtBoundary(question, pos, start, end);
      if IsAtom(token) {
        TaggedSnoc('+', seen, token);
        TaggedSnoc('-', seen, token);
        SigilIsOneOf(token);
        if token[0] == '+' { plus := plus + [token[1..]]; } else { minus := minus + [token[1..]]; }
        seen, pos := seen + [token], end;
      } else {
        restStart := Some(start);
      }
    }
    filters := Filters(if plus != [] then Some(Join("|", plus)) else None, if minus != [] then Some(minus) else None);
    query := if restStart.None? then "" else Strip(question[restStart.value..]);
    ScanEnds(question, pos, restStart, seen, query);
  }

  lemma SigilIsOneOf(t: string)
    requires IsAtom(t)
    ensures t[0] == '+' || t[0] == '-'
  {
  }

  /** The scan stopped at a word that is not an atom. */
  ghost predicate Stopped(question: string, pos: nat, start: nat) {
    && pos <= start < |question| && !IsSpace(question[start])
    && Split(question[..start]) == Split(question[..pos]) && Split(question[start..]) == Split(question[pos..])
    && Split(question[pos..]) != [] && !IsAtom(Split(question[pos..])[0])
  }

  lemma StartIsBoundary(question: string)
    ensures Boundary(question, 0) && Split(question[..0]) == []
    ensures Tagged('+', []) == [] && Tagged('-', []) == []
  {
    hide Split;
    EmptyText();
    assert question[..0] == "" && question[0..] == question;
    EmptyAppend(Split(question));
  }

  lemma BlankEnd(question: string, pos: nat)
    requires Boundary(question, pos) && forall i :: pos <= i < |question| ==> IsSpace(question[i])
    ensures Boundary(question, |question|) && Split(question[..|question|]) == Split(question[..pos])
  {
    hide Split, IsSpace;
    EmptyText();
    TrailingSpaces(question, pos);
    assert question[..|question|] == question && question[|question|..] == "";
    assert Split(question) + [] == Split(question);
  }

  lemma ScanEnds(question: string, pos: nat, restStart: Option<nat>, seen: seq<string>, query: string)
    requires Boundary(question, pos) && seen == Split(question[..pos])
    requires forall i :: 0 <= i < |seen| ==> IsAtom(seen[i])
    requires restStart.None? ==> pos == |question| && query == ""
    requires restStart.Some? ==> Stopped(question, pos, restStart.value) && query == Strip(question[restStart.value..])
    ensures var n := AtomRun(Split(question));
            Split(question)[..n] == seen && exists start :: QueryStartsAt(question, query, n, start)
  {
    hide Split, IsSpace, IsAtom;
    var tokens, n := Split(question), |seen|;
    EmptyText();
    if restStart.None? {
      assert question[..pos] == question && tokens == seen;
      AtomRunIs(tokens, n);
      assert Strip("") == "" && tokens[n..] == [];
      assert QueryStartsAt(question, query, n, |question|);
    } else {
      var start, after := restStart.value, Split(question[pos..]);
      AppendDrop(seen, after);
      assert tokens[n] == after[0];
      AtomRunIs(tokens, n);
      SplitOfStrip(question[start..]);
      assert QueryStartsAt(question, query, n, start);
    }
  }
}
