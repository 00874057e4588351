/** Validating claim citations, threading heading paths onto the citations, and rendering the evidence. */
module CitationThreading {
  import opened Text
  import opened Citations

  // ---------------------------------------------------------------------------------------------
  // Validation
  // ---------------------------------------------------------------------------------------------

  /** The body of the excerpt a path is read as, empty if there is none. */
  function BodyAt(excerpts: seq<Excerpt>, path: string): string {
    var at := BodyIndex(Slugs(excerpts), path);
    if at.Some? then PageBody(excerpts[at.value]) else ""
  }

  predicate Survives(answer: string, citations: seq<Citation>, excerpts: seq<Excerpt>, c: Claim) {
    && Contains(answer, c.claim) && 0 <= c.index < |citations|
    && BodyAt(excerpts, citations[c.index].path) != "" && Contains(BodyAt(excerpts, citations[c.index].path), c.quote)
  }

  /** The claims that survive, in order. */
  function Survivors(answer: string, citations: seq<Citation>, excerpts: seq<Excerpt>, claims: seq<Claim>)
    : (kept: seq<Claim>)
    ensures forall c :: c in kept <==> c in claims && Survives(answer, citations, excerpts, c)
  {
    if claims == [] then []
    else
      var before := Survivors(answer, citations, excerpts, claims[..|claims| - 1]);
      var c := claims[|claims| - 1];
      if Survives(answer, citations, excerpts, c) then before + [c] else before
  }

  /** The citation resolves to the text of a page. */
  ghost predicate ReadsPage(excerpts: seq<Excerpt>, path: string, body: string) {
    exists e :: e in excerpts && (path == e.slug || path == Mirror(e.slug)) && body == PageBody(e) && body != ""
  }

  /** A claim survives exactly when it is cut out of the answer and its quote out of the page it cites. */
  lemma SurvivesExactlyWhen(answer: string, citations: seq<Citation>, excerpts: seq<Excerpt>, c: Claim)
    ensures Survives(answer, citations, excerpts, c) <==>
              && (exists before, after :: answer == before + c.claim + after)
              && 0 <= c.index < |citations|
              && var body := BodyAt(excerpts, citations[c.index].path);
                 && ReadsPage(excerpts, citations[c.index].path, body)
                 && exists before, after :: body == before + c.quote + after
  {
    hide Contains, PageBody, LastOf, Unmirror;
    ContainsExactlyWhen(answer, c.claim);
    if 0 <= c.index < |citations| {
      var path := citations[c.index].path;
      var body := BodyAt(excerpts, path);
      ContainsExactlyWhen(body, c.quote);
      MirrorOfUnmirror(path);
      var at := BodyIndex(Slugs(excerpts), path);
      if body != "" { assert excerpts[at.value] in excerpts && ReadsPage(excerpts, path, body); }
    }
  }

  /** Validation takes the claims one by one, in order. */
  lemma {:induction false} SurvivorsInOrder(answer: string, citations: seq<Citation>, excerpts: seq<Excerpt>,
                                            a: seq<Claim>, b: seq<Claim>)
    ensures Survivors(answer, citations, excerpts, a + b)
            == Survivors(answer, citations, excerpts, a) + Survivors(answer, citations, excerpts, b)
  {
    hide Survives;
    if b == [] {
      assert a + b == a;
    } else {
      var n := |b| - 1;
      assert (a + b)[..|a + b| - 1] == a + b[..n] && (a + b)[|a + b| - 1] == b[n];
      SurvivorsInOrder(answer, citations, excerpts, a, b[..n]);
    }
  }

  /** `_validate_claim_citations`: one pass that drops what fails a check. */
  method ValidateClaims(answer: string, citations: seq<Citation>, claims: seq<Claim>, excerpts: seq<Excerpt>)
    returns (survivors: seq<Claim>)
    ensures survivors == Survivors(answer, citations, excerpts, claims)
  {
    hide Contains, PageBody, BodyIndex;
    var bodies := BodyTable(excerpts);
    survivors := [];
    for n := 0 to |claims|
      invariant survivors == Survivors(answer, citations, excerpts, claims[..n])
    {
      var c := claims[n];
      assert claims[..n + 1][..n] == claims[..n];
      if !Contains(answer, c.claim) { continue; }
      if !(0 <= c.index < |citations|) { continue; }
      var path := citations[c.index].path;
      if path !in bodies || bodies[path] == "" || !Contains(bodies[path], c.quote) { continue; }
      survivors := survivors + [c];
    }
    assert claims[..|claims|] == claims;
  }

  // ---------------------------------------------------------------------------------------------
  // Threading
  // ---------------------------------------------------------------------------------------------

  /** Claim `k` is the first one on citation `i`. */
  predicate IsFirstClaim(claims: seq<Claim>, i: int, k: int) {
    0 <= k < |claims| && claims[k].index == i && forall j :: 0 <= j < k ==> claims[j].index != i
  }

  /** Span `k` is the first one whose body contains the quote. */
  predicate IsFirstSpan(spans: seq<Span>, quote: string, k: int) {
    0 <= k < |spans| && Contains(spans[k].body, quote) && forall j :: 0 <= j < k ==> !Contains(spans[j].body, quote)
  }

  /** The quote of the first claim on citation `i`. */
  function FirstQuote(claims: seq<Claim>, i: int): (quote: Option<string>)
    ensures quote.None? <==> forall c :: c in claims ==> c.index != i
  {
    if claims == [] then None
    else if claims[0].index == i then Some(claims[0].quote)
    else FirstQuote(claims[1..], i)
  }

  lemma {:induction false} FirstQuoteIs(claims: seq<Claim>, i: int, k: int)
    requires IsFirstClaim(claims, i, k)
    ensures FirstQuote(claims, i) == Some(claims[k].quote)
  {
    if k > 0 {
      assert forall j :: 1 <= j < |claims| ==> claims[1..][j - 1] == claims[j];
      FirstQuoteIs(claims[1..], i, k - 1);
    }
  }

  lemma {:induction false} FirstClaim(claims: seq<Claim>, i: int) returns (k: nat)
    requires FirstQuote(claims, i).Some?
    ensures IsFirstClaim(claims, i, k) && FirstQuote(claims, i) == Some(claims[k].quote)
  {
    if claims[0].index == i {
      k := 0;
    } else {
      k := FirstClaim(claims[1..], i);
      k := k + 1;
      assert forall j :: 1 <= j < |claims| ==> claims[1..][j - 1] == claims[j];
    }
  }

  /** The first span whose body contains the quote. */
  function FirstSpan(spans: seq<Span>, quote: string): (span: Option<Span>)
    ensures span.None? <==> forall s :: s in spans ==> !Contains(s.body, quote)
  {
    if spans == [] then None
    else if Contains(spans[0].body, quote) then Some(spans[0])
    else FirstSpan(spans[1..], quote)
  }

  lemma {:induction false} FirstSpanIs(spans: seq<Span>, quote: string, k: int)
    requires IsFirstSpan(spans, quote, k)
    ensures FirstSpan(spans, quote) == Some(spans[k])
  {
    hide Contains;
    if k > 0 {
      assert forall j :: 1 <= j < |spans| ==> spans[1..][j - 1] == spans[j];
      FirstSpanIs(spans[1..], quote, k - 1);
    }
  }

  lemma {:induction false} FirstSpanAt(spans: seq<Span>, quote: string) returns (k: nat)
    requires FirstSpan(spans, quote).Some?
    ensures IsFirstSpan(spans, quote, k) && FirstSpan(spans, quote) == Some(spans[k])
  {
    hide Contains;
    if Contains(spans[0].body, quote) {
      k := 0;
    } else {
      k := FirstSpanAt(spans[1..], quote);
      k := k + 1;
      assert forall j :: 1 <= j < |spans| ==> spans[1..][j - 1] == spans[j];
    }
  }

  function Strip1(path: string, strip: string): string {
    if StartsWith(path, strip) then path[|strip|..]
    else if EndsWith(path, strip) then path[..|path| - |strip|]
    else path
  }

  /** The fallback spelling: without a leading `wiki/`, then without `.md` at either end. */
  function Candidate(path: string): string {
    Strip1(Strip1(path, "wiki/"), ".md")
  }

  /** The fallback finds the slug behind each spelling of it, if the slug itself does not look like one. */
  lemma CandidateOfSpelling(slug: string, path: string)
    requires Spells(slug, path) || path == slug + ".md"
    requires !StartsWith(slug, "wiki/") && !EndsWith(slug, "wiki/")
    requires !StartsWith(slug, ".md") && !EndsWith(slug, ".md")
    ensures Candidate(path) == slug
  {
    var file := slug + ".md";
    assert file[|slug|..] == ".md" && file[..|slug|] == slug && file[|file| - 1] == 'd';
    assert forall i :: 0 <= i < |slug| ==> file[i] == slug[i];
    assert file[|slug|] == '.' && file[|slug| + 1] == 'm';
    assert StartsWith(file, ".md") ==> slug == "";
    assert !StartsWith(file, "wiki/");
    assert Strip1(file, ".md") == slug;
    assert ("wiki/" + file)[5..] == file && ("wiki/" + slug)[5..] == slug;
    assert Mirror(slug) == "wiki/" + file;
  }

  function FiledUnder(excerpts: seq<Excerpt>, path: string): seq<Span> {
    var at := SpanIndex(Slugs(excerpts), path);
    if at.Some? then excerpts[at.value].spans else []
  }

  /** The spans threading searches for a path. */
  function SpansAt(excerpts: seq<Excerpt>, path: string): seq<Span> {
    var spans := FiledUnder(excerpts, path);
    if spans == [] && path != "" then FiledUnder(excerpts, Candidate(path)) else spans
  }

  /** A path under which nothing is filed is looked up once more, by its fallback spelling. */
  lemma FallbackFindsPage(excerpts: seq<Excerpt>, slug: string)
    requires forall e :: e in excerpts ==> !Spells(e.slug, slug + ".md")
    requires !StartsWith(slug, "wiki/") && !EndsWith(slug, "wiki/")
    requires !StartsWith(slug, ".md") && !EndsWith(slug, ".md")
    ensures SpansAt(excerpts, slug + ".md") == FiledUnder(excerpts, slug)
  {
    hide Candidate, Spells;
    CandidateOfSpelling(slug, slug + ".md");
    forall i | 0 <= i < |excerpts| ensures !Spells(Slugs(excerpts)[i], slug + ".md") {
      assert excerpts[i] in excerpts;
    }
  }

  /** A path under which spans are filed is looked up as it is. */
  lemma FiledPageIsFound(excerpts: seq<Excerpt>, path: string, i: nat)
    requires i < |excerpts| && Spells(excerpts[i].slug, path) && excerpts[i].spans != []
    requires forall j :: i < j < |excerpts| ==> !Spells(excerpts[j].slug, path)
    ensures SpansAt(excerpts, path) == excerpts[i].spans
  {
    hide Candidate, Spells;
    var at := SpanIndex(Slugs(excerpts), path);
    assert Spells(Slugs(excerpts)[i], path);
  }

  function Threaded(excerpts: seq<Excerpt>, claims: seq<Claim>, cit: Citation, i: int): Citation {
    var quote := FirstQuote(claims, i);
    if quote.None? then cit
    else
      var span := FirstSpan(SpansAt(excerpts, cit.path), quote.value);
      if span.None? then cit else cit.(heading := Some(span.value.heading))
  }

  /** `out` is `cit` with the heading of the first of `spans` that contains the quote, if one does. */
  ghost predicate TakesHeading(spans: seq<Span>, quote: string, cit: Citation, out: Citation) {
    && (forall m :: IsFirstSpan(spans, quote, m) ==> out == cit.(heading := Some(spans[m].heading)))
    && ((forall m :: 0 <= m < |spans| ==> !Contains(spans[m].body, quote)) ==> out == cit)
  }

  /** `out` is `cit` threaded by the first claim on it, if there is one. */
  ghost predicate IsThreaded(excerpts: seq<Excerpt>, claims: seq<Claim>, cit: Citation, i: int, out: Citation) {
    && (forall k :: IsFirstClaim(claims, i, k) ==> TakesHeading(SpansAt(excerpts, cit.path), claims[k].quote, cit, out))
    && ((forall k :: 0 <= k < |claims| ==> claims[k].index != i) ==> out == cit)
  }

  lemma ThreadedIsThreaded(excerpts: seq<Excerpt>, claims: seq<Claim>, cit: Citation, i: int)
    ensures IsThreaded(excerpts, claims, cit, i, Threaded(excerpts, claims, cit, i))
  {
    hide Contains, SpanIndex, Candidate;
    var spans, out := SpansAt(excerpts, cit.path), Threaded(excerpts, claims, cit, i);
    forall k | IsFirstClaim(claims, i, k) ensures TakesHeading(spans, claims[k].quote, cit, out) {
      FirstQuoteIs(claims, i, k);
      forall m | IsFirstSpan(spans, claims[k].quote, m) ensures out == cit.(heading := Some(spans[m].heading)) {
        FirstSpanIs(spans, claims[k].quote, m);
      }
    }
  }

  /** Only one citation is the threaded one. */
  lemma OneIsThreaded(excerpts: seq<Excerpt>, claims: seq<Claim>, cit: Citation, i: int, out: Citation)
    requires IsThreaded(excerpts, claims, cit, i, out)
    ensures out == Threaded(excerpts, claims, cit, i)
  {
    hide Contains, SpanIndex, Candidate, FirstQuote, FirstSpan;
    if FirstQuote(claims, i).Some? {
      var k := FirstClaim(claims, i);
      assert TakesHeading(SpansAt(excerpts, cit.path), claims[k].quote, cit, out);
      if FirstSpan(SpansAt(excerpts, cit.path), claims[k].quote).Some? {
        var m := FirstSpanAt(SpansAt(excerpts, cit.path), claims[k].quote);
      }
    }
  }

  /** `_thread_heading_paths`: each citation in turn. */
  method ThreadHeadings(citations: seq<Citation>, claims: seq<Claim>, excerpts: seq<Excerpt>)
    returns (out: seq<Citation>)
    ensures |out| == |citations|
    ensures forall i :: 0 <= i < |out| ==> IsThreaded(excerpts, claims, citations[i], i, out[i])
  {
    hide SpanIndex, FirstSpan, FirstQuote, Candidate, IsThreaded;
    var table := SpanTable(excerpts);
    out := [];
    for i := 0 to |citations|
      invariant |out| == i
      invariant forall j :: 0 <= j < i ==> IsThreaded(excerpts, claims, citations[j], j, out[j])
    {
      var cit := citations[i];
      ThreadedIsThreaded(excerpts, claims, cit, i);
      var quote := FirstQuote(claims, i);
      if quote.None? {
        out := out + [cit];
        continue;
      }
      var spans := if cit.path in table then table[cit.path] else [];
      if spans == [] && cit.path != "" {
        var candidate := Candidate(cit.path);
        spans := if candidate in table then table[candidate] else [];
      }
      var span := FirstSpan(spans, quote.value);
      out := out + [if span.None? then cit else cit.(heading := Some(span.value.heading))];
    }
  }

  // ---------------------------------------------------------------------------------------------
  // Evidence
  // ---------------------------------------------------------------------------------------------

  datatype EvidenceLine = EvidenceLine(path: string, heading: Option<seq<string>>, quote: string)

  /** `_render_evidence`, up to the text of a line: one line for each claim. */
  method RenderEvidence(citations: seq<Citation>, claims: seq<Claim>) returns (lines: seq<EvidenceLine>)
    requires forall c :: c in claims ==> 0 <= c.index < |citations|
    ensures |lines| == |claims|
    ensures forall n :: 0 <= n < |claims| ==>
              var cit := citations[claims[n].index]; lines[n] == EvidenceLine(cit.path, cit.heading, claims[n].quote)
  {
    lines := [];
    for n := 0 to |claims|
      invariant |lines| == n
      invariant forall m :: 0 <= m < n ==>
                  var cit := citations[claims[m].index];
                  lines[m] == EvidenceLine(cit.path, cit.heading, claims[m].quote)
    {
      assert claims[n] in claims;
      var cit := citations[claims[n].index];
      lines := lines + [EvidenceLine(cit.path, cit.heading, claims[n].quote)];
    }
  }

  /** The three in a row, on any input: no claim index is ever out of range. */
  method FileEvidence(answer: string, citations: seq<Citation>, claims: seq<Claim>, excerpts: seq<Excerpt>)
    returns (survivors: seq<Claim>, threaded: seq<Citation>, lines: seq<EvidenceLine>)
    ensures survivors == Survivors(answer, citations, excerpts, claims)
    ensures |threaded| == |citations| && |lines| == |survivors|
    ensures forall i :: 0 <= i < |citations| ==> IsThreaded(excerpts, survivors, citations[i], i, threaded[i])
    ensures forall n :: 0 <= n < |lines| ==>
              && 0 <= survivors[n].index < |citations|
              && lines[n].path == citations[survivors[n].index].path && lines[n].quote == survivors[n].quote
              && lines[n].heading == threaded[survivors[n].index].heading
  {
    hide Survives, Threaded, IsThreaded;
    survivors := ValidateClaims(answer, citations, claims, excerpts);
    threaded := ThreadHeadings(citations, survivors, excerpts);
    forall c | c in survivors ensures 0 <= c.index < |citations| {
      SurvivorInRange(answer, citations, excerpts, c);
    }
    forall i | 0 <= i < |citations| ensures threaded[i].path == citations[i].path {
      OneIsThreaded(excerpts, survivors, citations[i], i, threaded[i]);
      ThreadingKeepsPath(excerpts, survivors, citations[i], i);
    }
    lines := RenderEvidence(threaded, survivors);
    forall n | 0 <= n < |survivors| ensures 0 <= survivors[n].index < |citations| {
      assert survivors[n] in survivors;
    }
  }

  lemma SurvivorInRange(answer: string, citations: seq<Citation>, excerpts: seq<Excerpt>, c: Claim)
    requires Survives(answer, citations, excerpts, c)
    ensures 0 <= c.index < |citations|
  {
  }

  lemma ThreadingKeepsPath(excerpts: seq<Excerpt>, claims: seq<Claim>, cit: Citation, i: int)
    ensures Threaded(excerpts, claims, cit, i).path == cit.path && Threaded(excerpts, claims, cit, i).line == cit.line
  {
  }

  // ---------------------------------------------------------------------------------------------
  // What a heading path means
  // ---------------------------------------------------------------------------------------------

  /** A heading changes only to that of a span that contains the quote of the first claim on the citation. */
  lemma {:induction false} HeadingComesFromQuotedSpan(excerpts: seq<Excerpt>, claims: seq<Claim>, cit: Citation, i: int)
    ensures Threaded(excerpts, claims, cit, i) != cit ==>
              exists e, m, k ::
                && e in excerpts && IsFirstClaim(claims, i, k) && IsFirstSpan(e.spans, claims[k].quote, m)
                && Threaded(excerpts, claims, cit, i).heading == Some(e.spans[m].heading)
  {
    hide Contains, SpanIndex, Candidate, FirstQuote, FirstSpan;
    if Threaded(excerpts, claims, cit, i) != cit {
      var k := FirstClaim(claims, i);
      var m := FirstSpanAt(SpansAt(excerpts, cit.path), claims[k].quote);
      var at := if FiledUnder(excerpts, cit.path) != [] then cit.path else Candidate(cit.path);
      var e := excerpts[SpanIndex(Slugs(excerpts), at).value];
      assert e in excerpts && e.spans == SpansAt(excerpts, cit.path);
    }
  }

  /** The page that validation checked a surviving claim against. */
  ghost predicate CheckedAgainst(citations: seq<Citation>, excerpts: seq<Excerpt>, c: Claim, e: Excerpt)
    requires 0 <= c.index < |citations|
  {
    var at := BodyIndex(Slugs(excerpts), citations[c.index].path);
    at.Some? && at.value < |excerpts| && e == excerpts[at.value]
  }

  /**
   * Where the two tables agree, a citation takes its heading from the page its first surviving claim was
   * checked against: that of the first span of the page that contains the quote, and none if the quote lies
   * across spans.
   */
  lemma {:induction false} HeadingFollowsCheckedPage(answer: string, citations: seq<Citation>, claims: seq<Claim>,
                                                     excerpts: seq<Excerpt>, i: int, k: int)
    requires Aligned(Slugs(excerpts)) && 0 <= i < |citations|
    requires IsFirstClaim(Survivors(answer, citations, excerpts, claims), i, k)
    ensures var survivors := Survivors(answer, citations, excerpts, claims);
            var c, out := survivors[k], Threaded(excerpts, survivors, citations[i], i);
            exists e :: CheckedAgainst(citations, excerpts, c, e) && Contains(PageBody(e), c.quote)
                        && TakesHeading(e.spans, c.quote, citations[i], out)
  {
    hide Contains, SpanIndex, Candidate, BodyIndex, FirstSpan, PageBody, Survivors, Threaded, TakesHeading;
    var survivors := Survivors(answer, citations, excerpts, claims);
    var c := survivors[k];
    assert c in survivors && Survives(answer, citations, excerpts, c);
    var e := CheckedPage(answer, citations, excerpts, c);
    ThreadedIsThreaded(excerpts, survivors, citations[i], i);
  }

  lemma CheckedPage(answer: string, citations: seq<Citation>, excerpts: seq<Excerpt>, c: Claim) returns (e: Excerpt)
    requires Aligned(Slugs(excerpts)) && Survives(answer, citations, excerpts, c)
    ensures CheckedAgainst(citations, excerpts, c, e) && Contains(PageBody(e), c.quote)
    ensures SpansAt(excerpts, citations[c.index].path) == e.spans
  {
    hide Contains, SpanIndex, Candidate, BodyIndex;
    var path := citations[c.index].path;
    var at := BodyIndex(Slugs(excerpts), path);
    assert SpanIndex(Slugs(excerpts), path) == at;
    e := excerpts[at.value];
  }

  /**
   * With slugs `a` and `a.md` the tables disagree on `wiki/a.md`: the claim is checked against one page,
   * and the heading comes from the other.
   */
  lemma ClashingSlugsMislead()
    ensures var excerpts := [Excerpt("a", [Span("q", ["Right"])]), Excerpt("a.md", [Span("qq", ["Wrong"])])];
            var citations := [Citation("wiki/a.md", None, None)];
            var claim := Claim("", 0, "q");
            && Survives("", citations, excerpts, claim) && BodyAt(excerpts, "wiki/a.md") == "q"
            && Threaded(excerpts, [claim], citations[0], 0).heading == Some(["Wrong"])
  {
    var excerpts := [Excerpt("a", [Span("q", ["Right"])]), Excerpt("a.md", [Span("qq", ["Wrong"])])];
    var slugs := Slugs(excerpts);
    assert slugs == ["a", "a.md"];
    UnmirrorOfMirror("a");
    assert Mirror("a") == "wiki/a.md" == Prefixed("a.md");
    assert IsLast(slugs, 0) by { assert "a" != "a.md"; }
    MirrorIsFound(slugs, "wiki/a.md", 0);
    assert Spells(slugs[1], "wiki/a.md");
    assert "q" <= "q"[0..] && "q" <= "qq"[0..] && "" <= ""[0..];
    assert Bodies(excerpts[0].spans) == ["q"];
  }
}
