/**
 * From validated claim citations to heading paths: two lookups that build their page tables differently,
 * and exactly when they agree.
 */
module Citations {
  import opened Text

  datatype Span = Span(body: string, heading: seq<string>)

  datatype Excerpt = Excerpt(slug: string, spans: seq<Span>)

  datatype Citation = Citation(path: string, line: Option<int>, heading: Option<seq<string>>)

  datatype Claim = Claim(claim: string, index: int, quote: string)

  predicate Contains(s: string, part: string) {
    exists i :: 0 <= i <= |s| && part <= s[i..]
  }

  // ---------------------------------------------------------------------------------------------
  // The two page tables
  // ---------------------------------------------------------------------------------------------

  function Mirror(slug: string): string {
    "wiki/" + slug + ".md"
  }

  function Prefixed(slug: string): string {
    "wiki/" + slug
  }

  function Unmirror(path: string): Option<string> {
    if |path| >= 8 && path[..5] == "wiki/" && path[|path| - 3..] == ".md" then Some(path[5..|path| - 3]) else None
  }

  function Slugs(excerpts: seq<Excerpt>): (slugs: seq<string>)
    ensures |slugs| == |excerpts|
  {
    seq(|excerpts|, i requires 0 <= i < |excerpts| => excerpts[i].slug)
  }

  /** The last excerpt with a given slug. */
  function LastOf(slugs: seq<string>, slug: string): (at: Option<nat>)
    ensures at.Some? ==> at.value < |slugs| && slugs[at.value] == slug
    ensures forall i :: 0 <= i < |slugs| && slugs[i] == slug ==> at.Some? && i <= at.value
  {
    if slugs == [] then None
    else if slugs[|slugs| - 1] == slug then Some(|slugs| - 1)
    else LastOf(slugs[..|slugs| - 1], slug)
  }

  /** Which excerpt's body validation searches for a path: a mirrored slug goes before a bare one. */
  function BodyIndex(slugs: seq<string>, path: string): Option<nat> {
    if Unmirror(path).Some? && LastOf(slugs, Unmirror(path).value).Some? then LastOf(slugs, Unmirror(path).value)
    else LastOf(slugs, path)
  }

  /** The three spellings under which threading files an excerpt. */
  predicate Spells(slug: string, path: string) {
    path == slug || path == Mirror(slug) || path == Prefixed(slug)
  }

  /** Which excerpt's spans threading searches for a path: the last one filed under it. */
  function SpanIndex(slugs: seq<string>, path: string): (at: Option<nat>)
    ensures at.Some? ==> at.value < |slugs| && Spells(slugs[at.value], path)
    ensures forall i :: 0 <= i < |slugs| && Spells(slugs[i], path) ==> at.Some? && i <= at.value
  {
    if slugs == [] then None
    else if Spells(slugs[|slugs| - 1], path) then Some(|slugs| - 1)
    else SpanIndex(slugs[..|slugs| - 1], path)
  }

  function Bodies(spans: seq<Span>): seq<string> {
    seq(|spans|, i requires 0 <= i < |spans| => spans[i].body)
  }

  function PageBody(e: Excerpt): string {
    Join("\n\n", Bodies(e.spans))
  }

  /** One text lies in another exactly when it can be cut out of it. */
  lemma ContainsExactlyWhen(s: string, part: string)
    ensures Contains(s, part) <==> exists before, after :: s == before + part + after
  {
    if i :| 0 <= i <= |s| && part <= s[i..] { assert s == s[..i] + part + s[i + |part|..]; }
    if before, after :| s == before + part + after { assert part <= s[|before|..]; }
  }

  /** The text of a page is its spans' bodies, each separated from the next by one blank line. */
  lemma {:induction false} PageBodyIsSpaced(slug: string, a: seq<Span>, b: seq<Span>)
    requires a != [] && b != []
    ensures PageBody(Excerpt(slug, a + b)) == PageBody(Excerpt(slug, a)) + "\n" + "\n" + PageBody(Excerpt(slug, b))
    ensures |a| == 1 ==> PageBody(Excerpt(slug, a)) == a[0].body
  {
    var whole := Bodies(a + b);
    assert whole[1..] == Bodies((a + b)[1..]);
    if |a| == 1 {
      assert (a + b)[1..] == b;
      assert Join("\n\n", whole) == a[0].body + "\n\n" + Join("\n\n", Bodies(b));
    } else {
      assert (a + b)[1..] == a[1..] + b;
      assert Bodies(a)[1..] == Bodies(a[1..]);
      PageBodyIsSpaced(slug, a[1..], b);
    }
  }

  lemma UnmirrorOfMirror(slug: string)
    ensures Unmirror(Mirror(slug)) == Some(slug)
  {
    var path := Mirror(slug);
    assert path[..5] == "wiki/" && path[|path| - 3..] == ".md" && path[5..|path| - 3] == slug;
  }

  lemma MirrorOfUnmirror(path: string)
    ensures Unmirror(path).Some? ==> Mirror(Unmirror(path).value) == path
  {
  }

  ghost predicate IsBodyTable(excerpts: seq<Excerpt>, table: map<string, string>) {
    var slugs := Slugs(excerpts);
    && (forall path :: path in table <==> BodyIndex(slugs, path).Some?)
    && forall path :: path in table ==> table[path] == PageBody(excerpts[BodyIndex(slugs, path).value])
  }

  ghost predicate IsSpanTable(excerpts: seq<Excerpt>, table: map<string, seq<Span>>) {
    var slugs := Slugs(excerpts);
    && (forall path :: path in table <==> SpanIndex(slugs, path).Some?)
    && forall path :: path in table ==> table[path] == excerpts[SpanIndex(slugs, path).value].spans
  }

  lemma LastSnoc(slugs: seq<string>, n: nat, path: string)
    requires n < |slugs|
    ensures LastOf(slugs[..n + 1], path) == if slugs[n] == path then Some(n) else LastOf(slugs[..n], path)
  {
    assert slugs[..n + 1][..n] == slugs[..n];
  }

  lemma SpellSnoc(slugs: seq<string>, n: nat, path: string)
    requires n < |slugs|
    ensures SpanIndex(slugs[..n + 1], path) == if Spells(slugs[n], path) then Some(n) else SpanIndex(slugs[..n], path)
  {
    hide Spells;
    assert slugs[..n + 1][..n] == slugs[..n];
  }

  ghost predicate IsBareTable(excerpts: seq<Excerpt>, n: nat, table: map<string, string>)
    requires n <= |excerpts|
  {
    var slugs := Slugs(excerpts)[..n];
    && (forall path :: path in table <==> LastOf(slugs, path).Some?)
    && forall path :: path in table ==> table[path] == PageBody(excerpts[LastOf(slugs, path).value])
  }

  lemma BareMore(excerpts: seq<Excerpt>, n: nat, table: map<string, string>)
    requires n < |excerpts| && IsBareTable(excerpts, n, table)
    ensures IsBareTable(excerpts, n + 1, table[excerpts[n].slug := PageBody(excerpts[n])])
  {
    hide PageBody, LastOf;
    var e, slugs := excerpts[n], Slugs(excerpts);
    var table' := table[e.slug := PageBody(e)];
    assert slugs[n] == e.slug;
    forall path
      ensures path in table' <==> LastOf(slugs[..n + 1], path).Some?
      ensures path in table' ==> table'[path] == PageBody(excerpts[LastOf(slugs[..n + 1], path).value])
    {
      LastSnoc(slugs, n, path);
    }
  }

  /** The bare table with the first `n` excerpts mirrored over it. */
  ghost predicate IsMirrored(slugs: seq<string>, n: nat, bare: map<string, string>, table: map<string, string>)
    requires n <= |slugs| && forall i :: 0 <= i < n ==> slugs[i] in bare
  {
    && (forall path :: path in table <==> path in bare || MirrorsOne(slugs, n, path))
    && forall path :: path in table ==>
         table[path] == if MirrorsOne(slugs, n, path) then bare[Unmirror(path).value] else bare[path]
  }

  predicate MirrorsOne(slugs: seq<string>, n: nat, path: string)
    requires n <= |slugs|
  {
    Unmirror(path).Some? && exists i :: 0 <= i < n && slugs[i] == Unmirror(path).value
  }

  lemma MirrorMore(slugs: seq<string>, n: nat, bare: map<string, string>, table: map<string, string>)
    requires n < |slugs| && forall i :: 0 <= i <= n ==> slugs[i] in bare
    requires IsMirrored(slugs, n, bare, table)
    ensures IsMirrored(slugs, n + 1, bare, table[Mirror(slugs[n]) := bare[slugs[n]]])
  {
    hide Mirror, Unmirror;
    UnmirrorOfMirror(slugs[n]);
    forall path ensures MirrorsOne(slugs, n + 1, path) <==> MirrorsOne(slugs, n, path) || path == Mirror(slugs[n]) {
      MirrorOfUnmirror(path);
    }
  }

  /** The page bodies of `_validate_claim_citations`: first under the bare slugs, then mirrored. */
  method BodyTable(excerpts: seq<Excerpt>) returns (table: map<string, string>)
    ensures IsBodyTable(excerpts, table)
  {
    hide PageBody, IsBareTable, IsMirrored, LastOf, Mirror;
    var bare: map<string, string> := map[];
    NothingYet(excerpts);
    for n := 0 to |excerpts|
      invariant IsBareTable(excerpts, n, bare)
    {
      BareMore(excerpts, n, bare);
      bare := bare[excerpts[n].slug := PageBody(excerpts[n])];
    }
    table := bare;
    AllBare(excerpts, bare);
    for n := 0 to |excerpts|
      invariant IsMirrored(Slugs(excerpts), n, bare, table)
    {
      MirrorMore(Slugs(excerpts), n, bare, table);
      table := table[Mirror(excerpts[n].slug) := bare[excerpts[n].slug]];
    }
    Mirrored(excerpts, bare, table);
  }

  lemma NothingYet(excerpts: seq<Excerpt>)
    ensures IsBareTable(excerpts, 0, map[])
    ensures IsSpanTableUpTo(excerpts, 0, map[])
  {
    var none := Slugs(excerpts)[..0];
    forall path ensures SpanIndex(none, path).None? && LastOf(none, path).None? {
      assert none == [];
    }
  }

  lemma AllBare(excerpts: seq<Excerpt>, bare: map<string, string>)
    requires IsBareTable(excerpts, |excerpts|, bare)
    ensures forall i :: 0 <= i < |excerpts| ==> Slugs(excerpts)[i] in bare
    ensures IsMirrored(Slugs(excerpts), 0, bare, bare)
  {
    hide PageBody, Unmirror;
    assert Slugs(excerpts)[..|excerpts|] == Slugs(excerpts);
  }

  lemma Mirrored(excerpts: seq<Excerpt>, bare: map<string, string>, table: map<string, string>)
    requires IsBareTable(excerpts, |excerpts|, bare)
    requires forall i :: 0 <= i < |excerpts| ==> Slugs(excerpts)[i] in bare
    requires IsMirrored(Slugs(excerpts), |excerpts|, bare, table)
    ensures IsBodyTable(excerpts, table)
  {
    hide PageBody, Unmirror, Slugs;
    var slugs := Slugs(excerpts);
    assert slugs[..|excerpts|] == slugs;
    forall path
      ensures MirrorsOne(slugs, |excerpts|, path) <==> Unmirror(path).Some? && LastOf(slugs, Unmirror(path).value).Some?
    {
    }
  }

  ghost predicate IsSpanTableUpTo(excerpts: seq<Excerpt>, n: nat, table: map<string, seq<Span>>)
    requires n <= |excerpts|
  {
    var slugs := Slugs(excerpts)[..n];
    && (forall path :: path in table <==> SpanIndex(slugs, path).Some?)
    && forall path :: path in table ==> table[path] == excerpts[SpanIndex(slugs, path).value].spans
  }

  lemma SpansMore(excerpts: seq<Excerpt>, n: nat, table: map<string, seq<Span>>)
    requires n < |excerpts| && IsSpanTableUpTo(excerpts, n, table)
    ensures var e := excerpts[n];
            IsSpanTableUpTo(excerpts, n + 1,
                            table[e.slug := e.spans][Mirror(e.slug) := e.spans][Prefixed(e.slug) := e.spans])
  {
    hide SpanIndex, Mirror, Prefixed;
    var e, slugs := excerpts[n], Slugs(excerpts);
    var table' := table[e.slug := e.spans][Mirror(e.slug) := e.spans][Prefixed(e.slug) := e.spans];
    assert slugs[n] == e.slug;
    forall path
      ensures path in table' <==> SpanIndex(slugs[..n + 1], path).Some?
      ensures path in table' ==> table'[path] == excerpts[SpanIndex(slugs[..n + 1], path).value].spans
    {
      SpellSnoc(slugs, n, path);
    }
  }

  /** The spans of `_thread_heading_paths`: each excerpt in turn under its three spellings. */
  method SpanTable(excerpts: seq<Excerpt>) returns (table: map<string, seq<Span>>)
    ensures IsSpanTable(excerpts, table)
  {
    hide Mirror, Prefixed, SpanIndex;
    table := map[];
    NothingYet(excerpts);
    for n := 0 to |excerpts|
      invariant IsSpanTableUpTo(excerpts, n, table)
    {
      SpansMore(excerpts, n, table);
      var e := excerpts[n];
      table := table[e.slug := e.spans];
      table := table[Mirror(e.slug) := e.spans];
      table := table[Prefixed(e.slug) := e.spans];
    }
    assert Slugs(excerpts)[..|excerpts|] == Slugs(excerpts);
  }

  // ---------------------------------------------------------------------------------------------
  // When the tables agree
  // ---------------------------------------------------------------------------------------------

  /** Whatever path validation finds, threading takes the same excerpt for it. */
  ghost predicate Aligned(slugs: seq<string>) {
    forall path :: BodyIndex(slugs, path).Some? ==> SpanIndex(slugs, path) == BodyIndex(slugs, path)
  }

  /** `i` is the last excerpt with its slug. */
  predicate IsLast(slugs: seq<string>, i: int) {
    0 <= i < |slugs| && forall j :: i < j < |slugs| ==> slugs[j] != slugs[i]
  }

  /** No excerpt is filed later under a spelling that validation reads as an earlier excerpt. */
  ghost predicate NoLaterClash(slugs: seq<string>) {
    forall i, j :: 0 <= i < j < |slugs| && IsLast(slugs, i) ==>
      && slugs[j] != Mirror(slugs[i]) && slugs[j] != slugs[i] + ".md"
      && (slugs[i] == Prefixed(slugs[j]) ==> exists k :: 0 <= k < |slugs| && slugs[i] == Mirror(slugs[k]))
  }

  lemma LastIs(slugs: seq<string>, i: nat)
    requires IsLast(slugs, i)
    ensures LastOf(slugs, slugs[i]) == Some(i)
  {
  }

  lemma PrefixedIsMirror(a: string, b: string)
    ensures Prefixed(a) == Mirror(b) <==> a == b + ".md"
    ensures Mirror(a) == Mirror(b) <==> a == b
    ensures Prefixed(a) == Prefixed(b) <==> a == b
  {
    assert Prefixed(a)[5..] == a && Mirror(b)[5..] == b + ".md" && Mirror(a)[5..] == a + ".md" && Prefixed(b)[5..] == b;
    assert (a + ".md")[..|a|] == a && (b + ".md")[..|b|] == b;
    assert a == b + ".md" ==> Prefixed(a) == Mirror(b);
  }

  lemma MirrorIsFound(slugs: seq<string>, path: string, i: nat)
    requires IsLast(slugs, i) && path == Mirror(slugs[i])
    ensures BodyIndex(slugs, path) == Some(i)
    ensures SpanIndex(slugs, path) == Some(i) <==>
            forall j :: i < j < |slugs| ==> slugs[j] != path && slugs[j] != slugs[i] + ".md"
  {
    hide Mirror, Prefixed, Unmirror;
    UnmirrorOfMirror(slugs[i]);
    LastIs(slugs, i);
    forall j | i < j < |slugs| ensures Spells(slugs[j], path) <==> slugs[j] == path || slugs[j] == slugs[i] + ".md" {
      PrefixedIsMirror(slugs[j], slugs[i]);
    }
    assert Spells(slugs[i], path);
  }

  lemma BareIsFound(slugs: seq<string>, path: string, i: nat)
    requires IsLast(slugs, i) && path == slugs[i] && forall k :: 0 <= k < |slugs| ==> path != Mirror(slugs[k])
    ensures BodyIndex(slugs, path) == Some(i)
    ensures SpanIndex(slugs, path) == Some(i) <==> forall j :: i < j < |slugs| ==> path != Prefixed(slugs[j])
  {
    hide Mirror, Prefixed, Unmirror;
    LastIs(slugs, i);
    MirrorOfUnmirror(path);
    assert Spells(slugs[i], path);
    assert forall j :: i < j < |slugs| ==> (Spells(slugs[j], path) <==> path == Prefixed(slugs[j]));
  }

  lemma FoundIsSpelled(slugs: seq<string>, path: string) returns (i: nat)
    requires BodyIndex(slugs, path).Some?
    ensures i < |slugs| && IsLast(slugs, i)
    ensures path == Mirror(slugs[i]) || (path == slugs[i] && forall k :: 0 <= k < |slugs| ==> path != Mirror(slugs[k]))
  {
    hide Mirror, Prefixed, Unmirror;
    MirrorOfUnmirror(path);
    i := BodyIndex(slugs, path).value;
    forall k | 0 <= k < |slugs| && path == Mirror(slugs[k]) ensures path == Mirror(slugs[i]) {
      UnmirrorOfMirror(slugs[k]);
    }
  }

  /** Validation and threading look at the same excerpt for every path if and only if no later slug clashes. */
  lemma TablesAgreeExactlyWhen(slugs: seq<string>)
    ensures Aligned(slugs) <==> NoLaterClash(slugs)
  {
    hide Mirror, Prefixed, BodyIndex, SpanIndex, IsLast;
    if NoLaterClash(slugs) {
      forall path | BodyIndex(slugs, path).Some? ensures SpanIndex(slugs, path) == BodyIndex(slugs, path) {
        var i := FoundIsSpelled(slugs, path);
        if path == Mirror(slugs[i]) { MirrorIsFound(slugs, path, i); } else { BareIsFound(slugs, path, i); }
      }
    }
    if Aligned(slugs) {
      forall i, j | 0 <= i < j < |slugs| && IsLast(slugs, i)
        ensures slugs[j] != Mirror(slugs[i]) && slugs[j] != slugs[i] + ".md"
        ensures slugs[i] == Prefixed(slugs[j]) ==> exists k :: 0 <= k < |slugs| && slugs[i] == Mirror(slugs[k])
      {
        MirrorIsFound(slugs, Mirror(slugs[i]), i);
        if forall k :: 0 <= k < |slugs| ==> slugs[i] != Mirror(slugs[k]) { BareIsFound(slugs, slugs[i], i); }
      }
    }
  }

  /** Distinct slugs outside `wiki/`, none of them another one with `.md` added, never clash. */
  lemma PlainSlugsAgree(slugs: seq<string>)
    requires forall i :: 0 <= i < |slugs| ==> !StartsWith(slugs[i], "wiki/")
    requires forall i, j :: 0 <= i < |slugs| && 0 <= j < |slugs| ==> slugs[j] != slugs[i] + ".md"
    ensures Aligned(slugs)
  {
    forall i, j | 0 <= i < |slugs| && 0 <= j < |slugs|
      ensures slugs[j] != Mirror(slugs[i]) && slugs[i] != Prefixed(slugs[j])
    {
      assert StartsWith(Mirror(slugs[i]), "wiki/") && StartsWith(Prefixed(slugs[j]), "wiki/");
    }
    TablesAgreeExactlyWhen(slugs);
  }
}
