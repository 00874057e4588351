/** What whole batches guarantee: nothing is overwritten, re-runs write nothing, and the books balance. */
module IngestRuns {
  import opened Sequences
  import opened Text
  import opened Frontmatter
  import opened FrontmatterPrinter
  import opened Mirror
  import opened Ingest

  /** The state after the first `i` items. */
  function After(c: Settings, s: State, items: seq<Item>, i: nat): State
    requires i <= |items|
  {
    Run(c, s, items[..i])
  }

  lemma AfterStep(c: Settings, s: State, items: seq<Item>, i: nat)
    requires i < |items|
    ensures After(c, s, items, i + 1) == Step(c, After(c, s, items, i), items[i])
  {
    RunStep(c, s, items, i);
  }

  predicate Within(m: map<string, string>, n: map<string, string>) {
    forall k :: k in m ==> k in n && n[k] == m[k]
  }

  // ---------------------------------------------------------------------------------------------
  // Without force
  // ---------------------------------------------------------------------------------------------

  lemma StepNeverOverwrites(c: Settings, s: State, item: Item)
    requires !c.force
    ensures Within(s.mirrors, Step(c, s, item).mirrors)
  {
    hide MirrorText, Collision, Category;
    if OutcomeOf(c, s.mirrors, item).Write? { assert c.slugOf(item) !in s.mirrors; }
  }

  /**
   * Without `force`, every mirror that exists at any point of a batch, whether it was there before or
   * the batch just wrote it, is byte-identical at every later point.
   */
  lemma {:induction false} NeverOverwrites(c: Settings, s: State, items: seq<Item>, i: nat, j: nat)
    requires !c.force && i <= j <= |items|
    ensures Within(After(c, s, items, i).mirrors, After(c, s, items, j).mirrors)
    decreases j - i
  {
    hide Step, Run;
    if i < j {
      NeverOverwrites(c, s, items, i, j - 1);
      AfterStep(c, s, items, j - 1);
      StepNeverOverwrites(c, After(c, s, items, j - 1), items[j - 1]);
    }
  }

  lemma OnlyEligibleAreWritten(c: Settings, mirrors: map<string, string>, item: Item)
    ensures OutcomeOf(c, mirrors, item).Write? <==>
            Eligible(c, item) && !c.dryRun && (c.force || c.slugOf(item) !in mirrors)
    ensures OutcomeOf(c, mirrors, item).Write? ==>
            OutcomeOf(c, mirrors, item) == Write(c.slugOf(item), MirrorText(c, item))
  {
    hide MirrorText, Collision;
  }

  /** Every item that passes the filters has its mirror in place once the batch is over. */
  lemma {:induction false} EligibleIsMirrored(c: Settings, s: State, items: seq<Item>, i: nat)
    requires !c.force && !c.dryRun && i < |items| && Eligible(c, items[i])
    ensures c.slugOf(items[i]) in Run(c, s, items).mirrors
  {
    hide Run, OutcomeOf, Eligible;
    OnlyEligibleAreWritten(c, After(c, s, items, i).mirrors, items[i]);
    MirroredAfter(c, s, items, i);
    NeverOverwrites(c, s, items, i + 1, |items|);
    TakeAll(items);
  }

  lemma MirroredAfter(c: Settings, s: State, items: seq<Item>, i: nat)
    requires i < |items|
    ensures var m, n := After(c, s, items, i).mirrors, After(c, s, items, i + 1).mirrors;
            match OutcomeOf(c, m, items[i])
            case Write(slug, text) => n == m[slug := text]
            case _ => n == m
  {
    hide Run, OutcomeOf, Category;
    AfterStep(c, s, items, i);
  }

  lemma {:induction false} MirroredRunWritesNothing(c: Settings, s: State, items: seq<Item>)
    requires !c.force
    requires forall i :: 0 <= i < |items| && Eligible(c, items[i]) ==> c.slugOf(items[i]) in s.mirrors
    ensures Run(c, s, items).mirrors == s.mirrors
    ensures Run(c, s, items).mirrorPaths == s.mirrorPaths
    ensures Run(c, s, items).mirrorSourceHashes == s.mirrorSourceHashes
  {
    hide OutcomeOf, Category, Eligible;
    if items != [] {
      var n := |items| - 1;
      assert forall i :: 0 <= i < n ==> items[..n][i] == items[i];
      MirroredRunWritesNothing(c, s, items[..n]);
      OnlyEligibleAreWritten(c, s.mirrors, items[n]);
    }
  }

  /**
   * Running the same batch again without `force`, over what the first run left, writes no mirror and
   * commits nothing, whatever the items are and however their slugs clash.
   */
  lemma {:induction false} RerunWritesNothing(c: Settings, s: State, items: seq<Item>)
    requires !c.force && !c.dryRun
    ensures var first := Run(c, s, items);
            var again := Run(c, Fresh(first.mirrors, first.poison), items);
            && again.mirrors == first.mirrors
            && again.mirrorPaths == [] && again.mirrorSourceHashes == []
            && Finalized(c, again) == None
  {
    var first := Run(c, s, items);
    forall i | 0 <= i < |items| && Eligible(c, items[i]) ensures c.slugOf(items[i]) in first.mirrors {
      EligibleIsMirrored(c, s, items, i);
    }
    hide Run, Eligible;
    MirroredRunWritesNothing(c, Fresh(first.mirrors, first.poison), items);
  }

  // ---------------------------------------------------------------------------------------------
  // Reading the hash back
  // ---------------------------------------------------------------------------------------------

  /** The front matter of a written mirror spells the item's hash. */
  lemma MirrorKeepsItsHash(c: Settings, item: Item)
    requires Printable(MetadataOf(c, item))
    ensures SourceHashOf(MirrorText(c, item)) == Some(item.sourceHash)
  {
    var m := MetadataOf(c, item);
    hide BlockLines, Join, Lines, Stripped, Quoted, MetadataOf;
    BlockIsWellFormed(m);
    HashLine(m);
    BlockThenBody(m, EndLine(Stripped(item.body)));
    HashInBlock(BlockLines(m), [""] + Lines(EndLine(Stripped(item.body))));
    AppendAssoc(BlockLines(m), [""], Lines(EndLine(Stripped(item.body))));
    assert m.sourceHash == item.sourceHash by { SameHash(c, item); }
  }

  lemma SameHash(c: Settings, item: Item)
    ensures MetadataOf(c, item).sourceHash == item.sourceHash
  {
  }

  lemma HashInBlock(block: seq<string>, rest: seq<string>)
    requires IsBlock(block)
    ensures IsRule((block + rest)[0]) && HashIn((block + rest)[1..]) == Some(Value(block[4], "source_hash: "))
  {
    var all := block + rest;
    OpeningIsRule();
    hide IsRule;
    forall i | 0 <= i < 8 ensures all[i] == block[i] {}
    assert block[1][0] == 't' && block[2][7] == 'u' && block[3][7] == 'p';
    PassOver(all, 1);
    PassOver(all, 2);
    PassOver(all, 3);
    assert all[4..][1..] == all[5..] && all[5..][2] == all[7];
  }

  lemma PassOver(lines: seq<string>, i: nat)
    requires i < |lines| && !IsRule(lines[i]) && !StartsWith(lines[i], "source_hash: ")
    ensures HashIn(lines[i..]) == HashIn(lines[i + 1..])
  {
    assert lines[i..][1..] == lines[i + 1..];
  }

  /** A mirror with the incoming hash is up to date exactly when it can be read, parsed, and keeps its spelling. */
  lemma SameHashIsSkipped(c: Settings, mirrors: map<string, string>, item: Item)
    requires !c.force && Eligible(c, item) && c.slugOf(item) in mirrors
    requires SourceHashOf(mirrors[c.slugOf(item)]) == Some(item.sourceHash)
    ensures OutcomeOf(c, mirrors, item) == Skip("mirror-collision:up_to_date")
            <==> && c.readError(c.slugOf(item)).None? && c.parseError(mirrors[c.slugOf(item)]).None?
                 && c.scalar(item.sourceHash) == item.sourceHash != ""
    ensures OutcomeOf(c, mirrors, item).Skip? || OutcomeOf(c, mirrors, item).Quarantine?
  {
    hide MirrorText, SourceHashOf, Short;
  }

  /**
   * An unchanged item whose mirror the batch wrote is skipped as up to date when the batch runs again,
   * exactly when that mirror can be read and parsed and its hash is a non-empty text that YAML takes for
   * itself; otherwise it is quarantined.
   */
  lemma UnchangedIsUpToDate(c: Settings, s: State, items: seq<Item>, i: nat)
    requires !c.force && i < |items|
    requires OutcomeOf(c, After(c, s, items, i).mirrors, items[i]).Write?
    requires Printable(MetadataOf(c, items[i]))
    ensures var again := OutcomeOf(c, Run(c, s, items).mirrors, items[i]);
            && (again == Skip("mirror-collision:up_to_date")
                <==> && c.readError(c.slugOf(items[i])).None? && c.parseError(MirrorText(c, items[i])).None?
                     && c.scalar(items[i].sourceHash) == items[i].sourceHash != "")
            && (again.Skip? || again.Quarantine?)
  {
    hide Run, MirrorText, OutcomeOf, SourceHashOf, Printable, MetadataOf, Eligible;
    var item := items[i];
    MirrorKeepsItsHash(c, item);
    OnlyEligibleAreWritten(c, After(c, s, items, i).mirrors, item);
    MirroredAfter(c, s, items, i);
    NeverOverwrites(c, s, items, i + 1, |items|);
    TakeAll(items);
    assert Run(c, s, items).mirrors[c.slugOf(item)] == MirrorText(c, item);
    SameHashIsSkipped(c, Run(c, s, items).mirrors, item);
  }

  /** Octal digits after a leading zero: an integer to YAML 1.1 and 1.2 alike, and no integer prints that way. */
  predicate IsNumeral(hash: string) {
    |hash| > 1 && hash[0] == '0' && forall i :: 0 <= i < |hash| ==> '0' <= hash[i] <= '7'
  }

  ghost predicate ReadsNumerals(c: Settings) {
    forall hash :: IsNumeral(hash) ==> c.scalar(hash) != hash
  }

  /** With such a parser, a mirror whose hash happens to be a numeral is written once and quarantined from then on. */
  lemma NumeralHashIsQuarantined(c: Settings, s: State, items: seq<Item>, i: nat)
    requires !c.force && i < |items| && ReadsNumerals(c) && IsNumeral(items[i].sourceHash)
    requires OutcomeOf(c, After(c, s, items, i).mirrors, items[i]).Write?
    requires Printable(MetadataOf(c, items[i]))
    ensures OutcomeOf(c, Run(c, s, items).mirrors, items[i]).Quarantine?
  {
    hide Run, MirrorText, SourceHashOf, Printable, MetadataOf, Eligible, IsNumeral, After, Category, Short;
    UnchangedIsUpToDate(c, s, items, i);
    OnlyEligibleAreWritten(c, After(c, s, items, i).mirrors, items[i]);
    OnlyUpToDateIsSkipped(c, Run(c, s, items).mirrors, items[i]);
  }

  /** The three quoted fields can all be read back. */
  predicate AllCarried(m: Metadata) {
    && Carried(m.title) && (m.sourceUrl.Some? ==> Carried(m.sourceUrl.value))
    && (m.sourcePath.Some? ==> Carried(m.sourcePath.value))
  }

  /** The front matter parser refuses a mirror with a quoted field that is no YAML scalar. */
  ghost predicate RefusesUncarried(c: Settings) {
    forall item :: Printable(MetadataOf(c, item)) && !AllCarried(MetadataOf(c, item)) ==>
      c.parseError(MirrorText(c, item)).Some?
  }

  /** With such a parser, a control character in a path or title is written once and quarantined from then on. */
  lemma ControlCharacterIsQuarantined(c: Settings, s: State, items: seq<Item>, i: nat)
    requires !c.force && i < |items| && RefusesUncarried(c) && !AllCarried(MetadataOf(c, items[i]))
    requires OutcomeOf(c, After(c, s, items, i).mirrors, items[i]).Write?
    requires Printable(MetadataOf(c, items[i]))
    ensures OutcomeOf(c, Run(c, s, items).mirrors, items[i]).Quarantine?
  {
    hide Run, MirrorText, SourceHashOf, Printable, MetadataOf, Eligible, AllCarried, After, Category, Short;
    UnchangedIsUpToDate(c, s, items, i);
    OnlyEligibleAreWritten(c, After(c, s, items, i).mirrors, items[i]);
    OnlyUpToDateIsSkipped(c, Run(c, s, items).mirrors, items[i]);
  }

  /** A parser that looks at the three quoted fields only. */
  function FieldError(text: string): Option<string> {
    var lines := Lines(text);
    if |lines| > 3 && StartsWith(lines[1], "title: ") && StartsWith(lines[2], "source_url: ")
       && StartsWith(lines[3], "source_path: ")
       && (ReadQuoted(Value(lines[1], "title: ")).None? || ReadQuoted(Value(lines[2], "source_url: ")).None?
           || ReadQuoted(Value(lines[3], "source_path: ")).None?)
    then Some("ReaderError") else None
  }

  lemma FieldErrorRefuses(c: Settings, item: Item)
    requires Printable(MetadataOf(c, item)) && !AllCarried(MetadataOf(c, item))
    ensures FieldError(MirrorText(c, item)).Some?
  {
    hide Lines, Stripped, Quoted, ReadQuoted, Carried, Join, IsRule;
    var m := MetadataOf(c, item);
    var rest := EndLine(Stripped(item.body));
    BlockThenBody(m, rest);
    BlockIsWellFormed(m);
    var lines := Lines(MirrorText(c, item));
    assert forall i :: 0 <= i < 8 ==> lines[i] == BlockLines(m)[i];
    UnquoteOfQuoted(m.title);
    UnquoteOfQuoted(m.sourceUrl.value);
    UnquoteOfQuoted(m.sourcePath.value);
    assert Value(lines[1], "title: ") == Quoted(m.title) && Value(lines[2], "source_url: ") == Quoted(m.sourceUrl.value)
           && Value(lines[3], "source_path: ") == Quoted(m.sourcePath.value);
  }

  /** A first run over one new item that no filter stops writes it. */
  lemma OneItemIsWritten(c: Settings, item: Item)
    requires !c.force && !c.dryRun && Eligible(c, item)
    ensures OutcomeOf(c, After(c, Fresh(map[], map[]), [item], 0).mirrors, item).Write?
  {
    hide Eligible, MirrorText, Collision;
    NothingRun(c, Fresh(map[], map[]), [item]);
    OnlyEligibleAreWritten(c, map[], item);
  }

  /** Such an item: a file whose name holds a bell. */
  lemma BellIsQuarantined() returns (c: Settings, item: Item)
    ensures item.path == Some("a\U{0007}.md") && RefusesUncarried(c) && Printable(MetadataOf(c, item))
    ensures OutcomeOf(c, map[], item).Write?
    ensures OutcomeOf(c, Run(c, Fresh(map[], map[]), [item]).mirrors, item).Quarantine?
  {
    hide Run, MirrorText, After, OutcomeOf;
    item := Item(Some("a\U{0007}.md"), None, "One\n", "1", "local");
    c := Settings("docs", None, _ => None, _ => "a", _ => true, _ => None, _ => false, _ => None, FieldError,
                  text => text, slug => slug, false, false);
    assert !CarriedChar(item.path.value[1]);
    hide Carried, Lines;
    forall other | Printable(MetadataOf(c, other)) && !AllCarried(MetadataOf(c, other))
      ensures c.parseError(MirrorText(c, other)).Some?
    {
      FieldErrorRefuses(c, other);
    }
    OneItemIsWritten(c, item);
    assert After(c, Fresh(map[], map[]), [item], 0).mirrors == map[] by { NothingAfter(c, [item]); }
    ControlCharacterIsQuarantined(c, Fresh(map[], map[]), [item], 0);
  }

  lemma NothingAfter(c: Settings, items: seq<Item>)
    ensures After(c, Fresh(map[], map[]), items, 0).mirrors == map[]
  {
    NothingRun(c, Fresh(map[], map[]), items);
  }

  /** Such an item: one with hash `01`, which comes back as `1`. */
  lemma ZeroOneIsQuarantined() returns (c: Settings, item: Item)
    ensures item.sourceHash == "01" && c.scalar("01") == "1" && ReadsNumerals(c) && Printable(MetadataOf(c, item))
    ensures OutcomeOf(c, map[], item).Write?
    ensures OutcomeOf(c, Run(c, Fresh(map[], map[]), [item]).mirrors, item).Quarantine?
  {
    hide Run, MirrorText, After, OutcomeOf;
    item := Item(Some("a.md"), None, "One\n", "01", "local");
    c := Settings("docs", None, _ => None, _ => "a", _ => true, _ => None, _ => false, _ => None, _ => None,
                  text => if IsNumeral(text) then text[1..] else text, slug => slug, false, false);
    assert forall hash: string :: IsNumeral(hash) ==> |hash[1..]| < |hash|;
    OneItemIsWritten(c, item);
    assert After(c, Fresh(map[], map[]), [item], 0).mirrors == map[] by { NothingAfter(c, [item]); }
    NumeralHashIsQuarantined(c, Fresh(map[], map[]), [item], 0);
  }

  lemma OnlyUpToDateIsSkipped(c: Settings, mirrors: map<string, string>, item: Item)
    requires Eligible(c, item)
    ensures OutcomeOf(c, mirrors, item).Skip? ==> OutcomeOf(c, mirrors, item) == Skip("mirror-collision:up_to_date")
  {
    hide MirrorText, SourceHashOf, Short;
  }

  // ---------------------------------------------------------------------------------------------
  // With force
  // ---------------------------------------------------------------------------------------------

  /** The mirrors a forced batch writes: for each slug, the last eligible item that has it. */
  function Written(c: Settings, items: seq<Item>): map<string, string> {
    if items == [] then map[]
    else
      var n := |items| - 1;
      var before := Written(c, items[..n]);
      if Eligible(c, items[n]) then before[c.slugOf(items[n]) := MirrorText(c, items[n])] else before
  }

  lemma {:induction false} ForcedRunWritesLast(c: Settings, s: State, items: seq<Item>)
    requires c.force && !c.dryRun
    ensures Run(c, s, items).mirrors == s.mirrors + Written(c, items)
  {
    hide MirrorText, OutcomeOf, Category, Eligible;
    if items != [] {
      var n := |items| - 1;
      ForcedRunWritesLast(c, s, items[..n]);
      OnlyEligibleAreWritten(c, Run(c, s, items[..n]).mirrors, items[n]);
      MergeUpdate(s.mirrors, Written(c, items[..n]), c.slugOf(items[n]), MirrorText(c, items[n]));
    }
  }

  lemma MergeUpdate<K, V>(m: map<K, V>, w: map<K, V>, k: K, v: V)
    ensures (m + w)[k := v] == m + w[k := v]
  {
  }

  /** With `force`, a second run leaves the same bytes on disk. */
  lemma ForcedRerunLeavesSameBytes(c: Settings, s: State, items: seq<Item>)
    requires c.force && !c.dryRun
    ensures var first := Run(c, s, items);
            Run(c, Fresh(first.mirrors, first.poison), items).mirrors == first.mirrors
  {
    hide Run, Written;
    var first := Run(c, s, items);
    ForcedRunWritesLast(c, s, items);
    ForcedRunWritesLast(c, Fresh(first.mirrors, first.poison), items);
  }

  // ---------------------------------------------------------------------------------------------
  // Accounting
  // ---------------------------------------------------------------------------------------------

  /** The sum of all counters. */
  ghost function Total(m: map<string, nat>): nat
    decreases |m|
  {
    if m == map[] then 0
    else
      var k :| k in m;
      m[k] + Total(m - {k})
  }

  lemma {:induction false} TotalWithout(m: map<string, nat>, k: string)
    requires k in m
    ensures Total(m) == m[k] + Total(m - {k})
    decreases |m|
  {
    var j :| j in m && Total(m) == m[j] + Total(m - {j});
    if j != k {
      TotalWithout(m - {j}, k);
      TotalWithout(m - {k}, j);
      assert m - {j} - {k} == m - {k} - {j};
    }
  }

  lemma TotalCountsUp(m: map<string, nat>, k: string)
    ensures Total(m[k := Count(m, k) + 1]) == Total(m) + 1
  {
    var n := m[k := Count(m, k) + 1];
    TotalWithout(n, k);
    assert n - {k} == m - {k};
    if k in m { TotalWithout(m, k); } else { assert m - {k} == m; }
  }

  ghost predicate Balanced(s: State, processed: nat, written: nat) {
    && s.created + s.updated + s.skipped + s.errors == processed
    && Total(s.skipReasons) == s.skipped
    && s.errors == |s.quarantineRecords|
    && |s.mirrorPaths| == |s.mirrorSourceHashes| == s.created + s.updated == written
  }

  /**
   * In a batch that is not a dry run every item is counted once: created, updated, skipped and errors
   * add up to the items plus one for a failed fetch; skip reasons add up to the skips; errors match the
   * quarantine records; and the written paths and hashes have one entry per written mirror.
   */
  lemma {:induction false} BooksBalance(c: Settings, mirrors: map<string, string>,
                                        poison: map<string, (string, string)>,
                                        source: string, failure: Option<string>, items: seq<Item>)
    requires !c.dryRun
    ensures var s := Run(c, FetchFailure(Fresh(mirrors, poison), source, failure), items);
            Balanced(s, |items| + if failure.Some? then 1 else 0, |s.mirrorPaths|)
    decreases |items|
  {
    hide MirrorText, Category, Eligible;
    if items == [] {
      assert Total(map[]) == 0;
    } else {
      var n := |items| - 1;
      BooksBalance(c, mirrors, poison, source, failure, items[..n]);
      BalanceStep(c, Run(c, FetchFailure(Fresh(mirrors, poison), source, failure), items[..n]), items[n],
                  n + if failure.Some? then 1 else 0);
    }
  }

  /** `created` counts exactly the mirrors that were not there before; without `force` nothing is updated. */
  lemma {:induction false} CreatedCountsNewMirrors(c: Settings, s: State, items: seq<Item>)
    ensures |Run(c, s, items).mirrors| + s.created == |s.mirrors| + Run(c, s, items).created
    ensures !c.force ==> Run(c, s, items).updated == s.updated
  {
    hide MirrorText, Category, Collision, Eligible;
    if items != [] {
      var n := |items| - 1;
      CreatedCountsNewMirrors(c, s, items[..n]);
      var t := Run(c, s, items[..n]);
      if OutcomeOf(c, t.mirrors, items[n]).Write? {
        OneMoreKey(t.mirrors, c.slugOf(items[n]), MirrorText(c, items[n]));
        OnlyEligibleAreWritten(c, t.mirrors, items[n]);
      }
    }
  }

  lemma OneMoreKey(m: map<string, string>, k: string, v: string)
    ensures |m[k := v]| == |m| + if k in m then 0 else 1
  {
    assert m[k := v].Keys == m.Keys + {k};
    assert |m| == |m.Keys| && |m[k := v]| == |m[k := v].Keys|;
  }

  lemma BalanceStep(c: Settings, s: State, item: Item, processed: nat)
    requires !c.dryRun && Balanced(s, processed, |s.mirrorPaths|)
    ensures Balanced(Step(c, s, item), processed + 1, |Step(c, s, item).mirrorPaths|)
  {
    hide Total, MirrorText, Category;
    match OutcomeOf(c, s.mirrors, item)
    case Skip(reason) => TotalCountsUp(s.skipReasons, Category(reason));
    case _ =>
  }

  // ---------------------------------------------------------------------------------------------
  // The catalog
  // ---------------------------------------------------------------------------------------------

  /** Every path written so far holds a mirror carrying the hash recorded beside it. */
  ghost predicate Tagged(s: State) {
    && |s.mirrorPaths| == |s.mirrorSourceHashes|
    && forall i :: 0 <= i < |s.mirrorPaths| ==>
         && s.mirrorPaths[i] in s.mirrors
         && SourceHashOf(s.mirrors[s.mirrorPaths[i]]) == Some(s.mirrorSourceHashes[i])
  }

  lemma {:induction false} PathsKeepTheirHash(c: Settings, s: State, items: seq<Item>)
    requires !c.force && Tagged(s)
    requires forall item :: item in items ==> Printable(MetadataOf(c, item))
    ensures Tagged(Run(c, s, items))
  {
    hide MirrorText, Category, SourceHashOf, Printable, MetadataOf, OutcomeOf;
    if items != [] {
      var n := |items| - 1;
      PathsKeepTheirHash(c, s, items[..n]);
      TaggedStep(c, Run(c, s, items[..n]), items[n]);
    }
  }

  lemma TaggedStep(c: Settings, s: State, item: Item)
    requires !c.force && Tagged(s) && Printable(MetadataOf(c, item))
    ensures Tagged(Step(c, s, item))
  {
    hide MirrorText, Category, SourceHashOf, Printable, MetadataOf;
    MirrorKeepsItsHash(c, item);
  }

  /** Without `force`, the commit tags each mirror with the hash its own file carries. */
  lemma CommitTagsEachMirror(c: Settings, mirrors: map<string, string>,
                             poison: map<string, (string, string)>,
                             items: seq<Item>)
    requires !c.force && forall item :: item in items ==> Printable(MetadataOf(c, item))
    ensures var s := Run(c, Fresh(mirrors, poison), items);
            && |s.mirrorPaths| == |s.mirrorSourceHashes|
            && match Finalized(c, s)
               case None => c.dryRun || s.mirrorPaths == []
               case Some(commit) =>
                 && commit.paths == s.mirrorPaths && |commit.rows| == |commit.paths|
                 && forall i :: 0 <= i < |commit.rows| ==>
                      && commit.paths[i] in s.mirrors
                      && SourceHashOf(s.mirrors[commit.paths[i]]).Some?
                      && commit.rows[i] == RowFor(c, commit.paths[i], SourceHashOf(s.mirrors[commit.paths[i]]).value)
  {
    hide Run, SourceHashOf, Printable, MetadataOf, RowFor;
    PathsKeepTheirHash(c, Fresh(mirrors, poison), items);
  }

  /** Nothing later in the batch wrote the path of entry `i` again. */
  ghost predicate IsLastWrite(paths: seq<string>, i: nat) {
    i < |paths| && forall k :: i < k < |paths| ==> paths[k] != paths[i]
  }

  ghost predicate LastTagged(s: State) {
    && |s.mirrorPaths| == |s.mirrorSourceHashes|
    && forall i :: 0 <= i < |s.mirrorPaths| && IsLastWrite(s.mirrorPaths, i) ==>
         && s.mirrorPaths[i] in s.mirrors
         && SourceHashOf(s.mirrors[s.mirrorPaths[i]]) == Some(s.mirrorSourceHashes[i])
  }

  lemma {:induction false} LastWritesAreTagged(c: Settings, s: State, items: seq<Item>)
    requires LastTagged(s) && forall item :: item in items ==> Printable(MetadataOf(c, item))
    ensures LastTagged(Run(c, s, items))
  {
    hide MirrorText, Category, SourceHashOf, Printable, MetadataOf, OutcomeOf, Step;
    if items != [] {
      var n := |items| - 1;
      LastWritesAreTagged(c, s, items[..n]);
      LastTaggedStep(c, Run(c, s, items[..n]), items[n]);
    }
  }

  lemma LastTaggedStep(c: Settings, s: State, item: Item)
    requires LastTagged(s) && Printable(MetadataOf(c, item))
    ensures LastTagged(Step(c, s, item))
  {
    hide MirrorText, Category, SourceHashOf, Printable, MetadataOf, Collision, Eligible, LastTagged;
    MirrorKeepsItsHash(c, item);
    OnlyEligibleAreWritten(c, s.mirrors, item);
    var s' := Step(c, s, item);
    match OutcomeOf(c, s.mirrors, item)
    case Write(slug, text) => LastTaggedWrite(s, s', slug, text, item.sourceHash);
    case _ => SameWrites(s, s');
  }

  lemma SameWrites(s: State, s': State)
    requires LastTagged(s) && s'.mirrors == s.mirrors
    requires s'.mirrorPaths == s.mirrorPaths && s'.mirrorSourceHashes == s.mirrorSourceHashes
    ensures LastTagged(s')
  {
    hide SourceHashOf;
  }

  lemma LastTaggedWrite(s: State, s': State, slug: string, text: string, hash: string)
    requires LastTagged(s) && SourceHashOf(text) == Some(hash) && s'.mirrors == s.mirrors[slug := text]
    requires s'.mirrorPaths == s.mirrorPaths + [slug] && s'.mirrorSourceHashes == s.mirrorSourceHashes + [hash]
    ensures LastTagged(s')
  {
    hide SourceHashOf;
    var paths, n := s'.mirrorPaths, |s.mirrorPaths|;
    forall i | 0 <= i < n && IsLastWrite(paths, i) ensures IsLastWrite(s.mirrorPaths, i) && paths[i] != slug {
      assert forall k :: i < k < n ==> paths[k] == s.mirrorPaths[k];
      assert paths[n] == slug;
    }
  }

  /** With or without `force`, the last row committed for a path carries the hash of the file at that path. */
  lemma LastRowTagsItsMirror(c: Settings, mirrors: map<string, string>,
                             poison: map<string, (string, string)>,
                             items: seq<Item>, i: nat)
    requires forall item :: item in items ==> Printable(MetadataOf(c, item))
    ensures var s := Run(c, Fresh(mirrors, poison), items);
            && |s.mirrorPaths| == |s.mirrorSourceHashes|
            && match Finalized(c, s)
               case None => c.dryRun || s.mirrorPaths == []
               case Some(commit) =>
                 && commit.paths == s.mirrorPaths && |commit.rows| == |commit.paths|
                 && (IsLastWrite(commit.paths, i) ==>
                       && commit.paths[i] in s.mirrors
                       && SourceHashOf(s.mirrors[commit.paths[i]]).Some?
                       && commit.rows[i] == RowFor(c, commit.paths[i], SourceHashOf(s.mirrors[commit.paths[i]]).value))
  {
    hide Run, SourceHashOf, Printable, MetadataOf, RowFor;
    LastWritesAreTagged(c, Fresh(mirrors, poison), items);
  }

  /** The catalog keeps one row per key: the last upsert wins. */
  function Upserted(rows: seq<Row>): map<string, string> {
    if rows == [] then map[]
    else Upserted(rows[..|rows| - 1])[rows[|rows| - 1].slug := rows[|rows| - 1].hash]
  }

  /** Row `j` is the last one with row `i`'s key. */
  ghost predicate LastWithKey(rows: seq<Row>, i: nat, j: nat) {
    && i < |rows| && i <= j < |rows| && rows[j].slug == rows[i].slug
    && forall k :: j < k < |rows| ==> rows[k].slug != rows[i].slug
  }

  /** A key ends with the hash of its last row. */
  lemma {:induction false} LastRowWins(rows: seq<Row>, i: nat, j: nat)
    requires LastWithKey(rows, i, j)
    ensures rows[i].slug in Upserted(rows) && Upserted(rows)[rows[i].slug] == rows[j].hash
  {
    var n := |rows| - 1;
    if j < n {
      var front := rows[..n];
      forall k | 0 <= k < n ensures front[k] == rows[k] {}
      LastRowWins(front, i, j);
    }
  }

  lemma {:induction false} HasLastRow(rows: seq<Row>, i: nat) returns (j: nat)
    requires i < |rows|
    ensures LastWithKey(rows, i, j)
  {
    j := |rows| - 1;
    while rows[j].slug != rows[i].slug
      invariant i <= j < |rows| && forall k :: j < k < |rows| ==> rows[k].slug != rows[i].slug
      decreases j
    {
      j := j - 1;
    }
  }

  lemma SameKey(c: Settings, a: string, b: string, hash: string, hash': string)
    ensures RowFor(c, a, hash).slug == RowFor(c, b, hash').slug <==> Stem(a) == Stem(b)
  {
    hide Stem;
    var key := c.collection + "/";
    assert (key + Stem(a))[|key|..] == Stem(a) && (key + Stem(b))[|key|..] == Stem(b);
  }

  /** What the catalog holds for path `a` once the rows are in. */
  function CatalogHash(c: Settings, rows: seq<Row>, a: string): Option<string> {
    var key := RowFor(c, a, "").slug;
    if key in Upserted(rows) then Some(Upserted(rows)[key]) else None
  }

  /** The catalog's hash for a committed path is that of the last committed path with its stem. */
  lemma CatalogHoldsLast(c: Settings, paths: seq<string>, hashes: seq<string>, i: nat) returns (j: nat)
    requires i < |paths| == |hashes|
    ensures i <= j < |paths| && Stem(paths[j]) == Stem(paths[i])
    ensures forall k :: j < k < |paths| ==> Stem(paths[k]) != Stem(paths[i])
    ensures CatalogHash(c, Rows(c, paths, hashes), paths[i]) == Some(hashes[j])
  {
    hide Rows, Upserted, Stem, RowFor;
    var rows := Rows(c, paths, hashes);
    j := HasLastRow(rows, i);
    LastRowWins(rows, i, j);
    SameKey(c, paths[i], paths[i], hashes[i], "");
    RowHash(c, paths[j], hashes[j]);
    forall k | 0 <= k < |paths| ensures rows[k].slug == rows[i].slug <==> Stem(paths[k]) == Stem(paths[i]) {
      SameKey(c, paths[k], paths[i], hashes[k], hashes[i]);
    }
  }

  lemma OneKeyPerStem(c: Settings, rows: seq<Row>, a: string, b: string)
    requires Stem(a) == Stem(b)
    ensures CatalogHash(c, rows, a) == CatalogHash(c, rows, b)
  {
    hide Upserted, Stem, RowFor;
    SameKey(c, a, b, "", "");
  }

  lemma RowHash(c: Settings, path: string, hash: string)
    ensures RowFor(c, path, hash).hash == hash
  {
  }

  /** Every committed path has its mirror, and the catalog holds the hash that mirror carries. */
  ghost predicate CatalogMatches(c: Settings, s: State)
    requires |s.mirrorPaths| == |s.mirrorSourceHashes|
  {
    forall path :: path in s.mirrorPaths ==>
      path in s.mirrors
      && CatalogHash(c, Rows(c, s.mirrorPaths, s.mirrorSourceHashes), path) == SourceHashOf(s.mirrors[path])
  }

  /** Any two committed paths with one stem have mirrors that carry one hash. */
  ghost predicate StemsAgree(s: State) {
    forall a, b :: a in s.mirrorPaths && b in s.mirrorPaths && Stem(a) == Stem(b) ==>
      a in s.mirrors && b in s.mirrors && SourceHashOf(s.mirrors[a]) == SourceHashOf(s.mirrors[b])
  }

  lemma MatchingStemsAgree(c: Settings, s: State)
    requires LastTagged(s) && CatalogMatches(c, s)
    ensures StemsAgree(s)
  {
    hide SourceHashOf, Rows, Stem, CatalogHash;
    forall a, b | a in s.mirrorPaths && b in s.mirrorPaths && Stem(a) == Stem(b)
      ensures a in s.mirrors && b in s.mirrors && SourceHashOf(s.mirrors[a]) == SourceHashOf(s.mirrors[b])
    {
      OneKeyPerStem(c, Rows(c, s.mirrorPaths, s.mirrorSourceHashes), a, b);
    }
  }

  lemma AgreeingStemsMatch(c: Settings, s: State)
    requires LastTagged(s) && StemsAgree(s)
    ensures CatalogMatches(c, s)
  {
    hide SourceHashOf, Rows, Stem, CatalogHash;
    forall path | path in s.mirrorPaths
      ensures path in s.mirrors
      ensures CatalogHash(c, Rows(c, s.mirrorPaths, s.mirrorSourceHashes), path) == SourceHashOf(s.mirrors[path])
    {
      var i :| 0 <= i < |s.mirrorPaths| && s.mirrorPaths[i] == path;
      CatalogIsAMirror(c, s, i);
    }
  }

  /**
   * Among the first `n` items, item `i` decides the mirror of its slug: with `force` the last eligible one
   * with that slug, otherwise the first one if no mirror was there before.
   */
  predicate Decides(c: Settings, mirrors: map<string, string>, items: seq<Item>, n: nat, i: int)
    requires n <= |items|
  {
    && 0 <= i < n && Eligible(c, items[i]) && !c.dryRun
    && if c.force then forall k :: i < k < n && Eligible(c, items[k]) ==> c.slugOf(items[k]) != c.slugOf(items[i])
       else c.slugOf(items[i]) !in mirrors
            && forall k :: 0 <= k < i && Eligible(c, items[k]) ==> c.slugOf(items[k]) != c.slugOf(items[i])
  }

  /** Any two deciding items whose slugs have one stem carry one hash. */
  ghost predicate SharedStemsShareHashes(c: Settings, mirrors: map<string, string>, items: seq<Item>) {
    forall i, j :: Decides(c, mirrors, items, |items|, i) && Decides(c, mirrors, items, |items|, j)
                   && Stem(c.slugOf(items[i])) == Stem(c.slugOf(items[j])) ==>
      items[i].sourceHash == items[j].sourceHash
  }

  /** Some eligible item among the first `n` has the slug `k`. */
  ghost predicate IsSlugOf(c: Settings, items: seq<Item>, n: nat, k: string)
    requires n <= |items|
  {
    exists i :: 0 <= i < n && Eligible(c, items[i]) && c.slugOf(items[i]) == k
  }

  /** The mirrors are the old ones and those of the eligible slugs, and each committed path has its decider. */
  ghost predicate Decided(c: Settings, mirrors: map<string, string>, items: seq<Item>, n: nat, s: State)
    requires n <= |items|
  {
    && (forall k :: k in s.mirrors <==> k in mirrors || (!c.dryRun && IsSlugOf(c, items, n, k)))
    && (forall i :: Decides(c, mirrors, items, n, i) ==>
          && c.slugOf(items[i]) in s.mirrorPaths && c.slugOf(items[i]) in s.mirrors
          && s.mirrors[c.slugOf(items[i])] == MirrorText(c, items[i]))
    && forall path :: path in s.mirrorPaths ==>
        exists i :: Decides(c, mirrors, items, n, i) && c.slugOf(items[i]) == path
  }

  lemma {:induction false} RunIsDecided(c: Settings, mirrors: map<string, string>,
                                        poison: map<string, (string, string)>,
                                        items: seq<Item>, n: nat)
    requires n <= |items|
    ensures Decided(c, mirrors, items, n, After(c, Fresh(mirrors, poison), items, n))
  {
    hide Step, Run, Eligible, MirrorText, Decided;
    var start := Fresh(mirrors, poison);
    if n == 0 {
      NothingRun(c, start, items);
      NothingDecided(c, mirrors, poison, items);
    } else {
      RunIsDecided(c, mirrors, poison, items, n - 1);
      AfterStep(c, start, items, n - 1);
      DecidedStep(c, mirrors, items, n - 1, After(c, start, items, n - 1));
    }
  }

  lemma NothingDecided(c: Settings, mirrors: map<string, string>,
                       poison: map<string, (string, string)>,
                       items: seq<Item>)
    ensures Decided(c, mirrors, items, 0, Fresh(mirrors, poison))
  {
  }

  lemma DecidedStep(c: Settings, mirrors: map<string, string>, items: seq<Item>, n: nat, s: State)
    requires n < |items| && Decided(c, mirrors, items, n, s)
    ensures Decided(c, mirrors, items, n + 1, Step(c, s, items[n]))
  {
    hide Eligible, MirrorText, Category, Collision, Decided, OutcomeOf;
    OnlyEligibleAreWritten(c, s.mirrors, items[n]);
    if OutcomeOf(c, s.mirrors, items[n]).Write? {
      DecidedWrite(c, mirrors, items, n, s, Step(c, s, items[n]));
    } else {
      DecidedPass(c, mirrors, items, n, s, Step(c, s, items[n]));
    }
  }

  lemma OneMoreSlug(c: Settings, items: seq<Item>, n: nat, k: string)
    requires n < |items|
    ensures IsSlugOf(c, items, n + 1, k) <==>
            IsSlugOf(c, items, n, k) || (Eligible(c, items[n]) && c.slugOf(items[n]) == k)
  {
    hide Eligible;
  }

  lemma DecidedPass(c: Settings, mirrors: map<string, string>, items: seq<Item>, n: nat, s: State, s': State)
    requires n < |items| && Decided(c, mirrors, items, n, s)
    requires !(Eligible(c, items[n]) && !c.dryRun && (c.force || c.slugOf(items[n]) !in s.mirrors))
    requires s'.mirrors == s.mirrors && s'.mirrorPaths == s.mirrorPaths
    ensures Decided(c, mirrors, items, n + 1, s')
  {
    hide Eligible, MirrorText, IsSlugOf;
    forall k ensures k in s'.mirrors <==> k in mirrors || (!c.dryRun && IsSlugOf(c, items, n + 1, k)) {
      OneMoreSlug(c, items, n, k);
    }
    hide Decides;
    forall i ensures Decides(c, mirrors, items, n + 1, i) <==> Decides(c, mirrors, items, n, i) {
      DecidesPass(c, mirrors, items, n, s, i);
    }
  }

  lemma DecidesPass(c: Settings, mirrors: map<string, string>, items: seq<Item>, n: nat, s: State, i: int)
    requires n < |items| && Decided(c, mirrors, items, n, s)
    requires !(Eligible(c, items[n]) && !c.dryRun && (c.force || c.slugOf(items[n]) !in s.mirrors))
    ensures Decides(c, mirrors, items, n + 1, i) <==> Decides(c, mirrors, items, n, i)
  {
    hide Eligible, MirrorText;
    if i == n && Decides(c, mirrors, items, n + 1, n) && !c.force { FirstOfSlug(c, mirrors, items, n, s); }
  }

  lemma FirstOfSlug(c: Settings, mirrors: map<string, string>, items: seq<Item>, n: nat, s: State)
    requires n < |items| && Decided(c, mirrors, items, n, s) && Decides(c, mirrors, items, n + 1, n) && !c.force
    ensures c.slugOf(items[n]) !in s.mirrors
  {
    hide Eligible, MirrorText;
  }

  lemma DecidedWrite(c: Settings, mirrors: map<string, string>, items: seq<Item>, n: nat, s: State, s': State)
    requires n < |items| && Decided(c, mirrors, items, n, s)
    requires Eligible(c, items[n]) && !c.dryRun && (c.force || c.slugOf(items[n]) !in s.mirrors)
    requires s'.mirrors == s.mirrors[c.slugOf(items[n]) := MirrorText(c, items[n])]
    requires s'.mirrorPaths == s.mirrorPaths + [c.slugOf(items[n])]
    ensures Decided(c, mirrors, items, n + 1, s')
  {
    hide Eligible, MirrorText, IsSlugOf;
    var slug := c.slugOf(items[n]);
    forall k ensures k in s'.mirrors <==> k in mirrors || (!c.dryRun && IsSlugOf(c, items, n + 1, k)) {
      OneMoreSlug(c, items, n, k);
    }
    hide Decides;
    forall i ensures Decides(c, mirrors, items, n + 1, i) <==>
                     i == n || (Decides(c, mirrors, items, n, i) && c.slugOf(items[i]) != slug)
    {
      DecidesWrite(c, mirrors, items, n, s, i);
    }
    forall path | path in s'.mirrorPaths
      ensures exists i :: Decides(c, mirrors, items, n + 1, i) && c.slugOf(items[i]) == path
    {
      if path == slug {
        assert Decides(c, mirrors, items, n + 1, n);
      } else {
        var i :| Decides(c, mirrors, items, n, i) && c.slugOf(items[i]) == path;
        assert Decides(c, mirrors, items, n + 1, i);
      }
    }
  }

  lemma DecidesWrite(c: Settings, mirrors: map<string, string>, items: seq<Item>, n: nat, s: State, i: int)
    requires n < |items| && Decided(c, mirrors, items, n, s)
    requires Eligible(c, items[n]) && !c.dryRun && (c.force || c.slugOf(items[n]) !in s.mirrors)
    ensures Decides(c, mirrors, items, n + 1, i) ==> i < |items|
    ensures Decides(c, mirrors, items, n + 1, i) <==>
            i == n || (Decides(c, mirrors, items, n, i) && c.slugOf(items[i]) != c.slugOf(items[n]))
  {
    hide Eligible, MirrorText, Decides, IsSlugOf;
    assert !c.force ==> c.slugOf(items[n]) !in mirrors && !IsSlugOf(c, items, n, c.slugOf(items[n]));
    DecidesMore(c, mirrors, items, n, i);
  }

  lemma DecidesMore(c: Settings, mirrors: map<string, string>, items: seq<Item>, n: nat, i: int)
    requires n < |items| && Eligible(c, items[n]) && !c.dryRun
    requires !c.force ==> c.slugOf(items[n]) !in mirrors && !IsSlugOf(c, items, n, c.slugOf(items[n]))
    ensures Decides(c, mirrors, items, n + 1, i) ==> i < |items|
    ensures Decides(c, mirrors, items, n + 1, i) <==>
            i == n || (Decides(c, mirrors, items, n, i) && c.slugOf(items[i]) != c.slugOf(items[n]))
  {
    hide Eligible;
  }

  /** The condition on the committed mirrors is one on the items and the mirrors that were there. */
  lemma StemsAgreeExactlyWhen(c: Settings, mirrors: map<string, string>,
                              poison: map<string, (string, string)>,
                              items: seq<Item>)
    requires forall item :: item in items ==> Printable(MetadataOf(c, item))
    ensures StemsAgree(Run(c, Fresh(mirrors, poison), items)) <==> SharedStemsShareHashes(c, mirrors, items)
  {
    hide Run, SourceHashOf, Printable, MetadataOf, MirrorText, Stem, Decides, IsSlugOf;
    var s := Run(c, Fresh(mirrors, poison), items);
    RunIsDecided(c, mirrors, poison, items, |items|);
    TakeAll(items);
    assert Decided(c, mirrors, items, |items|, s);
    forall i | Decides(c, mirrors, items, |items|, i)
      ensures 0 <= i < |items| && c.slugOf(items[i]) in s.mirrorPaths && c.slugOf(items[i]) in s.mirrors
      ensures SourceHashOf(s.mirrors[c.slugOf(items[i])]) == Some(items[i].sourceHash)
    {
      DecidersAreItems(c, mirrors, items, |items|, i);
      assert items[i] in items;
      MirrorKeepsItsHash(c, items[i]);
    }
  }

  lemma DecidersAreItems(c: Settings, mirrors: map<string, string>, items: seq<Item>, n: nat, i: int)
    requires n <= |items| && Decides(c, mirrors, items, n, i)
    ensures 0 <= i < |items|
  {
  }

  /**
   * With or without `force`, the catalog ends up holding for every committed path the hash its own mirror
   * carries if and only if any two items that decide a mirror, and whose slugs have one stem, carry one hash.
   */
  lemma CatalogIsTrueExactlyWhen(c: Settings, mirrors: map<string, string>,
                                 poison: map<string, (string, string)>,
                                 items: seq<Item>)
    requires forall item :: item in items ==> Printable(MetadataOf(c, item))
    ensures var s := Run(c, Fresh(mirrors, poison), items);
            && |s.mirrorPaths| == |s.mirrorSourceHashes|
            && (Finalized(c, s).Some? ==> Finalized(c, s).value.rows == Rows(c, s.mirrorPaths, s.mirrorSourceHashes))
            && (CatalogMatches(c, s) <==> SharedStemsShareHashes(c, mirrors, items))
  {
    hide Run, SourceHashOf, Printable, MetadataOf, Rows, CatalogMatches, StemsAgree, SharedStemsShareHashes;
    var s := Run(c, Fresh(mirrors, poison), items);
    LastWritesAreTagged(c, Fresh(mirrors, poison), items);
    StemsAgreeExactlyWhen(c, mirrors, poison, items);
    if CatalogMatches(c, s) { MatchingStemsAgree(c, s); }
    if StemsAgree(s) { AgreeingStemsMatch(c, s); }
  }

  /** The last write of a path, and the last of its stem, is tagged by its own mirror. */
  lemma CatalogIsAMirror(c: Settings, s: State, i: nat)
    requires LastTagged(s) && i < |s.mirrorPaths|
    ensures s.mirrorPaths[i] in s.mirrors
    ensures exists b :: b in s.mirrorPaths && b in s.mirrors && Stem(b) == Stem(s.mirrorPaths[i])
                        && CatalogHash(c, Rows(c, s.mirrorPaths, s.mirrorSourceHashes), s.mirrorPaths[i])
                           == SourceHashOf(s.mirrors[b])
  {
    hide SourceHashOf, Rows, Stem, CatalogHash;
    var paths := s.mirrorPaths;
    var last := LastWriteOf(paths, i);
    assert paths[last] in s.mirrors;
    var j := CatalogHoldsLast(c, paths, s.mirrorSourceHashes, i);
    assert forall k :: j < k < |paths| ==> Stem(paths[k]) != Stem(paths[j]);
    assert IsLastWrite(paths, j);
    assert paths[j] in paths;
  }

  lemma LastWriteOf(paths: seq<string>, i: nat) returns (j: nat)
    requires i < |paths|
    ensures IsLastWrite(paths, j) && paths[j] == paths[i]
  {
    j := |paths| - 1;
    while paths[j] != paths[i]
      invariant i <= j < |paths| && forall k :: j < k < |paths| ==> paths[k] != paths[i]
      decreases j
    {
      j := j - 1;
    }
  }

  /** A new page that passes the filters is written, and nothing else about the run changes. */
  lemma NewPageIsWritten(c: Settings, s: State, item: Item)
    requires !c.dryRun && Eligible(c, item) && c.slugOf(item) !in s.mirrors
    ensures var s' := Step(c, s, item);
            && s'.mirrorPaths == s.mirrorPaths + [c.slugOf(item)]
            && s'.mirrorSourceHashes == s.mirrorSourceHashes + [item.sourceHash]
            && s'.mirrors == s.mirrors[c.slugOf(item) := MirrorText(c, item)]
  {
    hide MirrorText, Category, Collision;
  }

  lemma RunTwo(c: Settings, s: State, first: Item, second: Item)
    ensures Run(c, s, [first, second]) == Step(c, Step(c, s, first), second)
  {
    hide Step;
    assert [first, second][..1] == [first] && [first][..0] == [];
    assert Run(c, s, []) == s && Run(c, s, [first]) == Step(c, s, first);
  }

  /** Two new pages with one stem and different hashes: the catalog loses the hash of the first. */
  lemma TwoPagesLoseAHash(c: Settings, first: Item, second: Item)
    requires !c.force && !c.dryRun && Eligible(c, first) && Eligible(c, second)
    requires Printable(MetadataOf(c, first))
    requires c.slugOf(first) != c.slugOf(second) && Stem(c.slugOf(first)) == Stem(c.slugOf(second))
    requires first.sourceHash != second.sourceHash
    ensures var s := Run(c, Fresh(map[], map[]), [first, second]);
            var path := c.slugOf(first);
            && |s.mirrorPaths| == |s.mirrorSourceHashes| == 2 && Finalized(c, s).Some? && path in s.mirrors
            && s.mirrorPaths[0] == path && SourceHashOf(s.mirrors[path]) == Some(first.sourceHash)
            && CatalogHash(c, Finalized(c, s).value.rows, path) == Some(second.sourceHash)
  {
    hide Run, Step, MirrorText, Eligible, Printable, MetadataOf, SourceHashOf, Stem, CatalogHash, Rows;
    var s0 := Fresh(map[], map[]);
    RunTwo(c, s0, first, second);
    NewPageIsWritten(c, s0, first);
    NewPageIsWritten(c, Step(c, s0, first), second);
    var s := Run(c, s0, [first, second]);
    assert s.mirrorPaths == [c.slugOf(first), c.slugOf(second)];
    assert s.mirrorSourceHashes == [first.sourceHash, second.sourceHash];
    var j := CatalogHoldsLast(c, s.mirrorPaths, s.mirrorSourceHashes, 0);
    assert Stem(s.mirrorPaths[1]) == Stem(s.mirrorPaths[0]);
    assert j == 1;
    MirrorKeepsItsHash(c, first);
    assert s.mirrors[c.slugOf(first)] == MirrorText(c, first);
  }

  /** A batch of two nested pages called `setup`, from two files with different contents, does so. */
  lemma NestedStemsCollide() returns (c: Settings, first: Item, second: Item)
    ensures first.path == Some("guides/setup.md") && second.path == Some("api/setup.md") && !c.force && !c.dryRun
    ensures c.slugOf(first) == "guides/setup" && c.slugOf(second) == "api/setup"
    ensures var s := Run(c, Fresh(map[], map[]), [first, second]);
            && |s.mirrorPaths| == |s.mirrorSourceHashes| && Finalized(c, s).Some? && "guides/setup" in s.mirrors
            && CatalogHash(c, Finalized(c, s).value.rows, "guides/setup") != SourceHashOf(s.mirrors["guides/setup"])
            && !CatalogMatches(c, s)
  {
    hide Run, Step, Stem, MirrorText, CatalogHash, SourceHashOf;
    first := Item(Some("guides/setup.md"), None, "One\n", "1", "local");
    second := Item(Some("api/setup.md"), None, "Two\n", "2", "local");
    var slugOf := (item: Item) => if item.path == Some("api/setup.md") then "api/setup" else "guides/setup";
    assert first.path.value[0] == 'g' && second.path.value[0] == 'a';
    assert slugOf(first) == "guides/setup" && slugOf(second) == "api/setup";
    c := Settings("docs", None, _ => None, slugOf, _ => true, _ => None, _ => false, _ => None, _ => None,
                  text => text, slug => slug, false, false);
    assert "guides/setup"[0] != "api/setup"[0];
    StemOf("guides", "setup");
    StemOf("api", "setup");
    assert "guides" + "/" + "setup" == "guides/setup" && "api" + "/" + "setup" == "api/setup";
    TwoPagesLoseAHash(c, first, second);
    assert Run(c, Fresh(map[], map[]), [first, second]).mirrorPaths[0] == "guides/setup";
  }

  /** The stem of a path is its last segment. */
  lemma {:induction false} StemOf(dir: string, name: string)
    requires '/' !in name
    ensures Stem(dir + "/" + name) == name
  {
    assert (dir + "/" + name)[|dir|] == '/';
    if dir == "" {
      assert (dir + "/" + name)[1..] == name;
    } else {
      assert (dir + "/" + name)[1..] == dir[1..] + "/" + name;
      StemOf(dir[1..], name);
    }
  }
}
