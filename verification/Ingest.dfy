/**
 * The batch ingest pipeline: each fetched item is skipped, quarantined or written as a mirror, and the
 * batch commits once at the end. The object that the run mutates is proved against a fold over the items.
 */
module Ingest {
  import opened Sequences
  import opened Text
  import opened Frontmatter
  import opened FrontmatterPrinter
  import opened Mirror

  datatype Item = Item(path: Option<string>, url: Option<string>, body: string, sourceHash: string, fetchedVia: string)

  /** Where a batch comes from: a URL, or a path and its resolved segments if it can be resolved. */
  datatype Source = Url(text: string) | Local(text: string, resolved: Option<seq<string>>)

  /** The decisions taken from elsewhere and the run's switches; `dir` is the collection's resolved directory. */
  datatype Settings = Settings(
    collection: string,
    dir: Option<seq<string>>,
    skipFilename: string -> Option<string>,
    slugOf: Item -> string,
    validSlug: string -> bool,
    skipContent: string -> Option<string>,
    slugFails: Item -> bool,
    readError: string -> Option<string>,
    parseError: string -> Option<string>,
    scalar: string -> string,
    titleOf: string -> string,
    force: bool,
    dryRun: bool)

  // ---------------------------------------------------------------------------------------------
  // One item
  // ---------------------------------------------------------------------------------------------

  datatype Outcome =
    | Skip(reason: string)
    | Quarantine(slug: string, reason: string)
    | Write(slug: string, text: string)
    | Nothing

  function Category(reason: string): string {
    if reason == "" || reason[0] == ':' then "" else [reason[0]] + Category(reason[1..])
  }

  function Short(hash: string): string {
    if |hash| > 8 then hash[..8] else hash
  }

  predicate Closes(lines: seq<string>) {
    exists i :: 0 <= i < |lines| && IsRule(lines[i])
  }

  /** The text behind the first `source_hash` key, if it comes before the rule that closes the block. */
  function HashIn(lines: seq<string>): Option<string> {
    if lines == [] || IsRule(lines[0]) then None
    else if StartsWith(lines[0], "source_hash: ") && Closes(lines[1..]) then Some(Value(lines[0], "source_hash: "))
    else HashIn(lines[1..])
  }

  /** The hash as the front matter of a mirror spells it. */
  function SourceHashOf(text: string): Option<string> {
    var lines := Lines(text);
    if lines != [] && IsRule(lines[0]) then HashIn(lines[1..]) else None
  }

  /** The hash as it is compared: parsed as an unquoted scalar and turned back into text. */
  function ExistingHash(c: Settings, text: string): string {
    match SourceHashOf(text)
    case None => ""
    case Some(spelt) => c.scalar(spelt)
  }

  function MetadataOf(c: Settings, item: Item): Metadata {
    Metadata(c.titleOf(c.slugOf(item)),
             Some(if item.url.Some? then item.url.value else ""),
             Some(if item.path.Some? then item.path.value else ""),
             item.sourceHash, item.fetchedVia)
  }

  function MirrorText(c: Settings, item: Item): string {
    Render(MetadataOf(c, item), item.body)
  }

  /** Items that no filter stops. */
  predicate Eligible(c: Settings, item: Item) {
    && (item.path.Some? ==> c.skipFilename(item.path.value).None?)
    && c.validSlug(c.slugOf(item))
    && c.skipContent(item.body).None?
  }

  /** `_assert_not_self_ingest`: the source is the collection's directory or lies inside it. */
  predicate IsSelfIngest(c: Settings, source: Source) {
    source.Local? && source.resolved.Some? && c.dir.Some? && c.dir.value <= source.resolved.value
  }

  /** Deriving the slug raises, which no filter prevents once the file name has passed. */
  predicate Raises(c: Settings, item: Item) {
    (item.path.Some? ==> c.skipFilename(item.path.value).None?) && c.slugFails(item)
  }

  /** The first item that ends the run by an exception; the number of items if none does. */
  function RaisesAt(c: Settings, items: seq<Item>): (n: nat)
    ensures n <= |items|
    ensures forall i :: 0 <= i < n ==> !Raises(c, items[i])
    ensures n < |items| ==> Raises(c, items[n])
  {
    if items == [] || Raises(c, items[0]) then 0 else 1 + RaisesAt(c, items[1..])
  }

  /** What happens when the mirror is already there and may not be overwritten. */
  function Collision(c: Settings, existing: string, item: Item): (o: Outcome)
    ensures o.Skip? || o.Quarantine?
  {
    var slug := c.slugOf(item);
    if c.readError(slug).Some? then Quarantine(slug, "mirror-unreadable:" + slug + ":" + c.readError(slug).value)
    else if c.parseError(existing).Some? then
      Quarantine(slug, "frontmatter-unparseable:" + slug + ":" + c.parseError(existing).value)
    else
      var hash := ExistingHash(c, existing);
      if hash == "" then Quarantine(slug, "mirror-unmanaged:" + slug + ":no-source-hash")
      else if hash == item.sourceHash then Skip("mirror-collision:up_to_date")
      else Quarantine(slug, "mirror-collision:" + slug + ":existing-" + Short(hash) + "!=new-" + Short(item.sourceHash))
  }

  function OutcomeOf(c: Settings, mirrors: map<string, string>, item: Item): Outcome {
    var slug := c.slugOf(item);
    if item.path.Some? && c.skipFilename(item.path.value).Some? then Skip(c.skipFilename(item.path.value).value)
    else if !c.validSlug(slug) then Quarantine(slug, "invalid-slug")
    else if c.skipContent(item.body).Some? then Quarantine(slug, c.skipContent(item.body).value)
    else if slug in mirrors && !c.force then Collision(c, mirrors[slug], item)
    else if c.dryRun then Nothing
    else Write(slug, MirrorText(c, item))
  }

  // ---------------------------------------------------------------------------------------------
  // A run
  // ---------------------------------------------------------------------------------------------

  datatype State = State(
    mirrors: map<string, string>,
    poison: map<string, (string, string)>,
    created: nat, updated: nat, skipped: nat, errors: nat,
    skipReasons: map<string, nat>,
    mirrorPaths: seq<string>,
    mirrorSourceHashes: seq<string>,
    quarantineRecords: seq<(string, string)>)

  function Fresh(mirrors: map<string, string>, poison: map<string, (string, string)>): State {
    State(mirrors, poison, 0, 0, 0, 0, map[], [], [], [])
  }

  function Count(m: map<string, nat>, key: string): nat {
    if key in m then m[key] else 0
  }

  function PoisonPath(c: Settings, slug: string): string {
    "poison/" + c.collection + "/" + slug + ".md"
  }

  function Step(c: Settings, s: State, item: Item): State {
    match OutcomeOf(c, s.mirrors, item)
    case Skip(reason) =>
      var key := Category(reason);
      s.(skipped := s.skipped + 1, skipReasons := s.skipReasons[key := Count(s.skipReasons, key) + 1])
    case Quarantine(slug, reason) =>
      s.(errors := s.errors + 1,
         poison := s.poison[slug := (item.body, reason)],
         quarantineRecords := s.quarantineRecords + [(PoisonPath(c, slug), reason)])
    case Write(slug, text) =>
      s.(mirrors := s.mirrors[slug := text],
         created := if slug in s.mirrors then s.created else s.created + 1,
         updated := if slug in s.mirrors then s.updated + 1 else s.updated,
         mirrorPaths := s.mirrorPaths + [slug],
         mirrorSourceHashes := s.mirrorSourceHashes + [item.sourceHash])
    case Nothing => s
  }

  function Run(c: Settings, s: State, items: seq<Item>): State {
    if items == [] then s else Step(c, Run(c, s, items[..|items| - 1]), items[|items| - 1])
  }

  /** A fetch generator that fails after its last item leaves one record and one error. */
  function FetchFailure(s: State, source: string, failure: Option<string>): State {
    match failure
    case None => s
    case Some(name) =>
      s.(errors := s.errors + 1,
         quarantineRecords := s.quarantineRecords + [(source + ":unknown", "fetch-unreachable:" + source + ":" + name)])
  }

  // ---------------------------------------------------------------------------------------------
  // The final commit
  // ---------------------------------------------------------------------------------------------

  datatype Row = Row(slug: string, hash: string)
  datatype Commit = Commit(paths: seq<string>, rows: seq<Row>)

  /** `Path.stem` of `<slug>.md`: the last path segment. */
  function Stem(slug: string): string {
    if '/' !in slug then slug else Stem(slug[1..])
  }

  function RowFor(c: Settings, slug: string, hash: string): Row {
    Row(c.collection + "/" + Stem(slug), hash)
  }

  function Rows(c: Settings, paths: seq<string>, hashes: seq<string>): (rows: seq<Row>)
    requires |paths| == |hashes|
    ensures |rows| == |paths|
    ensures forall i :: 0 <= i < |rows| ==> rows[i] == RowFor(c, paths[i], hashes[i])
  {
    if paths == [] then []
    else
      var n := |paths| - 1;
      Rows(c, paths[..n], hashes[..n]) + [RowFor(c, paths[n], hashes[n])]
  }

  /** Commits nothing on a dry run or when no mirror was written. */
  function Finalized(c: Settings, s: State): Option<Commit>
    requires |s.mirrorPaths| == |s.mirrorSourceHashes|
  {
    if c.dryRun || s.mirrorPaths == [] then None
    else Some(Commit(s.mirrorPaths, Rows(c, s.mirrorPaths, s.mirrorSourceHashes)))
  }

  // ---------------------------------------------------------------------------------------------
  // The object a run mutates
  // ---------------------------------------------------------------------------------------------

  class BatchIngest {
    var mirrors: map<string, string>
    var poison: map<string, (string, string)>
    var created: nat
    var updated: nat
    var skipped: nat
    var errors: nat
    var skipReasons: map<string, nat>
    var mirrorPaths: seq<string>
    var mirrorSourceHashes: seq<string>
    var quarantineRecords: seq<(string, string)>

    constructor (mirrors: map<string, string>, poison: map<string, (string, string)>)
      ensures Value() == Fresh(mirrors, poison)
    {
      this.mirrors, this.poison := mirrors, poison;
      created, updated, skipped, errors := 0, 0, 0, 0;
      skipReasons, mirrorPaths, mirrorSourceHashes, quarantineRecords := map[], [], [], [];
    }

    ghost function Value(): State
      reads this
    {
      State(mirrors, poison, created, updated, skipped, errors,
            skipReasons, mirrorPaths, mirrorSourceHashes, quarantineRecords)
    }

    method RecordSkip(reason: string)
      modifies this`skipped, this`skipReasons
      ensures skipped == old(skipped) + 1
      ensures skipReasons == old(skipReasons)[Category(reason) := Count(old(skipReasons), Category(reason)) + 1]
    {
      var key := Category(reason);
      skipReasons := skipReasons[key := (if key in skipReasons then skipReasons[key] else 0) + 1];
      skipped := skipped + 1;
    }

    /** Counts the error, keeps the failed body for inspection and records why. */
    method QuarantineItem(c: Settings, slug: string, body: string, reason: string)
      modifies this`errors, this`poison, this`quarantineRecords
      ensures errors == old(errors) + 1
      ensures poison == old(poison)[slug := (body, reason)]
      ensures quarantineRecords == old(quarantineRecords) + [(PoisonPath(c, slug), reason)]
    {
      errors := errors + 1;
      poison := poison[slug := (body, reason)];
      quarantineRecords := quarantineRecords + [(PoisonPath(c, slug), reason)];
    }

    method ProcessItem(c: Settings, item: Item)
      modifies this
      ensures Value() == Step(c, old(Value()), item)
    {
      hide ExistingHash, Render, Category;
      if item.path.Some? {
        var skipReason := c.skipFilename(item.path.value);
        if skipReason.Some? {
          RecordSkip(skipReason.value);
          return;
        }
      }
      var slug := c.slugOf(item);
      if !c.validSlug(slug) {
        QuarantineItem(c, slug, item.body, "invalid-slug");
        return;
      }
      var skipReason := c.skipContent(item.body);
      if skipReason.Some? {
        QuarantineItem(c, slug, item.body, skipReason.value);
        return;
      }
      var existed := slug in mirrors;
      if existed && !c.force {
        var existing := mirrors[slug];
        if c.readError(slug).Some? {
          QuarantineItem(c, slug, item.body, "mirror-unreadable:" + slug + ":" + c.readError(slug).value);
          return;
        }
        if c.parseError(existing).Some? {
          QuarantineItem(c, slug, item.body, "frontmatter-unparseable:" + slug + ":" + c.parseError(existing).value);
          return;
        }
        var existingHash := ExistingHash(c, existing);
        var reason;
        if existingHash != "" {
          if existingHash == item.sourceHash {
            RecordSkip("mirror-collision:up_to_date");
            return;
          }
          reason := "mirror-collision:" + slug + ":existing-" + Short(existingHash) + "!=new-" + Short(item.sourceHash);
        } else {
          reason := "mirror-unmanaged:" + slug + ":no-source-hash";
        }
        QuarantineItem(c, slug, item.body, reason);
        return;
      }
      if c.dryRun { return; }
      mirrors := mirrors[slug := MirrorText(c, item)];
      if existed { updated := updated + 1; } else { created := created + 1; }
      mirrorPaths := mirrorPaths + [slug];
      mirrorSourceHashes := mirrorSourceHashes + [item.sourceHash];
    }

    /** The loop over the fetched items, up to one that ends the run by an exception. */
    method ProcessItems(c: Settings, items: seq<Item>) returns (raised: bool)
      requires |mirrorPaths| == |mirrorSourceHashes|
      modifies this
      ensures raised <==> RaisesAt(c, items) < |items|
      ensures Value() == Run(c, old(Value()), items[..RaisesAt(c, items)])
      ensures |mirrorPaths| == |mirrorSourceHashes|
    {
      hide Step, Run, Raises;
      NothingRun(c, Value(), items);
      for i := 0 to |items|
        invariant Value() == Run(c, old(Value()), items[..i])
        invariant |mirrorPaths| == |mirrorSourceHashes|
        invariant RaisesAt(c, items) >= i
      {
        if Raises(c, items[i]) { return true; }
        RunStep(c, old(Value()), items, i);
        StepKeepsAlignment(c, Value(), items[i]);
        ProcessItem(c, items[i]);
      }
      raised := false;
    }

    /**
     * `run_batch_ingest`: fetch, process every item, then commit once. A source inside the collection is
     * refused; a fetch that reaches nothing and a slug that cannot be derived end the run by an exception,
     * without a commit.
     */
    method RunBatch(c: Settings, source: Source, items: seq<Item>, failure: Option<string>, unreachable: bool)
      returns (commit: Option<Commit>, raised: bool)
      requires Value() == Fresh(mirrors, poison)
      modifies this
      ensures raised <==> IsSelfIngest(c, source) || unreachable || RaisesAt(c, items) < |items|
      ensures IsSelfIngest(c, source) || unreachable ==> Value() == old(Value())
      ensures !IsSelfIngest(c, source) && !unreachable ==>
                Value() == Run(c, FetchFailure(old(Value()), source.text, failure), items[..RaisesAt(c, items)])
      ensures |mirrorPaths| == |mirrorSourceHashes| && commit == if raised then None else Finalized(c, Value())
    {
      hide Step, Finalized, Run, RaisesAt, Raises;
      if IsSelfIngest(c, source) { return None, true; }
      if unreachable { return None, true; }
      if failure.Some? {
        errors := errors + 1;
        quarantineRecords := quarantineRecords
          + [(source.text + ":unknown", "fetch-unreachable:" + source.text + ":" + failure.value)];
      }
      assert Value() == FetchFailure(old(Value()), source.text, failure);
      raised := ProcessItems(c, items);
      commit := None;
      if !raised { commit := Finalize(c); }
    }

    method Finalize(c: Settings) returns (commit: Option<Commit>)
      requires |mirrorPaths| == |mirrorSourceHashes|
      ensures commit == Finalized(c, Value())
    {
      hide RowFor;
      if c.dryRun || mirrorPaths == [] { return None; }
      var rows := [];
      for i := 0 to |mirrorPaths|
        invariant rows == Rows(c, mirrorPaths[..i], mirrorSourceHashes[..i])
      {
        TakeStep(mirrorPaths, i);
        TakeStep(mirrorSourceHashes, i);
        rows := rows + [RowFor(c, mirrorPaths[i], mirrorSourceHashes[i])];
      }
      TakeAll(mirrorPaths);
      TakeAll(mirrorSourceHashes);
      return Some(Commit(mirrorPaths, rows));
    }
  }

  lemma NothingRun(c: Settings, s: State, items: seq<Item>)
    ensures Run(c, s, items[..0]) == s
  {
  }

  lemma RunStep(c: Settings, s: State, items: seq<Item>, i: nat)
    requires i < |items|
    ensures Run(c, s, items[..i + 1]) == Step(c, Run(c, s, items[..i]), items[i])
  {
    hide Step;
    TakeStep(items, i);
  }

  lemma StepKeepsAlignment(c: Settings, s: State, item: Item)
    requires |s.mirrorPaths| == |s.mirrorSourceHashes|
    ensures |Step(c, s, item).mirrorPaths| == |Step(c, s, item).mirrorSourceHashes|
  {
  }
}
