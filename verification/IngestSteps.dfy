/** What one item does to a run, reason by reason, and how reasons, keys and paths are spelled. */
module IngestSteps {
  import opened Sequences
  import opened Text
  import opened Frontmatter
  import opened FrontmatterPrinter
  import opened Mirror
  import opened Ingest
  import opened IngestRuns

  // ---------------------------------------------------------------------------------------------
  // Spellings
  // ---------------------------------------------------------------------------------------------

  /** Reasons are counted under the text before their first colon. */
  lemma {:induction false} CategoryIs(head: string, tail: string)
    requires ':' !in head
    ensures Category(head) == head && Category(head + ":" + tail) == head
  {
    if head != "" {
      assert (head + ":" + tail)[1..] == head[1..] + ":" + tail;
      CategoryIs(head[1..], tail);
    }
  }

  /** A hash is shown by its first eight characters. */
  lemma ShortIs(hash: string)
    ensures Short(hash) <= hash && |Short(hash)| <= 8 && (|Short(hash)| < 8 ==> Short(hash) == hash)
  {
  }

  /** A source is refused exactly when it is a local path that continues the collection's own. */
  lemma SelfIngestExactlyWhen(c: Settings, source: Source)
    ensures IsSelfIngest(c, source) <==>
              exists dir: seq<string>, rest: seq<string> ::
                c.dir == Some(dir) && source == Local(source.text, Some(dir + rest))
  {
    if IsSelfIngest(c, source) {
      var dir, path := c.dir.value, source.resolved.value;
      assert path == dir + path[|dir|..];
    }
  }

  /** The catalog key of a page is the collection and the last segment of its slug. */
  lemma RowIs(c: Settings, dir: string, name: string, hash: string)
    requires '/' !in name
    ensures RowFor(c, name, hash) == Row(c.collection + "/" + name, hash)
    ensures RowFor(c, dir + "/" + name, hash) == Row(c.collection + "/" + name, hash)
  {
    StemOf(dir, name);
  }

  // ---------------------------------------------------------------------------------------------
  // The hash of a page
  // ---------------------------------------------------------------------------------------------

  /** Lines of a front matter block that say nothing about the hash. */
  predicate OtherLines(lines: seq<string>) {
    forall i :: 0 <= i < |lines| ==> !IsRule(lines[i]) && !StartsWith(lines[i], "source_hash: ")
  }

  lemma {:induction false} OtherLinesPass(before: seq<string>, rest: seq<string>)
    requires OtherLines(before)
    ensures HashIn(before + rest) == HashIn(rest)
  {
    hide IsRule;
    if before == [] {
      EmptyAppend(rest);
    } else {
      assert (before + rest)[1..] == before[1..] + rest;
      OtherLinesPass(before[1..], rest);
    }
  }

  /** The hash is what follows the first `source_hash` key of a closed leading block. */
  lemma HashIsRead(before: seq<string>, hash: string, after: seq<string>, rule: string, rest: seq<string>)
    requires OtherLines(before) && IsRule(rule)
    ensures HashIn(before + (["source_hash: " + hash] + (after + ([rule] + rest)))) == Some(hash)
  {
    hide IsRule;
    var line, tail := "source_hash: " + hash, after + ([rule] + rest);
    OtherLinesPass(before, [line] + tail);
    ConsTail(line, tail);
    assert tail[|after|] == rule;
    assert !IsRule(line) by { KeyLineIsPlain(line); }
    assert Value(line, "source_hash: ") == hash;
  }

  /** Only a page that opens with a rule has one, read from the lines after it. */
  lemma HashOfPage(text: string)
    ensures SourceHashOf(text) == if IsRule(FirstLine(text)) then HashIn(Lines(text)[1..]) else None
  {
    hide IsRule;
  }

  /** There is none if the block ends before such a key, or never ends. */
  lemma NoHashIsRead(before: seq<string>, rule: string, rest: seq<string>)
    requires OtherLines(before) && IsRule(rule)
    ensures HashIn(before + ([rule] + rest)) == None && HashIn(before) == None
  {
    hide IsRule;
    OtherLinesPass(before, [rule] + rest);
    OtherLinesPass(before, []);
    EmptyEnd(before);
  }

  // ---------------------------------------------------------------------------------------------
  // One item
  // ---------------------------------------------------------------------------------------------

  /** One more skip, counted under the first part of its reason, and nothing else. */
  ghost predicate Skipped(s: State, s': State, reason: string) {
    var key := Category(reason);
    var before := if key in s.skipReasons then s.skipReasons[key] else 0;
    s' == s.(skipped := s'.skipped, skipReasons := s.skipReasons[key := before + 1]) && s'.skipped == s.skipped + 1
  }

  /** One more error, with the body and the reason kept under the slug and a record of where, and nothing else. */
  ghost predicate Quarantined(c: Settings, s: State, s': State, item: Item, reason: string) {
    var slug := c.slugOf(item);
    && s'.errors == s.errors + 1 && s'.poison == s.poison[slug := (item.body, reason)]
    && s'.quarantineRecords == s.quarantineRecords + [("poison/" + c.collection + "/" + slug + ".md", reason)]
    && s' == s.(errors := s'.errors, poison := s'.poison, quarantineRecords := s'.quarantineRecords)
  }

  /** The mirror of the item is in place, its path and hash are noted, and it counts as created or updated. */
  ghost predicate Mirrored(c: Settings, s: State, s': State, item: Item) {
    var slug := c.slugOf(item);
    && s'.mirrors == s.mirrors[slug := MirrorText(c, item)]
    && s'.mirrorPaths == s.mirrorPaths + [slug] && s'.mirrorSourceHashes == s.mirrorSourceHashes + [item.sourceHash]
    && (if slug in s.mirrors then s'.updated == s.updated + 1 && s'.created == s.created
        else s'.created == s.created + 1 && s'.updated == s.updated)
    && s' == s.(mirrors := s'.mirrors, mirrorPaths := s'.mirrorPaths, mirrorSourceHashes := s'.mirrorSourceHashes,
                created := s'.created, updated := s'.updated)
  }

  /** What stands in the way of an item before its mirror is looked at, if anything; a skip or a quarantine. */
  lemma FilteredItem(c: Settings, s: State, item: Item)
    ensures item.path.Some? && c.skipFilename(item.path.value).Some? ==>
              Skipped(s, Step(c, s, item), c.skipFilename(item.path.value).value)
    ensures !(item.path.Some? && c.skipFilename(item.path.value).Some?) && !c.validSlug(c.slugOf(item)) ==>
              Quarantined(c, s, Step(c, s, item), item, "invalid-slug")
    ensures !(item.path.Some? && c.skipFilename(item.path.value).Some?) && c.validSlug(c.slugOf(item))
            && c.skipContent(item.body).Some? ==>
              Quarantined(c, s, Step(c, s, item), item, c.skipContent(item.body).value)
  {
    hide Category, MirrorText, Collision;
  }

  /** An item that passes the filters and may be written is mirrored, or left alone on a dry run. */
  lemma FreeItem(c: Settings, s: State, item: Item)
    requires Eligible(c, item) && (c.slugOf(item) !in s.mirrors || c.force)
    ensures if c.dryRun then Step(c, s, item) == s else Mirrored(c, s, Step(c, s, item), item)
  {
    hide Category, MirrorText, Collision;
  }

  /** An item whose mirror exists is compared with it: what each finding leads to, and under which reason. */
  lemma ComparedItem(c: Settings, s: State, item: Item)
    requires Eligible(c, item) && c.slugOf(item) in s.mirrors && !c.force
    ensures var slug := c.slugOf(item);
            var existing := s.mirrors[slug];
            var s', hash := Step(c, s, item), ExistingHash(c, existing);
            if c.readError(slug).Some? then
              Quarantined(c, s, s', item, "mirror-unreadable:" + slug + ":" + c.readError(slug).value)
            else if c.parseError(existing).Some? then
              Quarantined(c, s, s', item, "frontmatter-unparseable:" + slug + ":" + c.parseError(existing).value)
            else if hash == "" then
              Quarantined(c, s, s', item, "mirror-unmanaged:" + slug + ":no-source-hash")
            else if hash == item.sourceHash then
              Skipped(s, s', "mirror-collision:up_to_date")
            else
              Quarantined(c, s, s', item,
                          "mirror-collision:" + slug + ":existing-" + Short(hash) + "!=new-" + Short(item.sourceHash))
  {
    hide Category, MirrorText, ExistingHash, Short;
  }

  /** A fetch that fails after its last item leaves one error and one record of where and why. */
  lemma FailedFetch(s: State, source: string, name: string)
    ensures var s' := FetchFailure(s, source, Some(name));
            && s'.errors == s.errors + 1
            && s'.quarantineRecords
               == s.quarantineRecords + [(source + ":unknown", "fetch-unreachable:" + source + ":" + name)]
            && s' == s.(errors := s'.errors, quarantineRecords := s'.quarantineRecords)
  {
  }

  /** The filter on file names lets the item through, and its slug cannot be derived. */
  ghost predicate EndsRun(c: Settings, item: Item) {
    c.slugFails(item) && !(item.path.Some? && c.skipFilename(item.path.value).Some?)
  }

  /** A run ends by an exception at the first such item, and at no other. */
  lemma {:induction false} RunEndsAt(c: Settings, items: seq<Item>, n: nat)
    requires n <= |items| && (forall i :: 0 <= i < n ==> !EndsRun(c, items[i]))
    requires n < |items| ==> EndsRun(c, items[n])
    ensures RaisesAt(c, items) == n
  {
    if n > 0 { RunEndsAt(c, items[1..], n - 1); }
  }
}
