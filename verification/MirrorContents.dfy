/** What stands in the mirrors a batch leaves, read line by line from their text. */
module MirrorContents {
  import opened Sequences
  import opened Text
  import opened Frontmatter
  import opened FrontmatterPrinter
  import opened IngestDate
  import opened Mirror
  import opened Ingest
  import opened IngestRuns

  ghost predicate HasField(line: string, key: string, value: string) {
    StartsWith(line, key) && ReadQuoted(Value(line, key)) == ReadBack(value)
  }

  /**
   * `text` is the mirror of `item`: a block of two rules and six fields, a blank line, and the item's body
   * without its own leading blocks, ended with a newline.
   */
  ghost predicate IsMirrorOf(c: Settings, item: Item, text: string) {
    var lines := Lines(text);
    && |lines| > 9 && lines[0] == "---" == lines[7] && lines[8] == ""
    && HasField(lines[1], "title: ", c.titleOf(c.slugOf(item)))
    && HasField(lines[2], "source_url: ", if item.url.Some? then item.url.value else "")
    && HasField(lines[3], "source_path: ", if item.path.Some? then item.path.value else "")
    && lines[4] == "source_hash: " + item.sourceHash
    && lines[5] == "fetched_via: " + item.fetchedVia
    && lines[6] == "ingested_at: " + IngestedAt(item.sourceHash)
    && var body, stripped := Unlines(lines[9..]), Stripped(item.body);
       (body == stripped || body == stripped + "\n") && body != "" && body[|body| - 1] == '\n'
  }

  lemma QuotedFieldReads(key: string, value: string)
    ensures HasField(key + Quoted(value), key, value)
  {
    hide Quoted, ReadQuoted, Carried;
    UnquoteOfQuoted(value);
    assert (key + Quoted(value))[|key|..] == Quoted(value);
  }

  lemma MirrorTextReads(c: Settings, item: Item)
    requires NewlineFree(item.sourceHash) && NewlineFree(item.fetchedVia)
    ensures IsMirrorOf(c, item, MirrorText(c, item))
  {
    hide Lines, Join, Stripped, Quoted, ReadQuoted, Carried, NewlineFree, HasField;
    var m := MetadataOf(c, item);
    var body := EndLine(Stripped(item.body));
    BlockThenBody(m, body);
    var lines := Lines(MirrorText(c, item));
    assert lines == (BlockLines(m) + [""]) + Lines(body);
    assert forall i :: 0 <= i < 8 ==> lines[i] == BlockLines(m)[i];
    assert lines[8] == "" && lines[9..] == Lines(body);
    UnlinesOfLines(body);
    QuotedFieldReads("title: ", m.title);
    QuotedFieldReads("source_url: ", m.sourceUrl.value);
    QuotedFieldReads("source_path: ", m.sourcePath.value);
  }

  /** Every item that decides a mirror has its own contents in the file the batch leaves. */
  lemma WrittenMirrorsRead(c: Settings, mirrors: map<string, string>, poison: map<string, (string, string)>,
                           items: seq<Item>, i: nat)
    requires i < |items| && Decides(c, mirrors, items, |items|, i)
    requires NewlineFree(items[i].sourceHash) && NewlineFree(items[i].fetchedVia)
    ensures var s, slug := Run(c, Fresh(mirrors, poison), items), c.slugOf(items[i]);
            slug in s.mirrors && IsMirrorOf(c, items[i], s.mirrors[slug])
  {
    hide Run, MirrorText, IsMirrorOf, Decides, IsSlugOf;
    RunIsDecided(c, mirrors, poison, items, |items|);
    TakeAll(items);
    MirrorTextReads(c, items[i]);
  }
}
