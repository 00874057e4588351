# Verified model of the LIES wiki and library core

LIES keeps a wiki and a library of mirrored documents in order with LLM agents. Around the agents stands a
deterministic shell, and this project models the parts of it whose behaviour is hardest to see from one
function body: two process protocols, two caches that other processes invalidate, four parsers with their
printers, a batch pipeline, and the acceptance of what agents propose. `dafny verify dfyconfig.toml` checks
all of it.

| Area | Files |
|---|---|
| Sync lock protocol (create-lock, heartbeat, descriptor sidecar) | `SyncLock`, `SyncLockRuns`, `SyncHelper` |
| Daemon lifecycle (pidfile, lock, processes) | `Daemon`, `DaemonRuns`, `DaemonCommands` |
| Registry caches keyed on mtimes | `CollectionsDir`, `Registry`, `NamesCache`, `TagsCache`, `TagsCacheRuns`, `TagsCacheSlot` |
| Markdown span parser | `MarkdownSpans`, `SpanLayout`, `MarkdownTexts` |
| Prompt tails: flag grammar, printer, leading flags, filters, fence | `Words`, `TailGrammar`, `TailInvariants`, `TailRoundTrip`, `TailSpellings`, `QuestionFilters`, `LeadingFlags`, `GroundTails`, `VerbatimFence` |
| Mirror format | `Frontmatter`, `FrontmatterPrinter`, `IngestDate`, `IngestCalendar`, `Mirror` |
| Batch ingest | `Ingest`, `IngestSteps`, `IngestRuns`, `MirrorContents` |
| Repair plans | `RepairPlan` |
| Citations and heading paths | `Citations`, `CitationThreading` |
| Shared | `Sequences`, `Text` |

Two shapes recur. A loop or an object that the repository updates in place is a method or a class proved
equal to a specification without its state, and the promises are lemmas about that specification. A protocol
is a step function over a world value, with every file operation a step of its own, and the promises are
lemmas over all runs.

## What turned out to need a condition

Each of these is stated as an if-and-only-if, with a concrete failing input or run beside it.

* **Sync lock.** Reaping goes by the lock file's age alone (no pid is consulted on this path). A run keeps
  every holder's lock in place exactly when each reap step removes nothing or a crashed process's lock
  (`SafeExactlyWhenReapingDead`). By time: in all runs ending by a given moment at most one process has claimed,
  exactly when no lock can be older than `MAX_AGE` by then (`SafeExactlyUntil`). Short runs do not help: whenever
  a lock counts as a leftover, two newcomers can both judge it, and the second unlinks the first one's new lock;
  both end up claiming (`DoubleClaim`).
* **Daemon.** No daemon runs untracked exactly when no `up` ends, by a crash or an exception, between starting
  its child and recording it while that child lives, and every failed child is really killed
  (`TrackedExactlyWhenNoChildIsLost`, `CrashedUpAllowsTwo`, `InterruptedUpAllowsTwo`). The pidfile names only
  processes that accepted a connection exactly when no `up` goes on after a stranger answered its readiness
  probe (`RecordIsTrueExactlyWhen`, `SquatterGetsChildRecorded`).
* **Tag cache, calls.** A call stats and loads one config after another. It is fair if each tag it returns was
  carried at some moment of it and each tag that one config carried throughout it is returned. Calls are always
  fair exactly when no edit during the scan removes or renames a collection, removes the root, deletes a config or
  puts an older file in place, and none of the last two falls into the walk it answers with (`FairExactlyWhen`,
  `CallCanReturnOldTags`, `NextCallCanReturnOldTags`). They always return the tags of one single moment exactly
  when, besides, the edits during that walk only make the root or empty collections (`TrueExactlyWhen`,
  `WalkCanMixTags`).
* **Tag cache, slot.** Right after a config is deleted, the slot misleads in exactly two ways: the slot is current,
  another file is as new, and the config had a tag of its own; or the config alone was newer than the slot, whose
  key the deletion brings back (`DeletionMisleadsExactlyWhen`). Right after a save it does exactly when neither the
  saved file nor another one is newer than the key, one carries it, and the walk has changed
  (`SaveMisleadsExactlyWhen`). `DeletedTagIsServed` and `OldSlotIsServed` fail both ways, by deletion and by save.
  Without another edit the slot can come to mislead later exactly when a call is about to store a stale walk
  under the newest mtime and that key is, or is about to be, free (`CanMisleadExactlyWhen`,
  `PendingWalkIsServed`).
* **Quoted fields.** A printed field reads back exactly when its value has no character below U+0020 but tabs and
  line ends (`UnquoteOfQuoted`); a bell is enough to break it (`BellIsNotCarried`), and the mirror is then
  quarantined on every later run (`ControlCharacterIsQuarantined`, `BellIsQuarantined`).
* **Unquoted hash.** An unchanged item is up to date on the next run exactly when its mirror can be read and
  parsed and its hash is non-empty text that YAML takes for itself (`UnchangedIsUpToDate`). The hash is printed
  without quotes, so octal digits after a leading zero come back as a number and the item is quarantined
  (`NumeralHashIsQuarantined`, `ZeroOneIsQuarantined`).
* **Flag printing.** Printing flags and parsing them again is the identity exactly when no value starts with
  `--` and no value flag is on without a value, which the spelling `-tag` brings about
  (`PrintedFlagsReadBack`, `SingleDashIsMisread`).
* **Verbatim fence.** The fence reads back exactly when the value does not end in a carriage return and only
  spaces or tabs follow the closing fence on its line. In the bodies of `ask` and `ground` the text
  `, tag_expr=` follows, so a CommonMark reader does not find the value there (`VerbatimReadsBack`,
  `BodyDoesNotReadBack`, `TrailingReturnIsLost`). The name may be the whole sentence that leads up to the block.
* **Mirror rendering.** Stripping undoes any number of stacked blocks exactly when the body is empty, or its
  first line is neither blank nor `---` and does not begin with a carriage return; rendering a rendered
  mirror again is the identity exactly when the stripped body is such or a lone newline
  (`StrippingUndoesStacking`, `RenderIsIdempotent`, `BlankOpeningIsLost`).
* **Catalog rows.** Rows are keyed by path stem. With `force` the last eligible item of a slug decides its mirror,
  without it the first one if there was no mirror. After a batch the catalog holds for every committed path the
  hash its mirror carries, exactly when any two deciding items whose slugs have one stem carry one hash
  (`CatalogIsTrueExactlyWhen`); a batch of two pages called `setup` loses one (`NestedStemsCollide`).
* **Citations.** Validation and threading build their page tables in different orders. They read every path as
  the same page exactly when no later slug clashes with an earlier one (`TablesAgreeExactlyWhen`); slugs `a`
  and `a.md` already clash (`ClashingSlugsMislead`).

## Where the code and its documentation differ

The model follows the code.

* `markdown_spans.py:46-48` and `:113` say a fence closes at a run at least as long as the opening one; the
  marker kept is always three characters, so three close a fence opened by four. Any indentation and any info
  string open a fence. `#text` without a space is a heading, `#!` is not.
* `prompts_impl.py:118-119` says a fenced block is unambiguous; in the assembled body it is not, see the fence
  above.
* `sync_helper.py:41-43` says two racing processes cannot both succeed, and `:45-49` describes an
  indeterminate outcome that this call, which passes no pid file, never returns.
* `registry.py:299-304` says every change of the tag set changes the key; see the tag cache above.
* `daemon.py:88-90` says a record means its daemon accepted a connection; the probe does not ask who answered.
* `mirror.py:40-41` and `frontmatter.py:64-67` say stripping makes rendering idempotent; see the condition
  above.

## Model

| member | source | states |
|---|---|---|
| SyncLock.StepKeeps | src/lies/etl/sync_helper.py:55-119 | Every step except reaping a live holder's lock keeps the lock, heartbeat and sidecar invariant. |
| SyncLock.ReapingLiveUnguards | src/lies/utils/exclusive.py:225-231 | Reaping a live holder's lock leaves that holder without one. |
| SyncLock.LeftoverIsSafe | src/lies/etl/heartbeat.py:127-131 | Whatever files crashed processes left behind, the invariant holds at the start. |
| SyncLockRuns.SafeExactlyWhenReapingDead | src/lies/utils/exclusive.py:224-235 | A run keeps every holder's lock in place if and only if each reap step removes nothing or a crashed process's lock. |
| SyncLockRuns.ClaimsAreExclusive | src/lies/etl/sync_helper.py:39-42 | In such a run at most one live process is between its create and its unlock. |
| SyncLockRuns.LiveHeartbeatHoldsLock | src/lies/etl/sync_helper.py:88-97 | In such a run the owner of a live heartbeat holds the create-lock. |
| SyncLockRuns.ReleaseTouchesOwnFiles | src/lies/etl/sync_helper.py:105-119 | In such a run a release deletes only its own heartbeat, closes its own descriptor, leaves no heartbeat when it unlinks the lock, and the bail branch is never taken. |
| SyncLockRuns.DoubleClaim | src/lies/utils/exclusive.py:224-235 | From any world with an orphaned lock and no fresh heartbeat, two newcomers can both claim with no time passing. |
| SyncLockRuns.SafeExactlyUntil | src/lies/utils/exclusive.py:315-321 | In all runs ending by a given time at most one process has claimed, if and only if no lock can be more than MAX_AGE old by then; the same bound decides whether every lock file stays in place. |
| SyncLockRuns.UnsafeRun | src/lies/utils/exclusive.py:315-321 | Past that age, from every starting world and for every end time, some run ends with two claims. |
| SyncHelper.WikiFiles.AcquireCreateLock | src/lies/utils/exclusive.py:178-235 | Left alone it wins exactly when the lock is absent or orphaned, by protocol steps only. |
| SyncHelper.WikiFiles.WaitUntilFree | src/lies/etl/heartbeat.py:134-139 | Polling ends at the first moment the heartbeat is stale. |
| SyncHelper.WikiFiles.AcquireHeartbeat | src/lies/etl/sync_helper.py:36-97 | The whole acquire takes only protocol steps; on success it leaves its own lock, heartbeat and sidecar, on refusal heartbeat and sidecar as they were. It succeeds exactly when the lock is absent or orphaned and no heartbeat is fresh, or when it may wait and the lock is orphaned by the time the heartbeat has gone stale. |
| SyncHelper.WikiFiles.ReleaseHeartbeat | src/lies/etl/sync_helper.py:105-119 | The whole release takes only protocol steps and leaves none of the three files. |
| Daemon.StepKeeps | src/lies/mcp/daemon.py:340-423 | Every event that loses no child keeps lock, record and outcome invariants. |
| Daemon.LosingStrays | src/lies/mcp/daemon.py:378-421 | A crash or failed kill that loses a child leaves a live daemon that nothing tracks. |
| DaemonRuns.TrackedExactlyWhenNoChildIsLost | src/lies/mcp/daemon.py:378-423 | In every run, live daemons are the recorded one or the child of the up in progress, if and only if no child is lost to a crash, an exception or a failed kill. |
| DaemonRuns.OneLiveDaemon | src/lies/mcp/daemon.py:365-376 | Then at most one daemon is alive, and up starts its child only when none is. |
| DaemonRuns.OutcomesAreTrue | src/lies/mcp/daemon.py:511-556 | Then a stopped, cleared or failed outcome means the process is gone and nothing is recorded, and every exit releases the lock. |
| DaemonRuns.RecordNamesAcceptor | src/lies/mcp/daemon.py:84-92 | If the child itself answers every readiness probe, a record names a process that accepted a connection. |
| DaemonRuns.RecordIsTrueExactlyWhen | src/lies/mcp/daemon.py:84-92 | Throughout a run the record names only processes that accepted a connection, if and only if no up goes on after a stranger answered its probe. |
| DaemonRuns.CrashedUpAllowsTwo | src/lies/mcp/daemon.py:384-421 | A crash between spawn and record makes room for a second live daemon. |
| DaemonRuns.InterruptedUpAllowsTwo | src/lies/mcp/daemon.py:402-423 | So does an exception there, and the lock is free again. |
| DaemonRuns.SquatterGetsChildRecorded | src/lies/mcp/daemon.py:294-302 | A stranger answering on the port gets the child recorded although it never accepted. |
| DaemonRuns.CommandsKeepToTheirOperation | src/lies/mcp/daemon.py:340-556 | In every run a command that took the lock for up is at a stage of up, one that took it for down at a stage of down: down never probes, starts or records, up never signals the recorded process, and each ends with an outcome of its own. |
| DaemonRuns.AcceptorHasListened | src/lies/mcp/daemon.py:285-305 | In every run a process that accepted a connection has begun to listen in that run or was serving before. |
| DaemonRuns.SeenAliveIs | src/lies/mcp/daemon.py:474-493 | A running process is seen alive, a vanished one is not, a zombie is unless there is a procfs. |
| DaemonCommands.CommandHost.SpawnDaemon | src/lies/mcp/daemon.py:340-423 | Only lifecycle events; which outcome it is follows from the record, the port and what the child does; the outcome fixes record and processes; the lock is gone on every exit. |
| DaemonCommands.CommandHost.StopDaemon | src/lies/mcp/daemon.py:496-556 | The same for down: nothing to stop exactly without a record, a cleared record exactly when the process seems stale or vanishes before the signal, otherwise stopped exactly when it exits within one of the two waits; no other process changes. |
| DaemonCommands.CommandHost.SpawnEnds | src/lies/mcp/daemon.py:365-423 | Which of its ends up comes to: a recorded process seen alive, a taken port, a child that comes up or one that does not. |
| DaemonCommands.CommandHost.StopEnds | src/lies/mcp/daemon.py:520-556 | Which of its ends down comes to: no record, a process not seen alive or vanishing, one that exits within a wait, or one that outlives both. |
| DaemonCommands.CommandHost.StaleIsNotAlive | src/lies/mcp/daemon.py:193-198 | A record is stale exactly when its process is not seen alive. |
| DaemonCommands.FirstSignDecides | src/lies/mcp/daemon.py:285-305 | The first sign of the child that is not silence decides whether it comes up. |
| DaemonCommands.LastLookCounts | src/lies/mcp/daemon.py:466-471 | An exit before the look after the deadline is still in time. |
| DaemonCommands.CommandHost.WaitUntilAccepting | src/lies/mcp/daemon.py:285-305 | The readiness loop succeeds exactly when the child listens before it exits and before the deadline, and leaves every other process alone. |
| DaemonCommands.CommandHost.WaitForExit | src/lies/mcp/daemon.py:457-493 | The poll loop reports exit exactly when the process is seen dead; that is, when it was dead before or exits within the grace. |
| DaemonCommands.CommandHost.IsStale | src/lies/mcp/daemon.py:193-198 | Stale means gone, or with procfs a zombie. |
| CollectionsDir.AggregateMtime | src/lies/library/registry.py:341-369 | The loop returns the newest mtime of the directory and its configs, an upper bound that some file carries, and 0 for a vanished directory. |
| CollectionsDir.NoticedIsNewest | src/lies/library/registry.py:341-348 | After an edit that is neither a config deletion nor a late rename, the newest mtime is the time of that edit. |
| CollectionsDir.WalkTags | src/lies/library/registry.py:307-310 | The loop over the records collects exactly the tags of all configs. |
| Registry.CollectionRegistry.LibraryCollectionNames | src/lies/library/registry.py:183-211 | Undisturbed, a cached answer is the answer of a fresh walk, and the slot is current. |
| Registry.CollectionRegistry.LibraryCollectionTags | src/lies/library/registry.py:313-338 | The same for tags. |
| Registry.CollectionRegistry.Change | src/lies/library/registry.py:166-175 | Any edit that becomes the newest leaves both slots truthful without touching them. |
| NamesCache.UndisturbedCall | src/lies/library/registry.py:183-211 | A call that nobody disturbs answers from the slot under the current mtime, and otherwise fills it with the names it found. |
| NamesCache.CurrentEntryIsFreshWalk | src/lies/library/registry.py:163-180 | In every interleaving, a cached entry whose key is the directory's mtime equals a fresh walk. |
| NamesCache.CallsReturnTheTruth | src/lies/library/registry.py:183-211 | Every call returns a set of names that was true at some instant during the call. |
| TagsCache.CurrentEntryIsFreshWalk | src/lies/library/registry.py:295-338 | With the key taken file by file and the tags loaded config by config, a cached entry whose key is the newest mtime equals a fresh walk, if every edit becomes the newest. |
| TagsCache.CallsReturnTheTruth | src/lies/library/registry.py:313-338 | In such a run a call answers with a walk made within it, if no directory was taken away during its scan or its key is as new as the directory was at its start; each tag was carried at some moment of that walk and each tag one config carried throughout it is there; with no edit during the walk they are exactly the tags of that moment. |
| TagsCacheRuns.FairExactlyWhen | src/lies/library/registry.py:295-369 | For any kinds of edits allowed during the scan and during the walk, calls are always fair if and only if no scan edit takes a file away or dates it back and no walk edit goes unnoticed. |
| TagsCacheRuns.TrueExactlyWhen | src/lies/library/registry.py:295-369 | Calls always return the tags of one moment of the call if and only if no scan edit takes a file away or dates it back and the walk edits change no tags. |
| TagsCacheRuns.CallCanReturnOldTags | src/lies/library/registry.py:354-369 | For each of five kinds of edits during the scan, a run from a fresh process in which a call returns a tag nobody carried at any moment of it. |
| TagsCacheRuns.NextCallCanReturnOldTags | src/lies/library/registry.py:295-310 | The same for a deletion or late save during the walk of an earlier call. |
| TagsCacheRuns.WalkCanMixTags | src/lies/library/registry.py:271-283 | For each kind of edit that changes tags, a run in which a walk collects what was never there together. |
| TagsCacheSlot.CanMisleadExactlyWhen | src/lies/library/registry.py:295-338 | Without another edit, some steps of the calls make the slot serve something else than a fresh walk, if and only if it does so already or a stale walk is pending under a key that is or comes free. |
| TagsCacheSlot.ReachableIsTruthful | src/lies/library/registry.py:313-338 | After noticed edits only, the slot meets the hypothesis of the next two and no call can make it mislead. |
| TagsCacheSlot.DeletionMisleadsExactlyWhen | src/lies/library/collections_cli.py:209-215 | Exactly which config deletions make a truthful slot, empty, current or older, serve old tags, at once or once a call has stored. |
| TagsCacheSlot.SaveMisleadsExactlyWhen | src/lies/library/config_io.py:66-72 | The same for saves, dated before their rename; one-step saves never do at once. |
| TagsCacheSlot.DeletedTagIsServed | src/lies/library/collections_cli.py:209-215 | A deletion and a save, after a call by a fresh process, after which a current slot serves a dead tag. |
| TagsCacheSlot.OldSlotIsServed | src/lies/library/config_io.py:66-72 | A deletion and a save, reached from a fresh process, that bring an older slot back. |
| TagsCacheSlot.PendingWalkIsServed | src/lies/library/registry.py:307-310 | A deletion and a late save, between the walk and the store of a call by a fresh process, that leave an empty slot and mislead one step later. |
| MarkdownSpans.ParseSpans | src/lies/markdown_spans.py:39-164 | The one-pass parser returns exactly the position-wise spans, for every text. |
| MarkdownSpans.ReadHeading | src/lies/markdown_spans.py:136-144 | The hash-counting loop reads exactly the declared heading of a line. |
| MarkdownSpans.SpanParser.FlushBody | src/lies/markdown_spans.py:64-86 | Flushing emits the open prose block unless it is all whitespace, and closes it. |
| MarkdownSpans.SpanParser.FlushFence | src/lies/markdown_spans.py:88-105 | Flushing emits the fenced block from its opening line, and closes it. |
| MarkdownSpans.SpanParser.PushHeading | src/lies/markdown_spans.py:146-149 | The pop loop leaves exactly the shallower headings below the new one. |
| MarkdownSpans.StackStep | src/lies/markdown_spans.py:146-149 | Popping and pushing turns the ancestor stack before a line into the one after it. |
| MarkdownSpans.StackIsNested | src/lies/markdown_spans.py:146-149 | Stack levels strictly increase within 1 to 6. |
| MarkdownSpans.NestedIsShort | src/lies/markdown_spans.py:146-149 | So the stack has at most six entries. |
| SpanLayout.SpanIsVerbatim | src/lies/markdown_spans.py:76-84 | Every body is a verbatim contiguous block of lines located by its start line. |
| SpanLayout.SpansAreOrdered | src/lies/markdown_spans.py:77-100 | Blocks are disjoint and in order, and start lines strictly increase. |
| SpanLayout.SpanPathIsAncestorChain | src/lies/markdown_spans.py:136-151 | A heading path is the ancestor chain at the start line, at most six long, levels increasing. |
| SpanLayout.UncoveredLines | src/lies/markdown_spans.py:69-75 | A line is in no block if and only if it is a heading, a fence delimiter or in a whitespace-only run. |
| MarkdownTexts.HashLineIsHeading | src/lies/markdown_spans.py:135-147 | Padding, n hashes and something else are a heading if and only if the padding is short, n is at most 6, text follows and it is no shebang; its level is n and its title that text. |
| MarkdownTexts.OtherLineIsNoHeading | src/lies/markdown_spans.py:135-136 | A line whose first character past its padding is no hash is no heading. |
| MarkdownTexts.MarksOpenFence | src/lies/markdown_spans.py:123-124 | A run of marks opens a fence if and only if there are three of them or more and they are backticks or tildes, whatever follows. |
| MarkdownTexts.MarksCloseFence | src/lies/markdown_spans.py:111-119 | A run of the opening marks closes it if and only if there are three of them or more and only whitespace follows. |
| MarkdownTexts.OtherLineIsNoFence | src/lies/markdown_spans.py:111-124 | A line that begins with something else than the mark closes no fence of it, and opens none unless it begins with the other mark. |
| MarkdownTexts.BlankLineIsNoFence | src/lies/markdown_spans.py:111-136 | A blank line opens nothing, closes nothing and is no heading. |
| MarkdownTexts.SplitLastLine | src/lies/markdown_spans.py:104 | The last line needs no line break, and an empty text has no line. |
| MarkdownTexts.TitlesNest | src/lies/markdown_spans.py:149-153 | A title, a title and a prose line give one span whose path has both titles if and only if the second is deeper. |
| MarkdownTexts.FenceIsOneSpan | src/lies/markdown_spans.py:108-131 | A page that is one fence, closed or not, gives one code span with the lines in between. |
| MarkdownTexts.SplitAtBreak | src/lies/markdown_spans.py:104 | A text splits at each line break, a carriage return with its newline counting as one. |
| TailGrammar.SplitTokens | src/lies/mcp/prompts_impl.py:290-388 | The token loop terminates and computes exactly what the grammar's reading collects to. |
| TailGrammar.SplitTail | src/lies/mcp/prompts_impl.py:236-388 | The same for a tail split on whitespace. |
| TailGrammar.ParseFlattens | src/lies/mcp/prompts_impl.py:300-378 | Every token has exactly one role: the parts flatten back to the tokens. |
| TailGrammar.ParseIsWellFormed | src/lies/mcp/prompts_impl.py:314-346 | Each flag took the value its vocabulary and its followers allow. |
| TailGrammar.ParseIsUnique | src/lies/mcp/prompts_impl.py:300-378 | No other well-formed reading of the tokens exists. |
| TailInvariants.ParseIsCoherent | src/lies/mcp/prompts_impl.py:139-180 | values holds the last of repeats over the same keys; missing, ignored, repurposed and unknown entries belong to flags that are on. |
| TailInvariants.ParseGathersInOrder | src/lies/mcp/prompts_impl.py:304-378 | Positionals and each flag's values keep token order. |
| TailInvariants.MarkerMakesPositionals | src/lies/mcp/prompts_impl.py:302-313 | Everything after the first bare -- is positional and changes nothing else. |
| TailRoundTrip.RenderFlags | src/lies/mcp/prompts_impl.py:592-610 | The nested loop prints every occurrence of each requested flag, in order. |
| TailRoundTrip.PrintedFlagsReadBack | src/lies/mcp/prompts_impl.py:592-610 | Printing and re-parsing gives the same flags if and only if no value starts with -- and no value flag is bare. |
| TailRoundTrip.SingleDashIsMisread | src/lies/mcp/prompts_impl.py:363-375 | The spelling -tag of a value flag prints as --tag and reads back as a missing value. |
| TailSpellings.FlagSplitsTail | src/lies/mcp/prompts_impl.py:287-354 | Without a marker, what precedes a flag is parsed as if the tail ended there. |
| TailSpellings.AttachedValueIsTaken | src/lies/mcp/prompts_impl.py:316-321 | On a flag that takes a value, the text after the first equals sign is one more value, and nothing else changes. |
| TailSpellings.AttachedValueIsIgnored | src/lies/mcp/prompts_impl.py:322-324 | On any other flag it is reported as ignored and the flag is on. |
| TailSpellings.SpacedValueIsTaken | src/lies/mcp/prompts_impl.py:325-345 | A value flag takes the next word, a multi-word flag all words up to the next flag, joined with single spaces. |
| TailSpellings.LastFlagIsOn | src/lies/mcp/prompts_impl.py:325-354 | A flag that ends the tail is on, and reported if it should have had a value. |
| TailSpellings.WordAfterSwitch | src/lies/mcp/prompts_impl.py:346-362 | A word after a switch is a positional, and the pair is reported if and only if the switch is not declared. |
| TailSpellings.WordIsPositional | src/lies/mcp/prompts_impl.py:355-371 | A word that no dash begins, or a lone dash, is a positional and nothing else. |
| TailSpellings.ShortFlagIsOn | src/lies/mcp/prompts_impl.py:355-366 | A single dash makes a switch of the rest of the token. |
| TailSpellings.SpellingsAgreeExactlyWhen | src/lies/mcp/prompts_impl.py:264-270 | The attached and the separate spelling of a value parse alike if and only if no marker precedes them. |
| QuestionFilters.ParseQuestionFilters | src/lies/mcp/prompts_impl.py:53-106 | The scan returns the tags of the leading atoms in order and the rest of the question, verbatim. |
| QuestionFilters.AtomIsSpelled | src/lies/mcp/prompts_impl.py:31-50 | A token is an atom if and only if it is a sigil, a letter and at least one more character, all of them tag characters. |
| QuestionFilters.OptionsAreNoAtoms | src/lies/mcp/prompts_impl.py:63-68 | Single-letter options, numbers and dashes are words of the question. |
| QuestionFilters.FilteredMeans | src/lies/mcp/prompts_impl.py:89-104 | The leading atoms with a plus are included, joined as alternatives, those with a minus excluded, both in order, and there is a filter of a kind if and only if there is such an atom. |
| QuestionFilters.AtomsInterleave | src/lies/mcp/prompts_impl.py:100-104 | Every run of atoms is such an interleaving of included and excluded tags. |
| LeadingFlags.SplitLeadingFlags | src/lies/mcp/prompts_impl.py:391-445 | The scan parses exactly the leading flags and leaves atoms and the rest for the question. |
| LeadingFlags.RolesCoverTail | src/lies/mcp/prompts_impl.py:420-445 | The roles of a tail are exactly its tokens, in order. |
| LeadingFlags.RolesAreOrdered | src/lies/mcp/prompts_impl.py:423-442 | Flags, their values and atoms, at most one marker, atoms, and from the first prose word nothing but prose. |
| LeadingFlags.LeadStops | src/lies/mcp/prompts_impl.py:424-438 | Without a marker the leading run stops only at a prose word or the end. |
| LeadingFlags.LeadingParseIsClean | src/lies/mcp/prompts_impl.py:439-445 | The leading flags leave no positional and no repurposed word. |
| LeadingFlags.GroundPrompt | src/lies/mcp/prompts_impl.py:680-740 | ground refuses exactly on a missing value, and otherwise searches the prose words under all atoms, in order, with top_k and the notes its flags deserve. |
| LeadingFlags.TopKIsLastGiven | src/lies/mcp/prompts_impl.py:685-701 | The last given value decides: 3 if there is none or it is no integer, otherwise the nearest number from 1 to 10, any difference noted. |
| LeadingFlags.GroundFiltersMean | src/lies/mcp/prompts_impl.py:89-104 | The filters of a search mean the atoms in front of its prose. |
| GroundTails.GroundReadsTail | src/lies/mcp/prompts_impl.py:685-701 | A tail of one `top_k` at most, atoms and words searches for the words under the filters the atoms mean, with that many entries, and notes nothing else. |
| GroundTails.GroundRefusesBareFlag | src/lies/mcp/prompts_impl.py:682-701 | A `top_k` that ends the tail is refused by name. |
| VerbatimFence.FenceIsNarrowest | src/lies/mcp/prompts_impl.py:129-133 | The fence is the narrowest of at least three backticks that no run in the value is as wide as. |
| VerbatimFence.VerbatimIsLaidOut | src/lies/mcp/prompts_impl.py:133 | Label, instruction, fence, the value as it is, and the fence again, each on lines of its own. |
| VerbatimFence.VerbatimReadsBack | src/lies/mcp/prompts_impl.py:130-132 | A section 4.5 reader of CommonMark returns the value if and only if it does not end in a return and the closing line holds. |
| VerbatimFence.BodyDoesNotReadBack | src/lies/mcp/prompts_impl.py:647-653 | In the assembled body the closing fence is not one, for any value. |
| VerbatimFence.TrailingReturnIsLost | src/lies/mcp/prompts_impl.py:130-132 | A value ending in a return does not read back. |
| VerbatimFence.LinesStayOpen | src/lies/mcp/prompts_impl.py:130-131 | No stretch of the value closes a fence wider than its longest backtick run. |
| Text.SpacesByCode | src/lies/mcp/prompts_impl.py:34 | Whitespace and line breaks, by code point. |
| Text.StripIsCore | src/lies/mcp/prompts_impl.py:103 | Stripping cuts whitespace off at both ends and nothing else. |
| Words.SplitOfJoin | src/lies/mcp/prompts_impl.py:444-445 | Joining words with single spaces and splitting again gives the words back. |
| Frontmatter.StripFrontmatter | src/lies/library/frontmatter.py:61-101 | The nested loops remove exactly the leading closed blocks. |
| Frontmatter.StripIsIdempotent | src/lies/library/frontmatter.py:61-101 | Stripping twice is stripping once, on every text. |
| FrontmatterPrinter.UnquoteOfQuoted | src/lies/library/frontmatter.py:14-25 | A section 7.3.1 reader of YAML 1.2 returns the value with CR and LF replaced by spaces if it has no other character below U+0020 than tabs, and nothing otherwise. |
| FrontmatterPrinter.BellIsNotCarried | src/lies/library/frontmatter.py:24-25 | A bell in a value makes the printed scalar unreadable. |
| FrontmatterPrinter.QuotingIsPerCharacter | src/lies/library/frontmatter.py:24-25 | The four replacements in sequence escape each character on its own. |
| FrontmatterPrinter.BlockIsWellFormed | src/lies/library/frontmatter.py:113-122 | The eight lines before joining: two rules around six key lines, none of them a rule. |
| FrontmatterPrinter.PrintedBlockSplits | src/lies/library/frontmatter.py:112-123 | The printed text splits into exactly those lines, with no early closer. |
| FrontmatterPrinter.PrintedFieldsReadBack | src/lies/library/frontmatter.py:104-123 | In the printed text, split into lines, each quoted field reads back as its input on one line exactly when that can be carried, and the hash as it is. |
| IngestDate.DayIsInterval | src/lies/library/frontmatter.py:57-58 | The prefixes of a day form one interval. |
| IngestDate.PrefixesSpreadEvenly | src/lies/library/frontmatter.py:54-57 | Each of the 27759 days receives exactly 154723 or 154724 prefixes. |
| IngestDate.DatesStayInRange | src/lies/library/frontmatter.py:28-32 | Every prefix gives a date from 2024-01-01 to 2099-12-31. |
| IngestDate.FirstAndLast | src/lies/library/frontmatter.py:8-10 | Day 0 is 2024-01-01 and day 27758 is 2099-12-31. |
| IngestDate.ExtremeHashes | src/lies/library/frontmatter.py:31-32 | Hashes beginning with eight zeros and eight fs get the base and the cap date. |
| IngestCalendar.DayIsDate | src/lies/library/frontmatter.py:58 | Day n is the Gregorian date whose ordinal is n more than that of 2024-01-01. |
| IngestCalendar.HexDigitIs | src/lies/library/frontmatter.py:50-51 | The hexadecimal digits, upper and lower case alike, and no other character. |
| IngestCalendar.HashChoosesDay | src/lies/library/frontmatter.py:50-58 | Eight digits in front of anything choose the day by their value in base 16. |
| IngestCalendar.OtherHashes | src/lies/library/frontmatter.py:48-53 | A hash that is too short or not hexadecimal in its first eight places gets the base date. |
| Mirror.StrippingUndoesStacking | src/lies/library/frontmatter.py:78-101 | Stripping n stacked blocks gives back the body if and only if the body is settled. |
| Mirror.RenderIsIdempotent | src/lies/library/mirror.py:40-44 | Re-rendering keeps the body if and only if the stripped body is settled or a lone newline. |
| Mirror.MirroredBodyIsStable | src/lies/library/mirror.py:40-42 | A body that already carried a block always re-renders to itself. |
| Mirror.BlankOpeningIsLost | src/lies/library/mirror.py:42-44 | A body opening with a blank line does not. |
| Ingest.BatchIngest.RecordSkip | src/lies/library/ingest.py:100-104 | One skip is counted under the reason's leading category. |
| Ingest.BatchIngest.ProcessItem | src/lies/library/ingest.py:167-324 | One item changes the whole state of the run exactly as its outcome says, unreadable and unparseable mirrors included. |
| Ingest.BatchIngest.RunBatch | src/lies/library/ingest.py:505-539 | A batch whose source lies outside the collection is the fold of its items up to one whose slug cannot be derived, with one record for a failed fetch, and one commit unless it raises; a source inside it is refused untouched. |
| Ingest.BatchIngest.Finalize | src/lies/library/ingest.py:349-380 | Nothing is committed on a dry run or without mirrors; otherwise one row per path. |
| IngestSteps.FilteredItem | src/lies/library/ingest.py:192-225 | A refused file name is a skip, an invalid slug or refused content a quarantine; each is counted and recorded under its reason, and nothing else changes. |
| IngestSteps.FreeItem | src/lies/library/ingest.py:305-324 | An item that passes and may be written is mirrored and counted as created or updated, or left alone on a dry run. |
| IngestSteps.ComparedItem | src/lies/library/ingest.py:237-303 | An item whose mirror exists is skipped or quarantined under the reason that fits what the mirror says. |
| IngestSteps.FailedFetch | src/lies/library/ingest.py:131-164 | A fetch that fails leaves one error and one record of where and why. |
| IngestSteps.RunEndsAt | src/lies/library/ingest.py:204-215 | A run ends by an exception at the first item past the file name filter whose slug cannot be derived. |
| IngestSteps.SelfIngestExactlyWhen | src/lies/library/ingest.py:389-417 | A source is refused if and only if it is a local path that continues the collection's own. |
| IngestSteps.HashIsRead | src/lies/library/ingest.py:240-245 | The hash is what follows the first such key of a closed leading block. |
| IngestSteps.HashOfPage | src/lies/library/ingest.py:240-245 | Only a page that opens with a rule has a hash. |
| IngestSteps.NoHashIsRead | src/lies/library/ingest.py:240-245 | There is none if the block ends before such a key or never ends. |
| IngestSteps.CategoryIs | src/lies/library/ingest.py:100-104 | Skips are counted under the text before the first colon of their reason. |
| IngestSteps.ShortIs | src/lies/library/ingest.py:296-298 | A hash is shown by its first eight characters, a shorter one as it is. |
| IngestSteps.RowIs | src/lies/library/ingest.py:354-374 | The key of a row is the collection and the last segment of the slug. |
| IngestRuns.NeverOverwrites | src/lies/library/ingest.py:237-303 | Without force every mirror present at any point of a batch is byte-identical at every later point. |
| IngestRuns.OnlyEligibleAreWritten | src/lies/library/ingest.py:192-318 | An item is written if and only if no filter stops it, the run is not dry, and it is new or forced. |
| IngestRuns.EligibleIsMirrored | src/lies/library/ingest.py:221-318 | Every item that passes the filters has its mirror in place at the end. |
| IngestRuns.RerunWritesNothing | src/lies/library/ingest.py:275-303 | Re-running a batch without force writes and commits nothing, clashing slugs included. |
| MirrorContents.MirrorTextReads | src/lies/library/mirror.py:33-45 | The text of a mirror, line by line: rules, title, url, path, hash, scraper and date of its own item, then the stripped body ended with a newline. |
| MirrorContents.WrittenMirrorsRead | src/lies/library/ingest.py:227-318 | So it stands on disk after the batch for every item that decides a mirror. |
| IngestRuns.ForcedRunWritesLast | src/lies/library/ingest.py:237-318 | With force the last eligible item of each slug decides the file. |
| IngestRuns.ForcedRerunLeavesSameBytes | src/lies/library/ingest.py:308-318 | With force a re-run leaves the same bytes. |
| IngestRuns.MirrorKeepsItsHash | src/lies/library/ingest.py:240-245 | The front matter of a written mirror, between its opening and closing rule, spells the hash of its item. |
| IngestRuns.UnchangedIsUpToDate | src/lies/library/ingest.py:237-295 | An item whose mirror the batch wrote is skipped as up to date on the next run if and only if that mirror can be read and parsed and its non-empty hash is text that YAML takes for itself, and quarantined otherwise. |
| IngestRuns.ControlCharacterIsQuarantined | src/lies/library/ingest.py:246-261 | With a parser that refuses such scalars, a mirror with a character below U+0020 in a quoted field is quarantined on the next run. |
| IngestRuns.BellIsQuarantined | src/lies/library/ingest.py:246-261 | So is a file with a bell in its name, under a parser that reads the three quoted fields. |
| IngestRuns.NumeralHashIsQuarantined | src/lies/library/ingest.py:240-303 | With a parser that reads numerals as numbers, a mirror whose unquoted hash is octal digits after a leading zero is quarantined on the next run. |
| IngestRuns.ZeroOneIsQuarantined | src/lies/library/ingest.py:240-303 | So is an item with hash 01, under a parser that reads it as 1. |
| IngestRuns.BooksBalance | src/lies/library/ingest.py:159-324 | Counters, skip reasons, quarantine records and parallel lists add up, for any batch. |
| IngestRuns.CreatedCountsNewMirrors | src/lies/library/ingest.py:319-322 | created is exactly the growth of the mirror set, and without force nothing is updated. |
| IngestRuns.CommitTagsEachMirror | src/lies/library/ingest.py:354-374 | Without force each committed row carries the hash of its own mirror. |
| IngestRuns.LastRowTagsItsMirror | src/lies/library/ingest.py:354-374 | With or without force the last row of a path carries the hash of the file there. |
| IngestRuns.LastRowWins | src/lies/library/ingest.py:354-374 | A key ends with the hash of its last row. |
| IngestRuns.CatalogIsTrueExactlyWhen | src/lies/library/ingest.py:354-374 | After any batch, forced or not, the catalog holds the hash of every committed mirror if and only if the items that decide mirrors with one stem carry one hash. |
| IngestRuns.StemsAgreeExactlyWhen | src/lies/library/ingest.py:237-324 | That condition on the items and the old mirrors is the one on the mirrors the batch leaves. |
| IngestRuns.TwoPagesLoseAHash | src/lies/library/ingest.py:354-374 | Any two new pages with one stem and different hashes leave the first under the hash of the second. |
| IngestRuns.NestedStemsCollide | src/lies/library/ingest.py:354-374 | A concrete two-item batch after which the catalog has lost the hash of the first mirror. |
| RepairPlan.NoConflictingOps | src/lies/agents/repair_models.py:112-124 | The last-seen loop accepts if and only if any two operations on one path both append links, and otherwise reports the first clash. |
| RepairPlan.IndexIsUpdatedOnce | src/lies/agents/repair_models.py:84-88 | An accepted plan with an index update writes the index in no other operation. |
| RepairPlan.ValidatePlan | src/lies/agents/repair_validation.py:65-155 | It rejects on the first broken rule of the first faulty operation, and otherwise keeps the order-preserving remainder. |
| RepairPlan.FaultExactlyWhen | src/lies/agents/repair_validation.py:65-135 | Which operations break which rule first, path by path, and which break none. |
| RepairPlan.RemainderIsAcceptable | src/lies/agents/repair_validation.py:136-155 | Every remaining operation cites a safe finding in range, shares a page with it, finds its pages present or absent as needed; the remainder would be accepted again and lacks at most one operation. |
| Citations.BodyTable | src/lies/orchestrator.py:964-973 | The two-pass table maps each path to the body of the excerpt the index function names. |
| Citations.SpanTable | src/lies/orchestrator.py:1018-1029 | The one-pass table maps each path to the spans of the last excerpt filed under it. |
| Citations.PageBodyIsSpaced | src/lies/orchestrator.py:964 | The text of a page is its spans' bodies, separated by blank lines. |
| Citations.ContainsExactlyWhen | src/lies/orchestrator.py:976-983 | One text lies in another if and only if it can be cut out of it. |
| Citations.TablesAgreeExactlyWhen | src/lies/orchestrator.py:964-1029 | Both tables read every path as the same excerpt if and only if no later slug clashes. |
| Citations.PlainSlugsAgree | src/lies/orchestrator.py:964-1029 | Slugs outside wiki/, none of them another with .md added, never clash. |
| CitationThreading.ValidateClaims | src/lies/orchestrator.py:939-985 | The loop keeps exactly the claims that pass every check, in order. |
| CitationThreading.SurvivesExactlyWhen | src/lies/orchestrator.py:975-984 | A claim survives if and only if it is cut out of the answer, cites a citation in range, and its quote is cut out of the non-empty page that citation resolves to. |
| CitationThreading.SurvivorsInOrder | src/lies/orchestrator.py:974-985 | Validation takes the claims one by one, in order. |
| CitationThreading.ThreadHeadings | src/lies/orchestrator.py:1030-1059 | Each citation is threaded by the first claim on it: it takes the heading of the first span filed under its path that contains that claim's quote, and stays as it is if there is no such claim or span. |
| CitationThreading.ThreadingKeepsPath | src/lies/orchestrator.py:1059 | Threading changes nothing but the heading path. |
| CitationThreading.CandidateOfSpelling | src/lies/orchestrator.py:1042-1050 | The fallback finds the slug behind each of its four spellings, if the slug itself does not look like one. |
| CitationThreading.FiledPageIsFound | src/lies/orchestrator.py:1038 | A path under which spans are filed finds those of the last excerpt with that spelling. |
| CitationThreading.FallbackFindsPage | src/lies/orchestrator.py:1039-1050 | A path under which nothing is filed is looked up once more by its fallback spelling. |
| CitationThreading.FileEvidence | src/lies/orchestrator.py:1113-1119 | Validate, thread and render in a row never index out of range, on any input. |
| CitationThreading.HeadingComesFromQuotedSpan | src/lies/orchestrator.py:1052-1059 | A heading changes only to that of the first span of some excerpt that contains the quote of the first claim on the citation. |
| CitationThreading.HeadingFollowsCheckedPage | src/lies/orchestrator.py:1031-1059 | Where the tables agree, a citation takes the heading of the first span that contains the quote, on the page its first surviving claim was checked against, and none if no span does. |
| CitationThreading.ClashingSlugsMislead | src/lies/orchestrator.py:1025-1029 | With slugs a and a.md the heading comes from the wrong page. |

## Assumptions

* Processes: no pid is reused and the clock does not go backwards. Reading a file, listing a directory, and an
  existence test followed by a read are one step each; truncating and writing the heartbeat are two. A process
  whose liveness cannot be determined counts as alive, as in the code. After a lost create the heartbeat is read
  but both branches do the same, so that read is not a step.
* Daemon: the create-lock is taken by contract (one step, free or held by a crashed command). The sync lock
  results say how far that contract holds for the code behind it; the daemon's window is 60 seconds. The
  temp-file rename of the pidfile is one step. SIGTERM and SIGKILL have no effect of their own except on a
  failed child: a signalled process may exit at any later moment, or not.
* Registry: each edit happens at a later time than all before it. Listing the directory, and testing for a config
  and reading it, are one step each.
* Prompt tails: `IsSpace` is Python's whitespace table. Flags print at the level of the argument vector.
* Ingest: slug derivation, filename and content filters, read and parse errors and the title default are given
  functions, and so is what YAML and `str` make of an unquoted scalar. The hash is the text behind the first
  `source_hash:` key of the leading block; a closing rule is the one `strip_frontmatter` knows. `Printable` asks
  that hash and scraper name contain no newline. Source and collection directory come with their resolved
  segments. Quoted scalars are read by the rules of YAML 1.2; YAML 1.1 also refuses U+007F and most of U+0080 to
  U+009F, and takes U+0085, U+2028 and U+2029 for line breaks.

## Left out

- SyncLock.StepOf: does not model the pid-file variant of the create-lock, because the sync lock never passes a pid file.
- SyncLock.StepOf: closing descriptor 0 is skipped by the code and not distinguished here.
- Daemon.StepOf: pid reuse and processes that are not daemons are not modelled, so the command-line check only matters for zombies.
- DaemonCommands.CommandHost.SpawnDaemon: time is the number of polls; what the child does before each is an input.
- Daemon.StepOf: an exception takes effect between two operations; the write of the pidfile either happens or not.
- Daemon.StepOf: the age test by which the create-lock code takes a lock over after 60 seconds is not composed with the lifecycle.
- DaemonCommands.CommandHost.StopDaemon: which signal did it and whether the daemon was serving are not in the outcome.
- `daemon_status`: reads the record and asks `is_stale`, an easy member.
- SyncHelper.WikiFiles.AcquireHeartbeat: runs undisturbed; a holder that releases during the wait is covered by the runs of SyncLockRuns only.
- Daemon.StepOf: log files, URLs, the loopback check and uptime are single-branch claims.
- IngestDate.IngestDay: does not model what `int(x, 16)` accepts beyond hex digits (signs, spaces, underscores, `0x`); such prefixes count as unparseable.
- Ingest.BatchIngest.Finalize: the commit is a value; git, catalog storage and qmd are not modelled.
- LeadingFlags.GroundPrompt: Python's `int` is a given function from text to an optional integer, and the notes are kept as data, not as sentences.
- VerbatimFence.VerbatimReadsBack: the reader knows paragraphs and backtick fences only, so the label must start like a paragraph, with a letter.
- QuestionFilters.ParseQuestionFilters: the scan stops at the first prose word where the code iterates on without effect.
- TailRoundTrip.RenderFlags: shell quoting is not modelled; the printed argument vector is.
- RepairPlan.ValidatePlan: path validation is a given set of refused paths, and the index links a given set.
- CitationThreading.FileEvidence: the text of an evidence line is left as its three fields.
- `merge_lint_reports`: one loop over a seen set, an easy member.
- Wiki links, slug normalisation, catalog reconciliation, tag expressions and cost budgets: easy or given elsewhere.
- Agents, prompt wording, command-line and server registration, scrapers and converters: nothing decidable to prove.
