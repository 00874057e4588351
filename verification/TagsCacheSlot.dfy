/** When the slot of the tag cache comes to mislead: right after an edit, or once a call has stored an older walk. */
module TagsCacheSlot {
  import opened Text
  import opened CollectionsDir
  import opened TagsCache
  import opened TagsCacheRuns

  // ---------------------------------------------------------------------------------------------
  // What the calls under way will store
  // ---------------------------------------------------------------------------------------------

  /** A slot that would be served now, although a walk would collect something else. */
  ghost predicate Misleads(w: World) {
    w.slot.Some? && IsNewest(w.lib, w.slot.value.key) && w.slot.value.walk.tags != TagsOf(w.lib)
  }

  /** A run of the calls alone. */
  ghost predicate NoEdits(run: seq<Event>) {
    forall i :: 0 <= i < |run| ==> !run[i].Change?
  }

  /** Without another edit, the calls can make the slot mislead. */
  ghost predicate CanMislead(w: World) {
    exists run :: NoEdits(run) && Possible(w, run) && Misleads(After(w, run))
  }

  /** `m` is the newest of `newest` and the mtimes of the configs in `left`. */
  ghost predicate Scans(lib: Library, newest: nat, left: set<string>, m: nat) {
    && newest <= m && (forall name :: name in left && name in lib.configs ==> lib.configs[name].mtime <= m)
    && (newest == m || exists name :: name in left && name in lib.configs && lib.configs[name].mtime == m)
  }

  /** Left alone, the call will look the slot up under `key`, or has done so and will store under it. */
  ghost predicate Heads(lib: Library, call: Call, key: nat) {
    match call
    case Listing(_, newest) => Scans(lib, newest, lib.dirs, key)
    case Scanning(_, newest, left) => Scans(lib, newest, left, key)
    case Keyed(_, _, k) => k == key
    case Walking(_, _, k) => k == key
    case Loading(_, _, k, _, _) => k == key
    case Storing(_, _, k, _) => k == key
    case _ => false
  }

  /** What the configs in `left` still have to give. */
  function TagsLeft(lib: Library, left: set<string>): set<string> {
    set name, tag | name in left && name in lib.configs && tag in lib.configs[name].tags :: tag
  }

  /** Left alone, the call will store something else than a walk collects now, under `key`. */
  ghost predicate IsStale(lib: Library, call: Call, key: nat) {
    match call
    case Loading(_, _, k, walk, left) => k == key && walk.tags + TagsLeft(lib, left) != TagsOf(lib)
    case Storing(_, _, k, walk) => k == key && walk.tags != TagsOf(lib)
    case _ => false
  }

  /** The slot is not under `key`, or some call will take it away from there. */
  ghost predicate ComesFree(w: World, key: nat) {
    w.slot.None? || w.slot.value.key != key || exists d, other: nat :: other != key && Heads(w.lib, w.At(d), other)
  }

  /**
   * Some call will store a stale walk under the newest mtime, and the slot is not under that key or some
   * other call will take it away from there.
   */
  ghost predicate Pending(w: World) {
    exists c, key: nat :: IsNewest(w.lib, key) && IsStale(w.lib, w.At(c), key) && ComesFree(w, key)
  }

  // ---------------------------------------------------------------------------------------------
  // Nothing else can make it mislead
  // ---------------------------------------------------------------------------------------------

  lemma ScanOfAll(lib: Library, k: nat, key: nat)
    requires IsNewest(lib, k) && lib.configs.Keys <= lib.dirs && Scans(lib, lib.root.value, lib.dirs, key)
    ensures key == k
  {
  }

  lemma VisitHeads(lib: Library, newest: nat, left: set<string>, name: string, key: nat)
    requires name in left
    ensures Scans(lib, if name in lib.configs then Max(newest, lib.configs[name].mtime) else newest, left - {name}, key)
            <==> Scans(lib, newest, left, key)
  {
  }

  lemma LoadStale(lib: Library, tags: set<string>, left: set<string>, name: string)
    requires name in left
    ensures tags + TagsIn(lib, name) + TagsLeft(lib, left - {name}) == tags + TagsLeft(lib, left)
  {
  }

  /** What a call heads for and what it will store do not change as it goes on. */
  lemma CallKeepsCourse(w: World, e: Event, k: nat, key: nat)
    requires !e.Change? && Enabled(w, e) && w.lib.configs.Keys <= w.lib.dirs && IsNewest(w.lib, k)
    ensures var call, call' := w.At(e.who), Apply(w, e).At(e.who);
            && (Heads(w.lib, call', key) ==> Heads(w.lib, call, key) || key == k)
            && (IsStale(w.lib, call', key) ==> IsStale(w.lib, call, key))
  {
    hide TagsOf, TagsIn, TagsLeft, IsNewest, Scans;
    var call := w.At(e.who);
    match e
    case Visit(c, name) => VisitHeads(w.lib, call.newest, call.left, name, key);
    case Load(c, name) => LoadStale(w.lib, call.walk.tags, call.left, name);
    case Step(c) =>
      match call
      case Idle => if w.lib.root.Some? && Scans(w.lib, w.lib.root.value, w.lib.dirs, key) { ScanOfAll(w.lib, k, key); }
      case Scanning(_, newest, _) => assert Scans(w.lib, newest, {}, newest) by { ScansNothing(w.lib, newest); }
      case Walking(_, _, _) => AllIsLeft(w.lib);
      case Loading(_, _, _, walk, _) => assert TagsLeft(w.lib, {}) == {} by { NothingIsLeft(w.lib); }
      case _ =>
  }

  lemma ScansNothing(lib: Library, newest: nat)
    ensures Scans(lib, newest, {}, newest)
  {
  }

  lemma AllIsLeft(lib: Library)
    requires lib.configs.Keys <= lib.dirs
    ensures {} + TagsLeft(lib, lib.dirs) == TagsOf(lib)
  {
  }

  lemma NothingIsLeft(lib: Library)
    ensures TagsLeft(lib, {}) == {}
  {
  }

  /** The slot changes only when a call stores under another key. */
  lemma SlotStays(w: World, e: Event)
    requires !e.Change? && Enabled(w, e)
    ensures var w', call := Apply(w, e), w.At(e.who);
            && w'.lib == w.lib && (forall d :: d != e.who ==> w'.At(d) == w.At(d))
            && (w'.slot == w.slot
                || (call.Storing? && w'.slot == Some(Slot(call.key, call.walk)) && !Heads(w.lib, w'.At(e.who), call.key)
                    && (w.slot.None? || w.slot.value.key != call.key)))
  {
    hide TagsOf, TagsIn, TagsLeft, IsNewest, Scans;
  }

  /** Going backwards: what is wrong after a step of a call was wrong or bound to go wrong before it. */
  lemma StepBringsNothing(w: World, e: Event)
    requires !e.Change? && Enabled(w, e) && w.lib.configs.Keys <= w.lib.dirs
    requires Misleads(Apply(w, e)) || Pending(Apply(w, e))
    ensures Misleads(w) || Pending(w)
  {
    hide TagsOf, TagsIn, TagsLeft, IsNewest, Scans, Heads, IsStale, Apply, Enabled;
    var w' := Apply(w, e);
    SlotStays(w, e);
    if Misleads(w') {
      if w'.slot != w.slot { StoredIsStale(w, e, w'.slot.value.key); }
    } else {
      var c, key: nat :| IsNewest(w'.lib, key) && IsStale(w'.lib, w'.At(c), key) && ComesFree(w', key);
      PendingBefore(w, e, c, key);
    }
  }

  lemma StoredIsStale(w: World, e: Event, key: nat)
    requires !e.Change? && w.At(e.who).Storing? && w.At(e.who).key == key && (w.slot.None? || w.slot.value.key != key)
    requires IsNewest(w.lib, key) && w.At(e.who).walk.tags != TagsOf(w.lib)
    ensures Pending(w)
  {
    hide TagsOf, IsNewest, Heads;
    assert IsStale(w.lib, w.At(e.who), key);
  }

  lemma PendingBefore(w: World, e: Event, c: CallId, key: nat)
    requires !e.Change? && Enabled(w, e) && w.lib.configs.Keys <= w.lib.dirs
    requires var w' := Apply(w, e);
             && IsNewest(w'.lib, key) && IsStale(w'.lib, w'.At(c), key) && ComesFree(w', key)
    ensures Pending(w)
  {
    hide TagsOf, TagsIn, TagsLeft, IsNewest, Scans, Heads, IsStale, Apply, Enabled;
    var w' := Apply(w, e);
    SlotStays(w, e);
    CallKeepsCourse(w, e, key, key);
    assert IsStale(w.lib, w.At(c), key);
    if w.slot.Some? && w.slot.value.key == key {
      if w'.slot.None? || w'.slot.value.key != key {
        StoringHeads(w.lib, w.At(e.who));
        assert Heads(w.lib, w.At(e.who), w.At(e.who).key);
      } else {
        var d, other: nat :| other != key && Heads(w'.lib, w'.At(d), other);
        CallKeepsCourse(w, e, key, other);
        assert Heads(w.lib, w.At(d), other);
      }
    }
  }

  lemma StoringHeads(lib: Library, call: Call)
    requires call.Storing?
    ensures Heads(lib, call, call.key)
  {
  }

  lemma {:induction false} RunBringsNothing(w: World, run: seq<Event>)
    requires NoEdits(run) && Possible(w, run) && w.lib.configs.Keys <= w.lib.dirs && Misleads(After(w, run))
    ensures Misleads(w) || Pending(w)
    decreases run
  {
    hide TagsOf, IsNewest, Apply, Enabled, Misleads, Pending;
    if run != [] {
      assert !run[0].Change?;
      assert forall i :: 0 <= i < |run| - 1 ==> run[1..][i] == run[i + 1];
      SlotStays(w, run[0]);
      RunBringsNothing(Apply(w, run[0]), run[1..]);
      StepBringsNothing(w, run[0]);
    }
  }

  // ---------------------------------------------------------------------------------------------
  // What is pending can happen
  // ---------------------------------------------------------------------------------------------

  /** `longer` goes on from `run` without an edit, and only `c` has moved. */
  ghost predicate OnlyMoves(w: World, run: seq<Event>, longer: seq<Event>, c: CallId) {
    && NoEdits(run) && NoEdits(longer) && Possible(w, run) && Possible(w, longer)
    && After(w, longer).lib == After(w, run).lib
    && forall d :: d != c ==> After(w, longer).At(d) == After(w, run).At(d)
  }

  lemma Further(w: World, run: seq<Event>, e: Event) returns (longer: seq<Event>)
    requires NoEdits(run) && Possible(w, run) && !e.Change? && Enabled(After(w, run), e)
    ensures OnlyMoves(w, run, longer, e.who) && After(w, longer) == Apply(After(w, run), e)
  {
    hide Apply, Enabled, Possible, After;
    longer := Extend(w, run, e);
    SlotStays(After(w, run), e);
  }

  /** The scan visits what is left and comes to its key. */
  lemma {:induction false} FinishScan(w: World, run: seq<Event>, c: CallId, key: nat) returns (longer: seq<Event>)
    requires NoEdits(run) && Possible(w, run) && After(w, run).At(c).Scanning?
             && Heads(After(w, run).lib, After(w, run).At(c), key)
    ensures OnlyMoves(w, run, longer, c) && After(w, longer).slot == After(w, run).slot
    ensures After(w, longer).At(c).Keyed? && After(w, longer).At(c).key == key
    decreases |After(w, run).At(c).left|
  {
    hide Possible, After, Scans, NoEdits;
    var s := After(w, run);
    var left := s.At(c).left;
    if left == {} {
      longer := Further(w, run, Step(c));
      assert key == s.At(c).newest by { ScannedAll(s.lib, s.At(c).newest, key); }
    } else {
      var name :| name in left;
      VisitHeads(s.lib, s.At(c).newest, left, name, key);
      longer := Further(w, run, Visit(c, name));
      assert After(w, longer).At(c).left == left - {name};
      longer := FinishScan(w, longer, c, key);
    }
  }

  lemma ScannedAll(lib: Library, newest: nat, key: nat)
    requires Scans(lib, newest, {}, key)
    ensures key == newest
  {
  }

  /** The walk loads what is left and is ready to be stored. */
  lemma {:induction false} FinishWalk(w: World, run: seq<Event>, c: CallId) returns (longer: seq<Event>)
    requires NoEdits(run) && Possible(w, run) && After(w, run).At(c).Loading?
    ensures OnlyMoves(w, run, longer, c) && After(w, longer).slot == After(w, run).slot
    ensures var s, s' := After(w, run), After(w, longer);
            && s'.At(c).Storing? && s'.At(c).key == s.At(c).key
            && s'.At(c).walk.tags == s.At(c).walk.tags + TagsLeft(s.lib, s.At(c).left)
    decreases |After(w, run).At(c).left|
  {
    hide Possible, After, TagsLeft, TagsIn, NoEdits;
    var s := After(w, run);
    var left := s.At(c).left;
    if left == {} {
      longer := Further(w, run, Step(c));
      NothingIsLeft(s.lib);
    } else {
      var name :| name in left;
      LoadStale(s.lib, s.At(c).walk.tags, left, name);
      longer := Further(w, run, Load(c, name));
      assert After(w, longer).At(c).left == left - {name};
      longer := FinishWalk(w, longer, c);
    }
  }

  /** Whatever the slot holds under another key, a call that heads for `key` puts its own walk there. */
  lemma Evict(w: World, run: seq<Event>, c: CallId, key: nat) returns (longer: seq<Event>)
    requires NoEdits(run) && Possible(w, run) && Heads(After(w, run).lib, After(w, run).At(c), key)
    requires After(w, run).slot.None? || After(w, run).slot.value.key != key
    ensures OnlyMoves(w, run, longer, c) && After(w, longer).slot.Some? && After(w, longer).slot.value.key == key
  {
    hide Possible, After, TagsLeft, TagsIn, Scans, NoEdits;
    longer := run;
    if After(w, longer).At(c).Listing? { longer := Further(w, longer, Step(c)); }
    if After(w, longer).At(c).Scanning? { longer := FinishScan(w, longer, c, key); }
    if After(w, longer).At(c).Keyed? { longer := Further(w, longer, Step(c)); }
    if After(w, longer).At(c).Walking? { longer := Further(w, longer, Step(c)); }
    if After(w, longer).At(c).Loading? { longer := FinishWalk(w, longer, c); }
    longer := Further(w, longer, Step(c));
  }

  /** A stale walk whose key is free goes into the slot. */
  lemma StoreStale(w: World, run: seq<Event>, c: CallId, key: nat) returns (longer: seq<Event>)
    requires NoEdits(run) && Possible(w, run) && IsNewest(After(w, run).lib, key)
             && IsStale(After(w, run).lib, After(w, run).At(c), key)
    requires After(w, run).slot.None? || After(w, run).slot.value.key != key
    ensures NoEdits(longer) && Possible(w, longer) && Misleads(After(w, longer))
  {
    hide Possible, After, TagsLeft, TagsIn, IsNewest, TagsOf, NoEdits;
    longer := run;
    if After(w, longer).At(c).Loading? { longer := FinishWalk(w, longer, c); }
    longer := Further(w, longer, Step(c));
  }

  lemma PendingHappens(w: World)
    requires Pending(w)
    ensures CanMislead(w)
  {
    hide Possible, After, TagsLeft, TagsIn, IsNewest, TagsOf, NoEdits, Heads, IsStale, Misleads;
    var c, key: nat :| IsNewest(w.lib, key) && IsStale(w.lib, w.At(c), key) && ComesFree(w, key);
    NoEventYet(w);
    var run: seq<Event> := [];
    assert NoEdits(run) by { NothingIsNoEdit(); }
    if w.slot.Some? && w.slot.value.key == key {
      var d, other: nat :| other != key && Heads(w.lib, w.At(d), other);
      assert c != d by { StaleHeads(w.lib, w.At(c), key, other); }
      run := Evict(w, run, d, other);
    }
    run := StoreStale(w, run, c, key);
  }

  lemma NothingIsNoEdit()
    ensures NoEdits([])
  {
  }

  lemma StaleHeads(lib: Library, call: Call, key: nat, other: nat)
    requires IsStale(lib, call, key) && other != key
    ensures !Heads(lib, call, other)
  {
  }

  /**
   * Without another edit the calls can make the slot mislead if and only if it misleads already, or some
   * call is about to store a stale walk under the newest mtime while the slot is not under that key or is
   * about to be taken over by a call that heads for another.
   */
  lemma CanMisleadExactlyWhen(w: World)
    requires w.lib.configs.Keys <= w.lib.dirs
    ensures CanMislead(w) <==> Misleads(w) || Pending(w)
  {
    hide Possible, After, Misleads, Pending, NoEdits;
    if CanMislead(w) {
      var run :| NoEdits(run) && Possible(w, run) && Misleads(After(w, run));
      RunBringsNothing(w, run);
    }
    if Pending(w) { PendingHappens(w); }
    if Misleads(w) {
      NoEventYet(w);
      NothingIsNoEdit();
    }
  }

  // ---------------------------------------------------------------------------------------------
  // Which edits make the slot mislead
  // ---------------------------------------------------------------------------------------------

  /** If there is a slot, it tells the truth as long as its key is the newest mtime. */
  ghost predicate Truthful(w: World) {
    && Sound(w.lib, w.now)
    && (w.slot.Some? ==> w.slot.value.key <= w.now
                         && (IsNewest(w.lib, w.slot.value.key) ==> w.slot.value.walk.tags == TagsOf(w.lib)))
  }

  lemma {:induction false} NoEditsAreNoticed(w: World, run: seq<Event>)
    requires NoEdits(run) && Possible(w, run)
    ensures AllNoticed(w, run)
    decreases run
  {
    hide Apply, Enabled, Noticed;
    if run != [] {
      assert !run[0].Change?;
      assert forall i :: 0 <= i < |run| - 1 ==> run[1..][i] == run[i + 1];
      NoEditsAreNoticed(Apply(w, run[0]), run[1..]);
    }
  }

  /** With noticed edits only, the slot is truthful and no call can make it mislead. */
  lemma ReachableIsTruthful(w: World, run: seq<Event>)
    requires Fresh(w) && Possible(w, run) && AllNoticed(w, run)
    ensures Truthful(After(w, run)) && !CanMislead(After(w, run))
  {
    hide TagsOf, IsNewest, CallIsSound, Collecting, Fresh, NoEdits, CurrentIsDated, LooksAreDated;
    FreshIsSound(w);
    InvAlongRun(w, run);
    var s := After(w, run);
    if s.slot.Some? && IsNewest(s.lib, s.slot.value.key) { CurrentEntryIsTrue(s); }
    if CanMislead(s) {
      var more :| NoEdits(more) && Possible(s, more) && Misleads(After(s, more));
      NoEditsAreNoticed(s, more);
      InvAlongRun(s, more);
      CurrentEntryIsTrue(After(s, more));
      assert false;
    }
  }

  /** Some other file is exactly as new as `k`. */
  ghost predicate AlsoAt(lib: Library, name: string, k: nat) {
    lib.root == Some(k) || exists other :: other != name && other in lib.configs && lib.configs[other].mtime == k
  }

  /** No other file is newer than `k`. */
  ghost predicate OthersAtMost(lib: Library, name: string, k: nat) {
    && lib.root.Some? && lib.root.value <= k
    && forall other :: other != name && other in lib.configs ==> lib.configs[other].mtime <= k
  }

  /** Some tag of `name` is carried by no other collection. */
  ghost predicate HasOwnTag(lib: Library, name: string)
    requires name in lib.configs
  {
    exists tag :: tag in lib.configs[name].tags
                  && forall other :: other != name && other in lib.configs ==> tag !in lib.configs[other].tags
  }

  lemma TagsWithout(lib: Library, name: string)
    requires name in lib.configs
    ensures TagsOf(lib.(configs := lib.configs - {name})) != TagsOf(lib) <==> HasOwnTag(lib, name)
  {
    var lib' := lib.(configs := lib.configs - {name});
    if HasOwnTag(lib, name) {
      var tag :| tag in lib.configs[name].tags
                 && forall other :: other != name && other in lib.configs ==> tag !in lib.configs[other].tags;
      assert tag in TagsOf(lib) && tag !in TagsOf(lib');
    } else {
      forall tag ensures tag in TagsOf(lib) <==> tag in TagsOf(lib') {
        if tag in TagsOf(lib) {
          var other :| other in lib.configs && tag in lib.configs[other].tags;
          if other == name {
            var another :| another != name && another in lib.configs && tag in lib.configs[another].tags;
            assert another in lib'.configs;
          } else {
            assert other in lib'.configs;
          }
        }
      }
    }
  }

  lemma NewestWithout(lib: Library, name: string, k: nat)
    requires name in lib.configs
    ensures IsNewest(lib.(configs := lib.configs - {name}), k) <==> OthersAtMost(lib, name, k) && AlsoAt(lib, name, k)
    ensures IsNewest(lib, k) && AlsoAt(lib, name, k) ==> OthersAtMost(lib, name, k)
    ensures OthersAtMost(lib, name, k) && AlsoAt(lib, name, k) && !IsNewest(lib, k) ==> lib.configs[name].mtime > k
  {
    var lib' := lib.(configs := lib.configs - {name});
    assert forall other :: other in lib'.configs <==> other in lib.configs && other != name;
    assert forall other :: other in lib'.configs ==> lib'.configs[other] == lib.configs[other];
  }

  /**
   * Right after a deletion, a truthful slot misleads in exactly two ways. The key was the newest mtime,
   * another file is as new, and the deleted config had a tag of its own. Or the deleted config alone was
   * newer than the key, another file carries the key, and the remaining tags are not the kept ones: the
   * deletion brings an old key back. Later, without another edit, it can also mislead because a stale walk
   * is pending.
   */
  lemma DeletionMisleadsExactlyWhen(w: World, name: string, seconds: nat)
    requires Truthful(w) && Enabled(w, Change(DeleteConfig(name), seconds))
    ensures var w' := Apply(w, Change(DeleteConfig(name), seconds));
            && (CanMislead(w') <==> Misleads(w') || Pending(w'))
            && (Misleads(w') <==>
                  && w.slot.Some?
                  && var k := w.slot.value.key;
                     if IsNewest(w.lib, k) then AlsoAt(w.lib, name, k) && HasOwnTag(w.lib, name)
                     else w.lib.configs[name].mtime > k && OthersAtMost(w.lib, name, k) && AlsoAt(w.lib, name, k)
                          && TagsOf(w'.lib) != w.slot.value.walk.tags)
  {
    hide TagsOf, IsNewest, HasOwnTag, AlsoAt, OthersAtMost, Pending, CanMislead;
    CanMisleadExactlyWhen(Apply(w, Change(DeleteConfig(name), seconds)));
    TagsWithout(w.lib, name);
    if w.slot.Some? { NewestWithout(w.lib, name, w.slot.value.key); }
  }

  lemma NewestWith(lib: Library, name: string, config: Config, k: nat)
    requires name in lib.dirs
    ensures IsNewest(lib.(configs := lib.configs[name := config]), k)
            <==> config.mtime <= k && OthersAtMost(lib, name, k) && (config.mtime == k || AlsoAt(lib, name, k))
    ensures IsNewest(lib, k) ==> OthersAtMost(lib, name, k)
  {
    var lib' := lib.(configs := lib.configs[name := config]);
    assert lib'.configs[name] == config;
    assert forall other :: other != name && other in lib.configs ==>
           other in lib'.configs && lib'.configs[other] == lib.configs[other];
  }

  /**
   * Right after a save, a truthful slot misleads if and only if the directory existed, neither the saved
   * file nor any other is newer than the key, one of them carries the key, and the walk collects something
   * else than was kept. The key may have been the newest mtime before, or the save has replaced the one
   * newer file by an older one. Later, without another edit, it can also mislead because a stale walk is
   * pending. A save that takes effect at the time it is dated never misleads right away.
   */
  lemma SaveMisleadsExactlyWhen(w: World, name: string, tags: set<string>, stamp: nat, seconds: nat)
    requires Truthful(w) && Enabled(w, Change(Save(name, tags, stamp), seconds))
    ensures var w' := Apply(w, Change(Save(name, tags, stamp), seconds));
            && (CanMislead(w') <==> Misleads(w') || Pending(w'))
            && (Misleads(w') <==>
                  && w.slot.Some? && name in w.lib.dirs
                  && var k := w.slot.value.key;
                     && stamp <= k && (stamp == k || AlsoAt(w.lib, name, k))
                     && OthersAtMost(w.lib, name, k) && TagsOf(w'.lib) != w.slot.value.walk.tags)
            && (stamp == w'.now ==> !Misleads(w'))
  {
    hide TagsOf, AlsoAt, OthersAtMost, Pending, CanMislead;
    var w' := Apply(w, Change(Save(name, tags, stamp), seconds));
    CanMisleadExactlyWhen(w');
    if name in w.lib.dirs {
      if w.slot.Some? { NewestWith(w.lib, name, Config(stamp, tags), w.slot.value.key); }
      assert w.lib.dirs + {name} == w.lib.dirs;
    } else {
      assert w'.lib.root == Some(w'.now);
    }
  }

  // ---------------------------------------------------------------------------------------------
  // Each way, from a fresh process
  // ---------------------------------------------------------------------------------------------

  lemma NoTag(lib: Library, tag: string)
    requires forall name :: name in lib.configs ==> tag !in lib.configs[name].tags
    ensures tag !in TagsOf(lib)
  {
  }

  const LEVEL := Library(Some(3), {"a", "b"}, map["a" := Config(1, {"x"}), "b" := Config(2, {"y"})])

  /** With a current slot it is enough that the directory is newer than all configs. */
  lemma DeletedTagIsServed(c: CallId) returns (run: seq<Event>)
    ensures var w := Started(LEVEL, 3);
            && Fresh(w) && Possible(w, run) && NoEdits(run)
            && After(w, run).slot.Some? && IsNewest(LEVEL, After(w, run).slot.value.key) && After(w, run).lib == LEVEL
            && Enabled(After(w, run), Change(DeleteConfig("a"), 1))
            && Misleads(Apply(After(w, run), Change(DeleteConfig("a"), 1)))
            && Enabled(After(w, run), Change(Save("a", {"q"}, 2), 1))
            && Misleads(Apply(After(w, run), Change(Save("a", {"q"}, 2), 1)))
  {
    hide Possible, After, TagsOf, NoEdits;
    var w := Started(LEVEL, 3);
    run := FillSlot(LEVEL, 3, c);
    EditsShow(w, run);
    TagsOfTwo(LEVEL, {"x"}, {"y"});
    var deleted := Edited(LEVEL, DeleteConfig("a"), 4);
    var saved := Edited(LEVEL, Save("a", {"q"}, 2), 4);
    assert deleted.configs.Keys == {"b"} && saved.configs.Keys == {"a", "b"};
    NoTag(deleted, "x");
    NoTag(saved, "x");
  }

  /** A run that leaves no edit in the history had none. */
  lemma {:induction false} EditsShow(w: World, run: seq<Event>)
    requires Possible(w, run)
    ensures |After(w, run).edits| >= |w.edits|
    ensures |After(w, run).edits| == |w.edits| ==> NoEdits(run)
    decreases run
  {
    hide Enabled, Edited, CanEdit, TagsIn;
    if run != [] {
      EditsShow(Apply(w, run[0]), run[1..]);
      assert forall i :: 0 < i < |run| ==> run[i] == run[1..][i - 1];
    }
  }

  /**
   * After a call has filled the slot and `a` has been saved, the slot is older than the newest file.
   * Deleting that file, or replacing it by one dated earlier, makes the slot serve a tag nobody carries.
   */
  lemma OldSlotIsServed(c: CallId) returns (run: seq<Event>)
    ensures Fresh(START) && Possible(START, run) && AllNoticed(START, run)
    ensures var s := After(START, run);
            && s.slot.Some? && !IsNewest(s.lib, s.slot.value.key)
            && Enabled(s, Change(DeleteConfig("a"), 1)) && Misleads(Apply(s, Change(DeleteConfig("a"), 1)))
            && Enabled(s, Change(Save("a", {"q"}, 6), 1)) && Misleads(Apply(s, Change(Save("a", {"q"}, 6), 1)))
  {
    hide Possible, After, TagsOf, AllNoticed;
    StartIsFresh();
    run := Prelude(c);
    HistoryAlongRun(START, run);
    assert NEW.configs["b"].mtime == 7 && "b" in NEW.configs;
    assert NEW.configs["a"].mtime == 9 && "a" in NEW.configs;
    var deleted := Edited(NEW, DeleteConfig("a"), 10);
    var saved := Edited(NEW, Save("a", {"q"}, 6), 10);
    assert deleted.configs.Keys == {"b"} && saved.configs.Keys == {"a", "b"};
    assert deleted.configs["b"].mtime == 7 && saved.configs["b"].mtime == 7;
    NoTag(deleted, "z");
    NoTag(saved, "z");
  }

  /**
   * A call has walked and not yet stored when `a` loses its tag unnoticed. The slot is empty after the
   * edit and does not mislead yet, but it does once the call has stored.
   */
  lemma PendingWalkIsServed(kind: Kind, c: CallId) returns (run: seq<Event>)
    requires kind in UNNOTICED
    ensures Fresh(START) && Possible(START, run) && NoEdits(run)
            && Enabled(After(START, run), Change(Unnoticed(kind), 1))
    ensures var s := Apply(After(START, run), Change(Unnoticed(kind), 1));
            s.slot.None? && Pending(s) && !Misleads(s) && Misleads(StepOf(s, c))
  {
    hide Possible, After, TagsOf, NoEdits, Edited, CanEdit, KindOf, IsNewest;
    StartIsFresh();
    NoEventYet(START);
    run := ScanTwo(START, [], c);
    run := LoadOne(START, run, c);
    run := LoadLast(START, run, c);
    EditsShow(START, run);
    UnnoticedLosesZ(kind);
    var s := Apply(After(START, run), Change(Unnoticed(kind), 1));
    assert s.At(c) == Storing(0, 0, 7, Walk(0, 0, {"z"} + {"y"}));
    assert IsNewest(s.lib, 7) by { NewestIsSeven(s.lib); }
    assert "z" in s.At(c).walk.tags;
    assert IsStale(s.lib, s.At(c), 7);
  }

  lemma NewestIsSeven(lib: Library)
    requires lib.root == Some(5) && lib.configs.Keys <= {"a", "b"} && "b" in lib.configs && lib.configs["b"].mtime == 7
    requires "a" in lib.configs ==> lib.configs["a"].mtime <= 7
    ensures IsNewest(lib, 7)
  {
  }
}
