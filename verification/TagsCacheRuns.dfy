/** Exactly which edits, during the scan and during the walk, make a call to the tag cache untruthful. */
module TagsCacheRuns {
  import opened Text
  import opened CollectionsDir
  import opened TagsCache

  // ---------------------------------------------------------------------------------------------
  // Building runs
  // ---------------------------------------------------------------------------------------------

  lemma {:induction false} Extend(w: World, run: seq<Event>, e: Event) returns (longer: seq<Event>)
    requires Possible(w, run) && Enabled(After(w, run), e)
    ensures longer == run + [e] && Possible(w, longer) && After(w, longer) == Apply(After(w, run), e)
    decreases run
  {
    hide Apply, Enabled;
    longer := run + [e];
    if run == [] {
      assert ([] + [e])[0] == e && ([] + [e])[1..] == [];
    } else {
      assert (run + [e])[0] == run[0] && (run + [e])[1..] == run[1..] + [e];
      var rest := Extend(Apply(w, run[0]), run[1..], e);
    }
  }

  lemma NoEventYet(w: World)
    ensures Possible(w, []) && After(w, []) == w
  {
  }

  /** A process that has just started on `lib`. */
  function Started(lib: Library, now: nat): World {
    World(lib, now, None, map[], [Look(lib, now)], [])
  }

  /** An undisturbed scan of two configs ends with the newest mtime for a key. */
  lemma ScanTwo(w: World, run: seq<Event>, c: CallId) returns (longer: seq<Event>)
    requires Possible(w, run) && After(w, run).At(c).Idle?
    requires var s := After(w, run);
             s.lib.root.Some? && s.lib.dirs == {"a", "b"} && "a" in s.lib.configs && "b" in s.lib.configs
    ensures Possible(w, longer)
    ensures var s := After(w, run);
            After(w, longer) == s.Move(c, Keyed(|s.edits|, |s.edits|,
              Max(Max(s.lib.root.value, s.lib.configs["a"].mtime), s.lib.configs["b"].mtime)))
  {
    hide Possible, After, TagsOf;
    var s := After(w, run);
    longer := Extend(w, run, Step(c));
    longer := Extend(w, longer, Step(c));
    longer := Extend(w, longer, Visit(c, "a"));
    longer := Extend(w, longer, Visit(c, "b"));
    longer := Extend(w, longer, Step(c));
    assert After(w, longer).calls == s.Move(c, After(w, longer).At(c)).calls;
  }

  /** A miss lists two configs and loads the first. */
  lemma LoadOne(w: World, run: seq<Event>, c: CallId) returns (longer: seq<Event>)
    requires Possible(w, run) && After(w, run).At(c).Keyed? && After(w, run).slot.None?
    requires After(w, run).lib.dirs == {"a", "b"}
    ensures Possible(w, longer)
    ensures var s := After(w, run);
            var call, n := s.At(c), |s.edits|;
            After(w, longer) == s.Move(c,
              Loading(call.since, call.until, call.key, Walk(n, n, TagsIn(s.lib, "a")), {"b"}))
  {
    hide Possible, After, TagsOf, TagsIn;
    var s := After(w, run);
    longer := Extend(w, run, Step(c));
    longer := Extend(w, longer, Step(c));
    longer := Extend(w, longer, Load(c, "a"));
    assert {"a", "b"} - {"a"} == {"b"} && {} + TagsIn(s.lib, "a") == TagsIn(s.lib, "a");
    assert After(w, longer).calls == s.Move(c, After(w, longer).At(c)).calls;
  }

  /** The walk loads the last config. */
  lemma LoadLast(w: World, run: seq<Event>, c: CallId) returns (longer: seq<Event>)
    requires Possible(w, run) && After(w, run).At(c).Loading? && After(w, run).At(c).left == {"b"}
    ensures Possible(w, longer)
    ensures var s := After(w, run);
            var call := s.At(c);
            After(w, longer) == s.Move(c, Storing(call.since, call.until, call.key,
              Walk(call.walk.from, |s.edits|, call.walk.tags + TagsIn(s.lib, "b"))))
  {
    hide Possible, After, TagsOf, TagsIn;
    var s := After(w, run);
    longer := Extend(w, run, Load(c, "b"));
    longer := Extend(w, longer, Step(c));
    assert After(w, longer).calls == s.Move(c, After(w, longer).At(c)).calls;
  }

  /** What was walked fills an empty slot, and the call is over. */
  lemma StoreAndEnd(w: World, run: seq<Event>, c: CallId) returns (longer: seq<Event>)
    requires Possible(w, run) && After(w, run).At(c).Storing? && After(w, run).slot.None?
    ensures Possible(w, longer)
    ensures var s := After(w, run);
            After(w, longer) == s.(slot := Some(Slot(s.At(c).key, s.At(c).walk))).Move(c, Idle)
  {
    hide Possible, After, TagsOf;
    var s := After(w, run);
    longer := Extend(w, run, Step(c));
    longer := Extend(w, longer, Step(c));
    assert After(w, longer).calls == s.Move(c, Idle).calls;
  }

  /** An undisturbed first call fills the slot with what the directory holds. */
  lemma FillSlot(lib: Library, now: nat, c: CallId) returns (run: seq<Event>)
    requires lib.root.Some? && lib.dirs == {"a", "b"} && lib.configs.Keys == {"a", "b"}
    ensures var w := Started(lib, now);
            var key := Max(Max(lib.root.value, lib.configs["a"].mtime), lib.configs["b"].mtime);
            && Possible(w, run)
            && After(w, run) == w.(slot := Some(Slot(key, Walk(0, 0, TagsOf(lib))))).Move(c, Idle)
  {
    hide Possible, After, TagsOf;
    var w := Started(lib, now);
    NoEventYet(w);
    run := ScanTwo(w, [], c);
    run := LoadOne(w, run, c);
    run := LoadLast(w, run, c);
    run := StoreAndEnd(w, run, c);
    TagsOfTwo(lib, lib.configs["a"].tags, lib.configs["b"].tags);
    assert After(w, run).calls == w.Move(c, Idle).calls;
  }

  lemma TagsOfTwo(lib: Library, a: set<string>, b: set<string>)
    requires lib.configs.Keys == {"a", "b"} && lib.configs["a"].tags == a && lib.configs["b"].tags == b
    ensures TagsOf(lib) == a + b
  {
    assert "a" in lib.configs && "b" in lib.configs;
  }

  const OLD := Library(Some(5), {"a", "b"}, map["a" := Config(6, {"z"}), "b" := Config(7, {"y"})])
  const NEW := Library(Some(5), {"a", "b"}, map["a" := Config(9, {"x"}), "b" := Config(7, {"y"})])

  /** A process that has just started on the directory `OLD`. */
  const START := Started(OLD, 7)

  lemma StartIsFresh()
    ensures Fresh(START) && OLD.configs.Keys == {"a", "b"}
  {
    assert OLD.configs["b"].mtime == 7 && "b" in OLD.configs;
  }

  /** One call fills the slot from `OLD`, and then `a` is saved with another tag at time 9. */
  lemma Prelude(c: CallId) returns (run: seq<Event>)
    ensures Possible(START, run)
    ensures After(START, run) == World(NEW, 9, Some(Slot(7, Walk(0, 0, {"y", "z"}))), map[c := Idle],
                                       [Look(OLD, 7), Look(NEW, 9)], [Save("a", {"x"}, 9)])
  {
    hide Possible, After, TagsOf;
    StartIsFresh();
    run := FillSlot(OLD, 7, c);
    TagsOfTwo(OLD, {"z"}, {"y"});
    assert {"z"} + {"y"} == {"y", "z"};
    SaveMakesNew();
    run := Extend(START, run, Change(Save("a", {"x"}, 9), 2));
    hide Edited;
    var t := After(START, run);
    assert t.calls == map[c := Idle] && t.lib == NEW && t.now == 9;
    assert t.looks == [Look(OLD, 7), Look(NEW, 9)] && t.edits == [Save("a", {"x"}, 9)];
  }

  lemma SaveMakesNew()
    ensures Edited(OLD, Save("a", {"x"}, 9), 9) == NEW
  {
    assert OLD.dirs + {"a"} == {"a", "b"};
    assert OLD.configs["a" := Config(9, {"x"})] == NEW.configs;
  }

  // ---------------------------------------------------------------------------------------------
  // What the history of a run tells
  // ---------------------------------------------------------------------------------------------

  /** A late save puts a file in place that was written before the edit. */
  datatype Kind = Making | RemovingRoot | Creating | Removing | Renaming | Saving | LateSaving | Deleting

  function KindOf(e: Edit, t: nat): Kind {
    match e
    case MakeRoot => Making
    case RemoveRoot => RemovingRoot
    case Create(_) => Creating
    case Remove(_) => Removing
    case Rename(_, _) => Renaming
    case Save(_, _, stamp) => if stamp == t then Saving else LateSaving
    case DeleteConfig(_) => Deleting
  }

  /** The edits that leave the mtimes without a trace of their own time. */
  const UNNOTICED := {LateSaving, Deleting}

  /** The edits that take a file away from under a scan, or date it back. */
  const LOSING := UNNOTICED + {RemovingRoot, Removing, Renaming}

  /** The edits that change no tags. */
  const TAGLESS := {Making, Creating}

  /** The history is as long as it should be, and edits that change no tags left the configs alone. */
  ghost predicate IsHistory(w: World) {
    && |w.looks| == |w.edits| + 1 && w.looks[|w.edits|].lib == w.lib
    && w.lib.configs.Keys <= w.lib.dirs && (w.lib.root.None? ==> w.lib.dirs == {})
    && forall k :: 0 <= k < |w.edits| && KindOf(w.edits[k], w.looks[k + 1].date) in TAGLESS ==>
         w.looks[k + 1].lib.configs == w.looks[k].lib.configs
  }

  lemma EventKeepsHistory(w: World, e: Event)
    requires IsHistory(w) && Enabled(w, e)
    ensures IsHistory(Apply(w, e)) && w.edits <= Apply(w, e).edits && w.looks <= Apply(w, e).looks
  {
    hide TagsOf, TagsIn;
    if e.Change? {
      var w', n := Apply(w, e), |w.edits|;
      assert w'.looks[n] == w.looks[n] && w'.edits[n] == e.e;
      forall k | 0 <= k < n + 1 && KindOf(w'.edits[k], w'.looks[k + 1].date) in TAGLESS
        ensures w'.looks[k + 1].lib.configs == w'.looks[k].lib.configs
      {
        if k < n { assert w'.edits[k] == w.edits[k] && w'.looks[k + 1] == w.looks[k + 1]; }
      }
    }
  }

  ghost predicate AllOfKind(w: World, from: nat, to: nat, kinds: set<Kind>)
    requires to <= |w.edits| < |w.looks|
  {
    forall k :: from <= k < to ==> KindOf(w.edits[k], w.looks[k + 1].date) in kinds
  }

  /** Whether all edits of a run were noticed can be read off its history. */
  lemma {:induction false} HistoryAlongRun(w: World, run: seq<Event>)
    requires IsHistory(w) && Possible(w, run)
    ensures var s := After(w, run);
            && IsHistory(s) && w.edits <= s.edits && w.looks <= s.looks
            && (AllNoticed(w, run) <==>
                forall k :: |w.edits| <= k < |s.edits| ==> KindOf(s.edits[k], s.looks[k + 1].date) !in UNNOTICED)
    decreases run
  {
    hide Apply, Enabled, IsHistory;
    if run != [] {
      var w' := Apply(w, run[0]);
      EventKeepsHistory(w, run[0]);
      HistoryAlongRun(w', run[1..]);
      OneMoreEdit(w, run[0]);
      var s, n := After(w', run[1..]), |w.edits|;
      if run[0].Change? {
        assert s.edits[n] == w'.edits[n] && s.looks[n + 1] == w'.looks[n + 1];
      }
    }
  }

  lemma OneMoreEdit(w: World, e: Event)
    requires IsHistory(w) && Enabled(w, e)
    ensures var w' := Apply(w, e);
            && |w'.looks| == |w'.edits| + 1
            && if e.Change? then
                 && |w'.edits| == |w.edits| + 1
                 && (Noticed(e.e, w'.now) <==> KindOf(w'.edits[|w.edits|], w'.looks[|w.edits| + 1].date) !in UNNOTICED)
               else w'.edits == w.edits
  {
    hide Edited, CanEdit, TagsIn;
  }

  // ---------------------------------------------------------------------------------------------
  // Which edits during a call make it untruthful
  // ---------------------------------------------------------------------------------------------

  /**
   * `call` returns; there were edits of the kinds `scanned` only between its first stat and its key, edits
   * of the kinds `walked` only during the walk it answers with, and noticed edits only at all other times.
   */
  ghost predicate ReturnsDespite(w: World, call: Call, scanned: set<Kind>, walked: set<Kind>) {
    && call.Returning? && |w.looks| == |w.edits| + 1
    && forall k :: 0 <= k < |w.edits| ==>
         var kind := KindOf(w.edits[k], w.looks[k + 1].date);
         && (call.since <= k < call.until ==> kind in scanned)
         && (call.walk.from <= k < call.walk.to ==> kind in walked)
         && (call.since <= k < call.until || call.walk.from <= k < call.walk.to || kind !in UNNOTICED)
  }

  /** Each tag was carried at some moment of the call, and each tag a config carried throughout the call is there. */
  ghost predicate IsFair(w: World, call: Call) {
    call.Returning? && call.since <= |w.edits| && Collected(w.looks, Walk(call.since, |w.edits|, call.walk.tags))
  }

  /** The tags are those of one moment of the call. */
  ghost predicate IsTrue(w: World, call: Call) {
    call.Returning? && exists i :: call.since <= i < |w.looks| && TagsOf(w.looks[i].lib) == call.walk.tags
  }

  /** Whatever edits of these kinds disturb its scan and its walk, a call is fair. */
  ghost predicate AlwaysFair(scanned: set<Kind>, walked: set<Kind>) {
    forall w, run, c ::
      Fresh(w) && Possible(w, run) && ReturnsDespite(After(w, run), After(w, run).At(c), scanned, walked) ==>
      IsFair(After(w, run), After(w, run).At(c))
  }

  /** Whatever edits of these kinds disturb its scan and its walk, a call is true at one moment. */
  ghost predicate AlwaysTrue(scanned: set<Kind>, walked: set<Kind>) {
    forall w, run, c ::
      Fresh(w) && Possible(w, run) && ReturnsDespite(After(w, run), After(w, run).At(c), scanned, walked) ==>
      IsTrue(After(w, run), After(w, run).At(c))
  }

  lemma MoreKinds(w: World, call: Call, scanned: set<Kind>, walked: set<Kind>, scanned': set<Kind>, walked': set<Kind>)
    requires ReturnsDespite(w, call, scanned, walked) && scanned <= scanned' && walked <= walked'
    ensures ReturnsDespite(w, call, scanned', walked')
  {
    hide KindOf;
  }

  /** If the scan loses no file and the walk meets noticed edits only, the walk fell into the call. */
  lemma WalkIsWithinCall(w: World, run: seq<Event>, c: CallId, scanned: set<Kind>, walked: set<Kind>)
    requires Fresh(w) && Possible(w, run) && ReturnsDespite(After(w, run), After(w, run).At(c), scanned, walked)
    requires scanned !! LOSING && walked !! UNNOTICED
    ensures var s := After(w, run);
            IsHistory(s) && Collected(s.looks, s.At(c).walk) && s.At(c).since <= s.At(c).walk.from
  {
    hide TagsOf, Collecting;
    assert IsHistory(w);
    HistoryAlongRun(w, run);
    hide Fresh, IsHistory;
    var s := After(w, run);
    var call := s.At(c);
    forall k | 0 <= k < |s.edits| ensures KindOf(s.edits[k], s.looks[k + 1].date) !in UNNOTICED {}
    CallsReturnTheTruth(w, run, c);
    forall k | call.since <= k < call.until ensures !Unlists(s.edits[k]) {
      assert KindOf(s.edits[k], s.looks[k + 1].date) in scanned;
    }
  }

  /** What holds of a walk within the call holds of the call. */
  lemma WalkWithinIsFair(looks: seq<Look>, walk: Walk, since: nat)
    requires Collected(looks, walk) && since <= walk.from
    ensures Collected(looks, Walk(since, |looks| - 1, walk.tags))
  {
    hide TagsOf, TagsIn;
    var whole := Walk(since, |looks| - 1, walk.tags);
    forall tag | tag in walk.tags ensures exists i :: since <= i <= whole.to && tag in TagsOf(looks[i].lib) {
      var i :| walk.from <= i <= walk.to && tag in TagsOf(looks[i].lib);
    }
    forall name, tag | CarriedThroughout(looks, since, whole.to, name, tag) ensures tag in walk.tags {
      assert CarriedThroughout(looks, walk.from, walk.to, name, tag);
    }
  }

  lemma {:induction false} SameConfigs(w: World, from: nat, i: nat)
    requires IsHistory(w) && from <= i <= |w.edits| && AllOfKind(w, from, i, TAGLESS)
    ensures w.looks[i].lib.configs == w.looks[from].lib.configs
    decreases i
  {
    hide KindOf;
    if i > from {
      assert KindOf(w.edits[i - 1], w.looks[i].date) in TAGLESS;
      SameConfigs(w, from, i - 1);
    }
  }

  /** A walk that meets only edits that change no tags collects the tags of its first moment. */
  lemma SteadyWalkIsExact(w: World, walk: Walk)
    requires IsHistory(w) && Collected(w.looks, walk) && AllOfKind(w, walk.from, walk.to, TAGLESS)
    ensures walk.tags == TagsOf(w.looks[walk.from].lib)
  {
    hide KindOf;
    var lib := w.looks[walk.from].lib;
    forall i | walk.from <= i <= walk.to ensures w.looks[i].lib.configs == lib.configs { SameConfigs(w, walk.from, i); }
    forall tag | tag in TagsOf(lib) ensures tag in walk.tags {
      var name :| name in lib.configs && tag in lib.configs[name].tags;
      assert CarriedThroughout(w.looks, walk.from, walk.to, name, tag);
    }
  }

  // ---------------------------------------------------------------------------------------------
  // A disturbed scan
  // ---------------------------------------------------------------------------------------------

  /** An edit of each losing kind, to the config `a` of `NEW`. */
  function Losing(kind: Kind): Edit
    requires kind in LOSING
  {
    match kind
    case RemovingRoot => RemoveRoot
    case Removing => Remove("a")
    case Renaming => Rename("a", "c")
    case LateSaving => Save("a", {"q"}, 6)
    case _ => DeleteConfig("a")
  }

  lemma LosingLosesA(kind: Kind)
    requires kind in LOSING
    ensures CanEdit(NEW, Losing(kind)) && KindOf(Losing(kind), 10) == kind
    ensures var lib := Edited(NEW, Losing(kind), 10);
            && ("a" in lib.configs ==> lib.configs["a"].mtime <= 7) && "z" !in TagsOf(lib)
    ensures "z" !in TagsOf(NEW)
  {
    TagsOfTwo(NEW, {"x"}, {"y"});
    var lib := Edited(NEW, Losing(kind), 10);
    forall name | name in lib.configs ensures "z" !in lib.configs[name].tags {
      assert name == "a" || name == "b" || name == "c";
    }
  }

  /** After the prelude, a call has visited `b` and has still to visit `a`. */
  lemma VisitB(c: CallId) returns (run: seq<Event>)
    ensures Possible(START, run)
    ensures After(START, run) == World(NEW, 9, Some(Slot(7, Walk(0, 0, {"y", "z"}))), map[c := Scanning(1, 7, {"a"})],
                                       [Look(OLD, 7), Look(NEW, 9)], [Save("a", {"x"}, 9)])
  {
    hide Possible, After, TagsOf;
    run := Prelude(c);
    run := Extend(START, run, Step(c));
    run := Extend(START, run, Step(c));
    run := Extend(START, run, Visit(c, "b"));
    assert {"a", "b"} - {"b"} == {"a"};
  }

  /**
   * The bad run, from a fresh process: an earlier call has filled the slot, `a` has been saved since, and
   * now its file is lost to the scan before it is visited. The key is then the old one, and the call
   * returns a tag that nobody carried at any moment of it.
   */
  lemma CallCanReturnOldTags(kind: Kind, c: CallId) returns (run: seq<Event>)
    requires kind in LOSING
    ensures Fresh(START) && Possible(START, run)
    ensures ReturnsDespite(After(START, run), After(START, run).At(c), {kind}, {})
    ensures !IsFair(After(START, run), After(START, run).At(c)) && !IsTrue(After(START, run), After(START, run).At(c))
  {
    hide Possible, After, TagsOf, Edited, CanEdit, KindOf, TagsIn, Fresh;
    StartIsFresh();
    LosingLosesA(kind);
    var e := Losing(kind);
    run := VisitB(c);
    assert Enabled(After(START, run), Change(e, 1));
    run := Extend(START, run, Change(e, 1));
    run := Extend(START, run, Visit(c, "a"));
    run := Extend(START, run, Step(c));
    run := Extend(START, run, Step(c));
    var s := After(START, run);
    assert s.At(c) == Returning(1, 2, 7, Walk(0, 0, {"y", "z"}));
    assert |s.edits| == 2 && s.edits[0] == Save("a", {"x"}, 9) && s.edits[1] == e;
    assert s.looks == [Look(OLD, 7), Look(NEW, 9), Look(Edited(NEW, e, 10), 10)];
    FirstEditIsNoticed();
    StrangeTagIsUnfair(s, s.At(c), "z");
  }

  lemma FirstEditIsNoticed()
    ensures KindOf(Save("a", {"x"}, 9), 9) == Saving
  {
  }

  lemma StrangeTagIsUnfair(w: World, call: Call, tag: string)
    requires call.Returning? && tag in call.walk.tags
    requires forall i :: call.since <= i < |w.looks| ==> tag !in TagsOf(w.looks[i].lib)
    ensures !IsFair(w, call) && !IsTrue(w, call)
  {
    hide TagsOf;
  }

  // ---------------------------------------------------------------------------------------------
  // A disturbed walk
  // ---------------------------------------------------------------------------------------------

  /** An unnoticed edit of `a` in `OLD`. */
  function Unnoticed(kind: Kind): Edit
    requires kind in UNNOTICED
  {
    if kind == Deleting then DeleteConfig("a") else Save("a", {"q"}, 6)
  }

  lemma UnnoticedLosesZ(kind: Kind)
    requires kind in UNNOTICED
    ensures CanEdit(OLD, Unnoticed(kind)) && KindOf(Unnoticed(kind), 8) == kind
    ensures var lib := Edited(OLD, Unnoticed(kind), 8);
            && lib.root == Some(5) && lib.dirs == {"a", "b"} && lib.configs.Keys <= lib.dirs
            && "b" in lib.configs && lib.configs["b"] == Config(7, {"y"})
            && ("a" in lib.configs ==> lib.configs["a"].mtime <= 7) && "z" !in TagsOf(lib)
  {
    var lib := Edited(OLD, Unnoticed(kind), 8);
    assert OLD.dirs + {"a"} == {"a", "b"};
    forall name | name in lib.configs ensures "z" !in lib.configs[name].tags {
      assert name == "a" || name == "b";
    }
  }

  /** A call loads `a`, and then `a` loses its tag unnoticed; the walk goes into the slot under the newest mtime. */
  lemma StaleSlot(kind: Kind, c: CallId) returns (run: seq<Event>)
    requires kind in UNNOTICED
    ensures CanEdit(OLD, Unnoticed(kind)) && Possible(START, run)
    ensures var lib := Edited(OLD, Unnoticed(kind), 8);
            After(START, run) == World(lib, 8, Some(Slot(7, Walk(0, 1, {"z"} + {"y"}))), map[c := Idle],
                                       [Look(OLD, 7), Look(lib, 8)], [Unnoticed(kind)])
  {
    hide Possible, After, TagsOf, Edited, CanEdit, KindOf;
    StartIsFresh();
    UnnoticedLosesZ(kind);
    var e := Unnoticed(kind);
    NoEventYet(START);
    run := ScanTwo(START, [], c);
    run := LoadOne(START, run, c);
    assert Enabled(After(START, run), Change(e, 1));
    run := Extend(START, run, Change(e, 1));
    run := LoadLast(START, run, c);
    run := StoreAndEnd(START, run, c);
    var t := After(START, run);
    assert t.calls == map[c := Idle] && t.edits == [e] && t.looks == [Look(OLD, 7), Look(Edited(OLD, e, 8), 8)];
  }

  /** A second call, begun after all that, returns the lost tag. */
  lemma NextCallCanReturnOldTags(kind: Kind, c: CallId) returns (run: seq<Event>)
    requires kind in UNNOTICED
    ensures Fresh(START) && Possible(START, run)
    ensures ReturnsDespite(After(START, run), After(START, run).At(c), {}, {kind})
    ensures !IsFair(After(START, run), After(START, run).At(c)) && !IsTrue(After(START, run), After(START, run).At(c))
  {
    hide Possible, After, TagsOf, Edited, CanEdit, KindOf, Fresh;
    StartIsFresh();
    UnnoticedLosesZ(kind);
    run := StaleSlot(kind, c);
    run := Extend(START, run, Step(c));
    run := Extend(START, run, Step(c));
    run := Extend(START, run, Visit(c, "a"));
    run := Extend(START, run, Visit(c, "b"));
    run := Extend(START, run, Step(c));
    run := Extend(START, run, Step(c));
    var s := After(START, run);
    assert s.At(c) == Returning(1, 1, 7, Walk(0, 1, {"z"} + {"y"}));
    StrangeTagIsUnfair(s, s.At(c), "z");
  }

  /** One or two edits of a kind that make a walk of `OLD` collect what was never there together. */
  function Mixing(kind: Kind): (Edit, Option<Edit>)
    requires kind !in TAGLESS
  {
    match kind
    case RemovingRoot => (RemoveRoot, None)
    case Removing => (Remove("a"), Some(Remove("b")))
    case Renaming => (Rename("b", "c"), None)
    case Saving => (Save("a", {"p"}, 8), Some(Save("b", {"q"}, 9)))
    case LateSaving => (Save("a", {"p"}, 1), Some(Save("b", {"q"}, 1)))
    case _ => (DeleteConfig("a"), Some(DeleteConfig("b")))
  }

  function Second(lib: Library, e: Option<Edit>): Library
    requires e.Some? ==> CanEdit(lib, e.value)
  {
    if e.None? then lib else Edited(lib, e.value, 9)
  }

  lemma MixingMixes(kind: Kind)
    requires kind !in TAGLESS
    ensures var (first, second) := Mixing(kind);
            && CanEdit(OLD, first) && KindOf(first, 8) == kind && (first.Save? ==> first.stamp <= 8)
            && var lib := Edited(OLD, first, 8);
            && (second.Some? ==>
                  && CanEdit(lib, second.value) && KindOf(second.value, 9) == kind
                  && (second.value.Save? ==> second.value.stamp <= 9))
            && var last := Second(lib, second);
            && {"z"} + TagsIn(last, "b") != TagsOf(OLD)
            && {"z"} + TagsIn(last, "b") != TagsOf(lib)
            && {"z"} + TagsIn(last, "b") != TagsOf(last)
  {
    var (first, second) := Mixing(kind);
    var lib := Edited(OLD, first, 8);
    var last := Second(lib, second);
    assert "b" in OLD.configs && "y" in TagsOf(OLD);
    assert "y" !in TagsIn(last, "b");
    if kind == RemovingRoot {
      assert "z" !in TagsOf(lib);
    } else if kind == Renaming {
      assert lib.configs["c"].tags == {"y"} && "y" in TagsOf(lib);
    } else {
      assert "b" in lib.configs && "y" in TagsOf(lib);
      forall name | name in last.configs ensures "z" !in last.configs[name].tags { assert name == "a" || name == "b"; }
      assert "z" !in TagsOf(last);
    }
  }

  /** The bad run: a walk loads `a`, the edits take place, and then it loads `b`. */
  lemma WalkCanMixTags(kind: Kind, c: CallId) returns (run: seq<Event>)
    requires kind !in TAGLESS
    ensures Fresh(START) && Possible(START, run)
    ensures ReturnsDespite(After(START, run), After(START, run).At(c), {}, {kind})
    ensures !IsTrue(After(START, run), After(START, run).At(c))
  {
    hide Possible, After, TagsOf, Edited, CanEdit, KindOf, Mixing, Fresh;
    StartIsFresh();
    MixingMixes(kind);
    var (first, second) := Mixing(kind);
    var lib := Edited(OLD, first, 8);
    NoEventYet(START);
    run := ScanTwo(START, [], c);
    run := LoadOne(START, run, c);
    assert Enabled(After(START, run), Change(first, 1));
    run := Extend(START, run, Change(first, 1));
    if second.Some? {
      assert Enabled(After(START, run), Change(second.value, 1));
      run := Extend(START, run, Change(second.value, 1));
    }
    var last := Second(lib, second);
    var edits := if second.Some? then [first, second.value] else [first];
    var looks := if second.Some? then [Look(OLD, 7), Look(lib, 8), Look(last, 9)] else [Look(OLD, 7), Look(lib, 8)];
    var t := After(START, run);
    assert t.lib == last && t.edits == edits && t.looks == looks;
    run := LoadLast(START, run, c);
    run := Extend(START, run, Step(c));
    var s := After(START, run);
    assert s.At(c) == Returning(0, 0, 7, Walk(0, |edits|, {"z"} + TagsIn(last, "b")));
    assert s.edits == edits && s.looks == looks;
  }

  // ---------------------------------------------------------------------------------------------
  // The conditions
  // ---------------------------------------------------------------------------------------------

  /**
   * A call always returns tags carried at some moment of it, and every tag that one config carried
   * throughout it, if and only if no edit during its scan takes a file away or dates it back, and no edit
   * during the walk it answers with goes unnoticed.
   */
  lemma FairExactlyWhen(scanned: set<Kind>, walked: set<Kind>)
    ensures AlwaysFair(scanned, walked) <==> scanned !! LOSING && walked !! UNNOTICED
  {
    hide Fresh, Possible, After, IsFair, ReturnsDespite;
    if scanned !! LOSING && walked !! UNNOTICED {
      forall w, run, c |
          Fresh(w) && Possible(w, run) && ReturnsDespite(After(w, run), After(w, run).At(c), scanned, walked)
        ensures IsFair(After(w, run), After(w, run).At(c))
      {
        FairCall(w, run, c, scanned, walked);
      }
    } else if kind :| kind in scanned && kind in LOSING {
      var run := CallCanReturnOldTags(kind, 0);
      MoreKinds(After(START, run), After(START, run).At(0), {kind}, {}, scanned, walked);
    } else {
      var kind :| kind in walked && kind in UNNOTICED;
      var run := NextCallCanReturnOldTags(kind, 0);
      MoreKinds(After(START, run), After(START, run).At(0), {}, {kind}, scanned, walked);
    }
  }

  lemma FairCall(w: World, run: seq<Event>, c: CallId, scanned: set<Kind>, walked: set<Kind>)
    requires Fresh(w) && Possible(w, run) && ReturnsDespite(After(w, run), After(w, run).At(c), scanned, walked)
    requires scanned !! LOSING && walked !! UNNOTICED
    ensures IsFair(After(w, run), After(w, run).At(c))
  {
    hide Fresh, Collecting, KindOf;
    WalkIsWithinCall(w, run, c, scanned, walked);
    var s := After(w, run);
    WalkWithinIsFair(s.looks, s.At(c).walk, s.At(c).since);
    WalkIsWithin(s.looks, s.At(c).walk);
  }

  /**
   * A call always returns the tags of one moment of it, if and only if no edit during its scan takes a file
   * away or dates it back, and the edits during the walk it answers with only make the root or empty
   * collections.
   */
  lemma TrueExactlyWhen(scanned: set<Kind>, walked: set<Kind>)
    ensures AlwaysTrue(scanned, walked) <==> scanned !! LOSING && walked <= TAGLESS
  {
    hide Fresh, Possible, After, IsTrue, ReturnsDespite;
    if scanned !! LOSING && walked <= TAGLESS {
      forall w, run, c |
          Fresh(w) && Possible(w, run) && ReturnsDespite(After(w, run), After(w, run).At(c), scanned, walked)
        ensures IsTrue(After(w, run), After(w, run).At(c))
      {
        TrueCall(w, run, c, scanned, walked);
      }
    } else if kind :| kind in scanned && kind in LOSING {
      var run := CallCanReturnOldTags(kind, 0);
      MoreKinds(After(START, run), After(START, run).At(0), {kind}, {}, scanned, walked);
    } else {
      var kind :| kind in walked && kind !in TAGLESS;
      var run := WalkCanMixTags(kind, 0);
      MoreKinds(After(START, run), After(START, run).At(0), {}, {kind}, scanned, walked);
    }
  }

  lemma TrueCall(w: World, run: seq<Event>, c: CallId, scanned: set<Kind>, walked: set<Kind>)
    requires Fresh(w) && Possible(w, run) && ReturnsDespite(After(w, run), After(w, run).At(c), scanned, walked)
    requires scanned !! LOSING && walked <= TAGLESS
    ensures IsTrue(After(w, run), After(w, run).At(c))
  {
    hide Fresh, Collecting, KindOf, TagsOf, IsHistory;
    WalkIsWithinCall(w, run, c, scanned, walked);
    var s := After(w, run);
    WalkIsWithin(s.looks, s.At(c).walk);
    SteadyWalkIsExact(s, s.At(c).walk);
  }
}
