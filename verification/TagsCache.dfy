/**
 * The one-slot cache of collection tags, keyed on the newest mtime of the directory and its configs. A
 * call takes that mtime file by file, and on a miss loads config by config, while other processes go on
 * editing.
 */
module TagsCache {
  import opened Text
  import opened CollectionsDir

  type CallId = nat

  /** The tags a walk collected; `from` and `to` count the edits before its listing and before its last load. */
  datatype Walk = Walk(from: nat, to: nat, tags: set<string>)

  /** The slot: a walk under the mtime it was looked up by. */
  datatype Slot = Slot(key: nat, walk: Walk)

  /** Where a call stands; `since` and `until` count the edits before its first stat and before its key. */
  datatype Call =
    | Idle
    | Listing(since: nat, newest: nat)
    | Scanning(since: nat, newest: nat, left: set<string>)
    | Keyed(since: nat, until: nat, key: nat)
    | Walking(since: nat, until: nat, key: nat)
    | Loading(since: nat, until: nat, key: nat, walk: Walk, left: set<string>)
    | Storing(since: nat, until: nat, key: nat, walk: Walk)
    | Returning(since: nat, until: nat, key: nat, walk: Walk)

  /** The directory after some edit, and the time of that edit. */
  datatype Look = Look(lib: Library, date: nat)

  /** `edits` are the edits so far, and `looks` the directory before, between and after them. */
  datatype World = World(lib: Library, now: nat, slot: Option<Slot>, calls: map<CallId, Call>,
                         looks: seq<Look>, edits: seq<Edit>)
  {
    function At(c: CallId): Call {
      if c in calls then calls[c] else Idle
    }

    function Move(c: CallId, call: Call): World {
      this.(calls := calls[c := call])
    }
  }

  /** `Visit` stats the config of one listed directory, `Load` reads it; `Step` is any other operation of a call. */
  datatype Event =
    | Change(e: Edit, seconds: nat)
    | Visit(who: CallId, name: string)
    | Load(who: CallId, name: string)
    | Step(who: CallId)

  predicate Enabled(w: World, e: Event) {
    match e
    case Change(edit, seconds) => seconds > 0 && CanEdit(w.lib, edit) && (edit.Save? ==> edit.stamp <= w.now + seconds)
    case Visit(c, name) => w.At(c).Scanning? && name in w.At(c).left
    case Load(c, name) => w.At(c).Loading? && name in w.At(c).left
    case Step(c) => w.At(c).Scanning? || w.At(c).Loading? ==> w.At(c).left == {}
  }

  /** One operation of a call to `library_collection_tags`. */
  function StepOf(w: World, c: CallId): World {
    var n := |w.edits|;
    match w.At(c)
    case Idle =>
      w.Move(c, if w.lib.root.Some? then Listing(n, w.lib.root.value) else Returning(n, n, 0, Walk(n, n, {})))
    case Listing(since, newest) => w.Move(c, Scanning(since, newest, w.lib.dirs))
    case Scanning(since, newest, _) => w.Move(c, Keyed(since, n, newest))
    case Keyed(since, until, key) =>
      w.Move(c, if w.slot.Some? && w.slot.value.key == key then Returning(since, until, key, w.slot.value.walk)
                else Walking(since, until, key))
    case Walking(since, until, key) => w.Move(c, Loading(since, until, key, Walk(n, n, {}), w.lib.dirs))
    case Loading(since, until, key, walk, _) => w.Move(c, Storing(since, until, key, walk))
    case Storing(since, until, key, walk) =>
      // A key that another call stored meanwhile stays as it is.
      (if w.slot.Some? && w.slot.value.key == key then w else w.(slot := Some(Slot(key, walk))))
        .Move(c, Returning(since, until, key, walk))
    case Returning(_, _, _, _) => w.Move(c, Idle)
  }

  /** What loading the config of `name` yields: nothing if there is none. */
  function TagsIn(lib: Library, name: string): set<string> {
    if name in lib.configs then lib.configs[name].tags else {}
  }

  function Apply(w: World, e: Event): World
    requires Enabled(w, e)
  {
    match e
    case Change(edit, seconds) =>
      var t := w.now + seconds;
      var lib := Edited(w.lib, edit, t);
      w.(lib := lib, now := t, looks := w.looks + [Look(lib, t)], edits := w.edits + [edit])
    case Visit(c, name) =>
      var call := w.At(c);
      w.Move(c, Scanning(call.since,
                         if name in w.lib.configs then Max(call.newest, w.lib.configs[name].mtime) else call.newest,
                         call.left - {name}))
    case Load(c, name) =>
      var call := w.At(c);
      w.Move(c, Loading(call.since, call.until, call.key,
                        Walk(call.walk.from, |w.edits|, call.walk.tags + TagsIn(w.lib, name)), call.left - {name}))
    case Step(c) => StepOf(w, c)
  }

  ghost predicate Possible(w: World, run: seq<Event>)
    decreases run
  {
    run == [] || (Enabled(w, run[0]) && Possible(Apply(w, run[0]), run[1..]))
  }

  function After(w: World, run: seq<Event>): World
    requires Possible(w, run)
    decreases run
  {
    if run == [] then w else After(Apply(w, run[0]), run[1..])
  }

  /** Every edit of the run makes its own time the newest mtime. */
  ghost predicate AllNoticed(w: World, run: seq<Event>)
    requires Possible(w, run)
    decreases run
  {
    run == [] || ((run[0].Change? ==> Noticed(run[0].e, Apply(w, run[0]).now))
                  && AllNoticed(Apply(w, run[0]), run[1..]))
  }

  /** A process that has just started, on any directory. */
  ghost predicate Fresh(w: World) {
    && Sound(w.lib, w.now) && w.slot.None? && w.calls == map[] && w.edits == []
    && |w.looks| == 1 && w.looks[0].lib == w.lib && w.looks[0].date <= w.now
    && (w.lib.root.Some? ==> IsNewest(w.lib, w.looks[0].date))
  }

  // ---------------------------------------------------------------------------------------------
  // Invariant
  // ---------------------------------------------------------------------------------------------

  /** `m` is the time of an edit, or no later than the oldest look. */
  ghost predicate HasOrigin(w: World, m: nat) {
    w.looks != [] && (m <= w.looks[0].date || exists j :: 0 <= j < |w.looks| && w.looks[j].date == m)
  }

  ghost predicate LooksAreDated(w: World) {
    && |w.looks| == |w.edits| + 1 && w.looks[|w.edits|].lib == w.lib && w.looks[|w.edits|].date <= w.now
    && (forall i, j :: 0 <= i < j < |w.looks| ==> w.looks[i].date < w.looks[j].date)
  }

  /** The newest mtime is the time of the last edit, and every mtime has an origin. */
  ghost predicate CurrentIsDated(w: World)
    requires LooksAreDated(w)
  {
    && (w.lib.root.Some? ==> IsNewest(w.lib, w.looks[|w.edits|].date) && HasOrigin(w, w.lib.root.value))
    && forall name :: name in w.lib.configs ==> HasOrigin(w, w.lib.configs[name].mtime)
  }

  /** At every look of the walk, the config of `name` carries `tag`. */
  ghost predicate CarriedThroughout(looks: seq<Look>, from: nat, to: nat, name: string, tag: string)
    requires from <= to < |looks|
  {
    forall i :: from <= i <= to ==> tag in TagsIn(looks[i].lib, name)
  }

  /**
   * Each collected tag was carried at some look of the walk, and each tag that one config carried throughout
   * it was collected, apart from the configs in `left`, which are still to be loaded.
   */
  ghost predicate Collecting(looks: seq<Look>, walk: Walk, left: set<string>) {
    && walk.from <= walk.to < |looks|
    && (forall tag :: tag in walk.tags ==> exists i :: walk.from <= i <= walk.to && tag in TagsOf(looks[i].lib))
    && forall name, tag :: name !in left && CarriedThroughout(looks, walk.from, walk.to, name, tag) ==> tag in walk.tags
  }

  ghost predicate Collected(looks: seq<Look>, walk: Walk) {
    Collecting(looks, walk, {})
  }

  /** The walk began no earlier than the look whose date is `key`. */
  ghost predicate Follows(looks: seq<Look>, key: nat, from: nat) {
    forall a :: 0 <= a < |looks| && looks[a].date == key ==> a <= from
  }

  ghost predicate Kept(w: World, key: nat, walk: Walk) {
    key <= w.now && Collected(w.looks, walk) && Follows(w.looks, key, walk.from)
  }

  /** An edit that takes a listed directory away. */
  predicate Unlists(e: Edit) {
    e.Remove? || e.Rename? || e.RemoveRoot?
  }

  predicate Calm(edits: seq<Edit>, since: nat, until: nat)
    requires since <= until <= |edits|
  {
    forall k :: since <= k < until ==> !Unlists(edits[k])
  }

  /** The scan has read, or has still to read, a file as new as the look at which its call began. */
  ghost predicate Ahead(w: World, since: nat, newest: nat, left: set<string>)
    requires since < |w.looks|
  {
    || newest >= w.looks[since].date
    || exists name :: name in left && name in w.lib.configs && w.lib.configs[name].mtime >= w.looks[since].date
  }

  ghost predicate ScanIsSound(w: World, since: nat, newest: nat, left: set<string>) {
    && since <= |w.edits| < |w.looks| && newest <= w.now && HasOrigin(w, newest)
    && (Calm(w.edits, since, |w.edits|) ==> Ahead(w, since, newest, left))
  }

  ghost predicate KeyIsSound(w: World, since: nat, until: nat, key: nat) {
    && since <= until <= |w.edits| < |w.looks| && key <= w.now && HasOrigin(w, key)
    && (Calm(w.edits, since, until) ==> key >= w.looks[since].date)
  }

  ghost predicate CallIsSound(w: World, call: Call) {
    match call
    case Idle => true
    case Listing(since, newest) => ScanIsSound(w, since, newest, w.lib.dirs)
    case Scanning(since, newest, left) => ScanIsSound(w, since, newest, left)
    case Keyed(since, until, key) => KeyIsSound(w, since, until, key)
    case Walking(since, until, key) => KeyIsSound(w, since, until, key)
    case Loading(since, until, key, walk, left) =>
      && KeyIsSound(w, since, until, key) && since <= walk.from
      && Collecting(w.looks, walk, left) && Follows(w.looks, key, walk.from)
    case Storing(since, until, key, walk) =>
      KeyIsSound(w, since, until, key) && since <= walk.from && Kept(w, key, walk)
    case Returning(since, until, key, walk) =>
      && since <= until <= |w.edits| < |w.looks| && Collected(w.looks, walk)
      && (Calm(w.edits, since, until) || key >= w.looks[since].date ==> since <= walk.from)
  }

  ghost predicate Inv(w: World) {
    && Sound(w.lib, w.now) && LooksAreDated(w) && CurrentIsDated(w)
    && (w.slot.Some? ==> Kept(w, w.slot.value.key, w.slot.value.walk))
    && forall c :: CallIsSound(w, w.At(c))
  }

  lemma FreshIsSound(w: World)
    requires Fresh(w)
    ensures Inv(w)
  {
    hide TagsOf;
  }

  // ---------------------------------------------------------------------------------------------
  // Edits
  // ---------------------------------------------------------------------------------------------

  /** A noticed edit dates one file or the directory, and takes everything else over. */
  lemma EditDates(lib: Library, e: Edit, now: nat, t: nat)
    requires Sound(lib, now) && CanEdit(lib, e) && now < t && Noticed(e, t)
    ensures var lib' := Edited(lib, e, t);
            && (lib'.root.Some? ==> IsNewest(lib', t) && (lib'.root == Some(t) || lib'.root == lib.root))
            && (forall name :: name in lib'.configs ==>
                  lib'.configs[name].mtime == t
                  || exists from :: from in lib.configs && lib.configs[from].mtime == lib'.configs[name].mtime)
            && (!Unlists(e) ==> forall name :: name in lib.configs ==>
                  name in lib'.configs && lib'.configs[name].mtime >= lib.configs[name].mtime)
  {
    EditIsSound(lib, e, now, t);
    var lib' := Edited(lib, e, t);
    if e.Save? { assert lib'.configs[e.name].mtime == t; }
    if e.Rename? && e.name in lib.configs { assert lib'.configs[e.to] == lib.configs[e.name]; }
  }

  lemma MoreToCollect(looks: seq<Look>, more: seq<Look>, walk: Walk, left: set<string>)
    requires looks <= more && Collecting(looks, walk, left)
    ensures Collecting(more, walk, left)
  {
    hide TagsOf, TagsIn;
    assert forall i :: 0 <= i < |looks| ==> more[i] == looks[i];
    forall name, tag | name !in left && CarriedThroughout(more, walk.from, walk.to, name, tag)
      ensures tag in walk.tags
    {
      assert CarriedThroughout(looks, walk.from, walk.to, name, tag);
    }
    forall tag | tag in walk.tags ensures exists i :: walk.from <= i <= walk.to && tag in TagsOf(more[i].lib) {
      var i :| walk.from <= i <= walk.to && tag in TagsOf(looks[i].lib);
      assert tag in TagsOf(more[i].lib);
    }
  }

  /** What was there before the new look is still there. */
  lemma MoreLooks(w: World, w': World)
    requires LooksAreDated(w) && w.looks <= w'.looks && w.now <= w'.now
    requires forall i :: |w.looks| <= i < |w'.looks| ==> w'.looks[i].date > w.now
    ensures forall m: nat :: HasOrigin(w, m) ==> HasOrigin(w', m)
    ensures forall key: nat, from: nat :: key <= w.now && Follows(w.looks, key, from) ==> Follows(w'.looks, key, from)
    ensures forall walk, left :: Collecting(w.looks, walk, left) ==> Collecting(w'.looks, walk, left)
  {
    hide TagsOf, Collecting;
    forall walk, left | Collecting(w.looks, walk, left) ensures Collecting(w'.looks, walk, left) {
      MoreToCollect(w.looks, w'.looks, walk, left);
    }
  }

  lemma ChangeDates(w: World, e: Event)
    requires Inv(w) && Enabled(w, e) && e.Change? && Noticed(e.e, Apply(w, e).now)
    ensures LooksAreDated(Apply(w, e)) && CurrentIsDated(Apply(w, e)) && Sound(Apply(w, e).lib, Apply(w, e).now)
  {
    hide TagsOf, Edited, CanEdit, IsNewest, CallIsSound, Kept;
    var w' := Apply(w, e);
    EditIsSound(w.lib, e.e, w.now, w'.now);
    EditDates(w.lib, e.e, w.now, w'.now);
    MoreLooks(w, w');
    assert w'.looks[|w'.edits|] == Look(w'.lib, w'.now);
    assert HasOrigin(w', w'.now);
  }

  lemma CalmBefore(edits: seq<Edit>, e: Edit, since: nat)
    requires since <= |edits| && Calm(edits + [e], since, |edits| + 1)
    ensures Calm(edits, since, |edits|) && !Unlists(e)
  {
    hide Unlists;
    var more := edits + [e];
    assert more[|edits|] == e;
    assert forall k :: since <= k < |edits| ==> more[k] == edits[k];
  }

  lemma AheadSurvives(w: World, e: Event, since: nat, newest: nat, left: set<string>)
    requires Inv(w) && Enabled(w, e) && e.Change? && Noticed(e.e, Apply(w, e).now) && !Unlists(e.e)
    requires since < |w.looks| && Ahead(w, since, newest, left)
    ensures Ahead(Apply(w, e), since, newest, left)
  {
    hide TagsOf, Edited, CanEdit, IsNewest, CallIsSound, Kept, CurrentIsDated, Unlists;
    EditDates(w.lib, e.e, w.now, Apply(w, e).now);
    var w' := Apply(w, e);
    assert w'.looks[since] == w.looks[since];
  }

  lemma ScanSurvives(w: World, e: Event, since: nat, newest: nat, left: set<string>)
    requires Inv(w) && Enabled(w, e) && e.Change? && Noticed(e.e, Apply(w, e).now)
             && ScanIsSound(w, since, newest, left)
    ensures ScanIsSound(Apply(w, e), since, newest, left)
  {
    hide TagsOf, Edited, CanEdit, IsNewest, CallIsSound, Kept, Calm, Ahead, CurrentIsDated, HasOrigin;
    var w' := Apply(w, e);
    MoreLooks(w, w');
    if Calm(w'.edits, since, |w'.edits|) {
      CalmBefore(w.edits, e.e, since);
      AheadSurvives(w, e, since, newest, left);
    }
  }

  lemma ListingSurvives(w: World, e: Event, since: nat, newest: nat)
    requires Inv(w) && Enabled(w, e) && e.Change? && Noticed(e.e, Apply(w, e).now)
    requires ScanIsSound(w, since, newest, w.lib.dirs)
    ensures ScanIsSound(Apply(w, e), since, newest, Apply(w, e).lib.dirs)
  {
    hide TagsOf, Edited, CanEdit, IsNewest, CallIsSound, Kept;
    ScanSurvives(w, e, since, newest, w.lib.dirs);
    EditIsSound(w.lib, e.e, w.now, Apply(w, e).now);
  }

  lemma KeySurvives(w: World, w': World, since: nat, until: nat)
    requires since <= until <= |w.edits| && w.edits <= w'.edits
    ensures Calm(w'.edits, since, until) <==> Calm(w.edits, since, until)
  {
  }

  lemma CallSurvives(w: World, e: Event, call: Call)
    requires Inv(w) && Enabled(w, e) && e.Change? && Noticed(e.e, Apply(w, e).now) && CallIsSound(w, call)
    ensures CallIsSound(Apply(w, e), call)
  {
    hide TagsOf, Edited, CanEdit, IsNewest, Calm, Ahead;
    var w' := Apply(w, e);
    MoreLooks(w, w');
    match call
    case Idle =>
    case Listing(since, newest) => ListingSurvives(w, e, since, newest);
    case Scanning(since, newest, left) => ScanSurvives(w, e, since, newest, left);
    case _ => KeySurvives(w, w', call.since, call.until);
  }

  lemma ChangeKeeps(w: World, e: Event)
    requires Inv(w) && Enabled(w, e) && e.Change? && Noticed(e.e, Apply(w, e).now)
    ensures Inv(Apply(w, e))
  {
    hide TagsOf, Edited, CanEdit, IsNewest, CallIsSound, CurrentIsDated, Collecting, Follows;
    var w' := Apply(w, e);
    ChangeDates(w, e);
    MoreLooks(w, w');
    forall c ensures CallIsSound(w', w'.At(c)) {
      assert w'.At(c) == w.At(c);
      CallSurvives(w, e, w.At(c));
    }
  }

  // ---------------------------------------------------------------------------------------------
  // Calls
  // ---------------------------------------------------------------------------------------------

  /** Nothing about the looks changes when a call takes a step. */
  lemma SameLooks(w: World, w': World, call: Call)
    requires w'.lib == w.lib && w'.now == w.now && w'.looks == w.looks && w'.edits == w.edits
    ensures CallIsSound(w, call) ==> CallIsSound(w', call)
    ensures forall key: nat, walk :: Kept(w, key, walk) ==> Kept(w', key, walk)
    ensures LooksAreDated(w) && CurrentIsDated(w) ==> LooksAreDated(w') && CurrentIsDated(w')
  {
    hide TagsOf, IsNewest, Collecting;
  }

  /** A slot under a key as new as the call's first look was walked since that look. */
  lemma HitIsTrue(w: World, since: nat, key: nat, walk: Walk)
    requires LooksAreDated(w) && since < |w.looks| && HasOrigin(w, key) && Kept(w, key, walk)
    requires key >= w.looks[since].date
    ensures since <= walk.from
  {
    hide TagsOf, Collecting;
    if key <= w.looks[0].date {
      assert since == 0;
    } else {
      var j :| 0 <= j < |w.looks| && w.looks[j].date == key;
      assert j >= since;
    }
  }

  /** A walk that has only been listed has collected nothing, and what it did not list is not there. */
  lemma ListedIsCollecting(w: World)
    requires LooksAreDated(w) && Sound(w.lib, w.now)
    ensures Collecting(w.looks, Walk(|w.edits|, |w.edits|, {}), w.lib.dirs)
  {
    hide TagsOf;
    var n := |w.edits|;
    forall name, tag | name !in w.lib.dirs ensures !CarriedThroughout(w.looks, n, n, name, tag) {
      assert tag !in TagsIn(w.looks[n].lib, name);
    }
  }

  lemma LoadedIsCollecting(w: World, walk: Walk, left: set<string>, name: string)
    requires LooksAreDated(w) && Collecting(w.looks, walk, left)
    ensures Collecting(w.looks, Walk(walk.from, |w.edits|, walk.tags + TagsIn(w.lib, name)), left - {name})
  {
    hide LooksAreDated;
    assert LooksAreDated(w);
    var n := |w.edits|;
    var next := Walk(walk.from, n, walk.tags + TagsIn(w.lib, name));
    assert w.looks[n].lib == w.lib && walk.to <= n by { EndsNow(w); }
    forall tag | tag in next.tags ensures exists i :: walk.from <= i <= n && tag in TagsOf(w.looks[i].lib) {
      if tag in walk.tags {
        var i :| walk.from <= i <= walk.to && tag in TagsOf(w.looks[i].lib);
      } else {
        assert tag in TagsOf(w.looks[n].lib);
      }
    }
    hide TagsOf;
    forall other, tag | other !in left - {name} && CarriedThroughout(w.looks, walk.from, n, other, tag)
      ensures tag in next.tags
    {
      if other == name {
        assert tag in TagsIn(w.looks[n].lib, name);
      } else {
        assert CarriedThroughout(w.looks, walk.from, walk.to, other, tag);
      }
    }
  }

  lemma EndsNow(w: World)
    requires LooksAreDated(w)
    ensures |w.looks| == |w.edits| + 1 && w.looks[|w.edits|].lib == w.lib
  {
  }

  /** A walk during which nothing was edited has collected exactly the tags of that moment. */
  lemma QuietWalkIsExact(looks: seq<Look>, walk: Walk)
    requires Collected(looks, walk) && walk.from == walk.to
    ensures walk.tags == TagsOf(looks[walk.from].lib)
  {
    var lib := looks[walk.from].lib;
    forall tag | tag in TagsOf(lib) ensures tag in walk.tags {
      var name :| name in lib.configs && tag in lib.configs[name].tags;
      assert CarriedThroughout(looks, walk.from, walk.to, name, tag);
    }
  }

  lemma StartIsSound(w: World)
    requires Inv(w) && w.lib.root.Some?
    ensures ScanIsSound(w, |w.edits|, w.lib.root.value, w.lib.dirs)
  {
    hide TagsOf, CallIsSound, Kept;
  }

  lemma NothingIsCollected(w: World)
    requires LooksAreDated(w) && Sound(w.lib, w.now) && w.lib.root.None?
    ensures Collected(w.looks, Walk(|w.edits|, |w.edits|, {}))
  {
    ListedIsCollecting(w);
    assert w.lib.dirs == {};
  }

  lemma NextIsSound(w: World, c: CallId)
    requires Inv(w) && Enabled(w, Step(c))
    ensures CallIsSound(w, StepOf(w, c).At(c))
  {
    hide TagsOf, IsNewest, HasOrigin, Collecting;
    var n := |w.edits|;
    assert CallIsSound(w, w.At(c));
    match w.At(c)
    case Idle => if w.lib.root.Some? { StartIsSound(w); } else { NothingIsCollected(w); }
    case Keyed(since, until, key) =>
      if w.slot.Some? && w.slot.value.key == key && key >= w.looks[since].date {
        HitIsTrue(w, since, key, w.slot.value.walk);
      }
    case Walking(since, until, key) => ListedIsCollecting(w);
    case _ =>
  }

  lemma StepKeeps(w: World, c: CallId)
    requires Inv(w) && Enabled(w, Step(c))
    ensures Inv(StepOf(w, c))
  {
    hide TagsOf, IsNewest, CurrentIsDated, LooksAreDated, Kept;
    var w' := StepOf(w, c);
    NextIsSound(w, c);
    assert CallIsSound(w, w.At(c));
    forall d ensures CallIsSound(w', w'.At(d)) {
      assert d != c ==> w'.At(d) == w.At(d) && CallIsSound(w, w.At(d));
      SameLooks(w, w', w'.At(d));
    }
    SameLooks(w, w', Idle);
  }

  lemma VisitKeeps(w: World, c: CallId, name: string)
    requires Inv(w) && Enabled(w, Visit(c, name))
    ensures Inv(Apply(w, Visit(c, name)))
  {
    hide TagsOf, IsNewest, Kept;
    var w' := Apply(w, Visit(c, name));
    var call, call' := w.At(c), w'.At(c);
    assert CallIsSound(w, call);
    assert CallIsSound(w, call') by {
      if Ahead(w, call.since, call.newest, call.left) { assert Ahead(w, call.since, call'.newest, call'.left); }
    }
    hide CallIsSound, CurrentIsDated;
    forall d ensures CallIsSound(w', w'.At(d)) {
      assert d != c ==> w'.At(d) == w.At(d) && CallIsSound(w, w.At(d));
      SameLooks(w, w', w'.At(d));
    }
    SameLooks(w, w', Idle);
  }

  lemma LoadKeeps(w: World, c: CallId, name: string)
    requires Inv(w) && Enabled(w, Load(c, name))
    ensures Inv(Apply(w, Load(c, name)))
  {
    hide TagsOf, IsNewest, Kept, Collecting, KeyIsSound, HasOrigin;
    var w' := Apply(w, Load(c, name));
    assert CallIsSound(w, w.At(c));
    LoadedIsCollecting(w, w.At(c).walk, w.At(c).left, name);
    assert CallIsSound(w, w'.At(c));
    hide CallIsSound, CurrentIsDated;
    forall d ensures CallIsSound(w', w'.At(d)) {
      assert d != c ==> w'.At(d) == w.At(d) && CallIsSound(w, w.At(d));
      SameLooks(w, w', w'.At(d));
    }
    SameLooks(w, w', Idle);
  }

  lemma EventKeeps(w: World, e: Event)
    requires Inv(w) && Enabled(w, e) && (e.Change? ==> Noticed(e.e, Apply(w, e).now))
    ensures Inv(Apply(w, e))
  {
    hide Inv, TagsOf;
    match e
    case Change(_, _) => ChangeKeeps(w, e);
    case Visit(c, name) => VisitKeeps(w, c, name);
    case Load(c, name) => LoadKeeps(w, c, name);
    case Step(c) => StepKeeps(w, c);
  }

  lemma {:induction false} InvAlongRun(w: World, run: seq<Event>)
    requires Inv(w) && Possible(w, run) && AllNoticed(w, run)
    ensures Inv(After(w, run))
    decreases run
  {
    hide Inv, Apply, Enabled, Noticed;
    if run != [] {
      EventKeeps(w, run[0]);
      InvAlongRun(Apply(w, run[0]), run[1..]);
    }
  }

  lemma WalkIsWithin(looks: seq<Look>, walk: Walk)
    requires Collected(looks, walk)
    ensures walk.from <= walk.to < |looks|
  {
  }

  /** A slot under the newest mtime was walked after the last edit. */
  lemma CurrentEntryIsTrue(w: World)
    requires Inv(w) && w.slot.Some? && IsNewest(w.lib, w.slot.value.key)
    ensures w.slot.value.walk.tags == TagsOf(w.lib)
  {
    hide TagsOf, CallIsSound, Sound, Collecting;
    var walk := w.slot.value.walk;
    assert w.looks[|w.edits|].date == w.slot.value.key;
    assert |w.edits| <= walk.from <= walk.to <= |w.edits| by { WalkIsWithin(w.looks, walk); }
    QuietWalkIsExact(w.looks, walk);
  }

  /**
   * In every interleaving in which each edit makes its own time the newest mtime, a cached entry whose
   * key is the newest mtime equals a fresh walk, even though the key was taken file by file and the walk
   * loaded one config after another.
   */
  lemma CurrentEntryIsFreshWalk(w: World, run: seq<Event>)
    requires Fresh(w) && Possible(w, run) && AllNoticed(w, run)
    ensures var s := After(w, run);
            s.slot.Some? && IsNewest(s.lib, s.slot.value.key) ==> s.slot.value.walk.tags == TagsOf(s.lib)
  {
    hide TagsOf, Inv, Fresh, IsNewest;
    FreshIsSound(w);
    InvAlongRun(w, run);
    var s := After(w, run);
    if s.slot.Some? && IsNewest(s.lib, s.slot.value.key) { CurrentEntryIsTrue(s); }
  }

  /**
   * In every such interleaving the tags a call returns were collected by a walk within that call, if no
   * listed directory was taken away between its first stat and its key, or if that key is at least as new
   * as the directory was when the call began: each tag was carried at some moment of the walk, and each tag
   * that a config carried throughout the walk is there. Without an edit during the walk they are exactly
   * the tags of that moment.
   */
  lemma CallsReturnTheTruth(w: World, run: seq<Event>, c: CallId)
    requires Fresh(w) && Possible(w, run) && AllNoticed(w, run) && After(w, run).At(c).Returning?
    ensures var s := After(w, run);
            var call := s.At(c);
            && call.since <= call.until <= |s.edits| < |s.looks| && Collected(s.looks, call.walk)
            && (Calm(s.edits, call.since, call.until) || call.key >= s.looks[call.since].date ==>
                call.since <= call.walk.from)
            && (call.walk.from == call.walk.to ==> call.walk.tags == TagsOf(s.looks[call.walk.from].lib))
  {
    hide TagsOf, Sound, Fresh, Collecting;
    FreshIsSound(w);
    InvAlongRun(w, run);
    var s := After(w, run);
    assert CallIsSound(s, s.At(c));
    if s.At(c).walk.from == s.At(c).walk.to { QuietWalkIsExact(s.looks, s.At(c).walk); }
  }
}
