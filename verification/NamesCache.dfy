/**
 * The one-slot cache of collection names: calls that stat, look up, walk and store in separate steps,
 * while other processes edit the directory in between.
 */
module NamesCache {
  import opened Text
  import opened CollectionsDir

  type CallId = nat

  /** A distinct look of the directory: its mtime and the names listed. */
  datatype Look = Look(root: Option<nat>, names: set<string>)

  /** Where a call stands; `since` is the look that was current when it began. */
  datatype Call =
    | Idle
    | Entered(since: nat)
    | Keyed(since: nat, key: nat)
    | Walking(since: nat, key: nat)
    | Storing(since: nat, key: nat, value: set<string>)
    | Returning(since: nat, value: set<string>)

  datatype World = World(lib: Library, now: nat, slot: Option<Entry>, calls: map<CallId, Call>, looks: seq<Look>) {
    function At(c: CallId): Call {
      if c in calls then calls[c] else Idle
    }

    function Move(c: CallId, call: Call): World {
      this.(calls := calls[c := call])
    }
  }

  datatype Event = Change(e: Edit, seconds: nat) | Step(who: CallId)

  /** Time strictly advances with every edit. */
  predicate Enabled(w: World, e: Event) {
    match e
    case Change(edit, seconds) => seconds > 0 && CanEdit(w.lib, edit) && (edit.Save? ==> edit.stamp <= w.now + seconds)
    case Step(_) => w.looks != []
  }

  function Seen(lib: Library): Look {
    Look(lib.root, lib.dirs)
  }

  /** One operation of a call to `library_collection_names`. */
  function StepOf(w: World, c: CallId): World
    requires w.looks != []
  {
    match w.At(c)
    case Idle => w.Move(c, Entered(|w.looks| - 1))
    case Entered(since) => w.Move(c, if w.lib.root.Some? then Keyed(since, w.lib.root.value) else Returning(since, {}))
    case Keyed(since, key) =>
      w.Move(c, if w.slot.Some? && w.slot.value.key == key then Returning(since, w.slot.value.value)
                else Walking(since, key))
    case Walking(since, key) => w.Move(c, Storing(since, key, w.lib.dirs))
    case Storing(since, key, value) =>
      // A key that another call stored meanwhile stays as it is.
      (if w.slot.Some? && w.slot.value.key == key then w else w.(slot := Some(Entry(key, value))))
        .Move(c, Returning(since, value))
    case Returning(_, _) => w.Move(c, Idle)
  }

  function Apply(w: World, e: Event): World
    requires Enabled(w, e)
  {
    match e
    case Change(edit, seconds) =>
      var lib := Edited(w.lib, edit, w.now + seconds);
      w.(lib := lib, now := w.now + seconds,
         looks := if Seen(lib) == Seen(w.lib) then w.looks else w.looks + [Seen(lib)])
    case Step(c) => StepOf(w, c)
  }

  ghost predicate Possible(w: World, run: seq<Event>)
    decreases run
  {
    run == [] || (Enabled(w, run[0]) && Possible(Apply(w, run[0]), run[1..]))
  }

  function After(w: World, run: seq<Event>): World
    requires Possible(w, run)
    decreases run
  {
    if run == [] then w else After(Apply(w, run[0]), run[1..])
  }

  // ---------------------------------------------------------------------------------------------
  // Invariant
  // ---------------------------------------------------------------------------------------------

  /** The looks in order: the last is current, and no two existing ones share an mtime. */
  ghost predicate LooksAreDated(w: World) {
    && w.looks != [] && w.looks[|w.looks| - 1] == Seen(w.lib)
    && (forall i :: 0 <= i < |w.looks| && w.looks[i].root.Some? ==> w.looks[i].root.value <= w.now)
    && forall i, j :: 0 <= i < j < |w.looks| && w.looks[i].root.Some? && w.looks[j].root.Some? ==>
         w.looks[i].root.value < w.looks[j].root.value
  }

  /** `value` was the list of names at some look from `since` on. */
  ghost predicate TrueSince(w: World, since: nat, value: set<string>) {
    exists i :: since <= i < |w.looks| && w.looks[i].names == value
  }

  /** The directory had mtime `key` at look `i`. */
  ghost predicate HadKey(w: World, i: int, key: nat) {
    0 <= i < |w.looks| && w.looks[i].root == Some(key)
  }

  /** A value kept under a key was listed no earlier than the look that carries the key. */
  ghost predicate KeptSince(w: World, key: nat, value: set<string>) {
    exists i :: HadKey(w, i, key) && TrueSince(w, i, value)
  }

  ghost predicate CallIsSound(w: World, call: Call) {
    match call
    case Idle => true
    case Entered(since) => since < |w.looks|
    case Keyed(since, key) => exists i :: since <= i && HadKey(w, i, key)
    case Walking(since, key) => exists i :: since <= i && HadKey(w, i, key)
    case Storing(since, key, value) => KeptSince(w, key, value) && TrueSince(w, since, value)
    case Returning(since, value) => TrueSince(w, since, value)
  }

  ghost predicate Inv(w: World) {
    && Sound(w.lib, w.now) && LooksAreDated(w)
    && (w.slot.Some? ==> KeptSince(w, w.slot.value.key, w.slot.value.value))
    && forall c :: CallIsSound(w, w.At(c))
  }

  /** A process that has just started, on any directory. */
  ghost predicate Fresh(w: World) {
    Sound(w.lib, w.now) && w.slot.None? && w.calls == map[] && w.looks == [Seen(w.lib)]
  }

  /** Looks are only ever added. */
  lemma MoreLooks(w: World, w': World, call: Call)
    requires w.looks <= w'.looks && CallIsSound(w, call)
    ensures CallIsSound(w', call)
  {
    KeptMore(w, w', call);
  }

  lemma KeptMore(w: World, w': World, call: Call)
    requires w.looks <= w'.looks
    ensures forall since, value :: TrueSince(w, since, value) ==> TrueSince(w', since, value)
    ensures forall i, key :: HadKey(w, i, key) ==> HadKey(w', i, key)
    ensures forall key, value :: KeptSince(w, key, value) ==> KeptSince(w', key, value)
  {
  }

  lemma ChangeKeeps(w: World, e: Event)
    requires Inv(w) && Enabled(w, e) && e.Change?
    ensures Inv(Apply(w, e))
  {
    hide CallIsSound;
    var w' := Apply(w, e);
    EditIsSound(w.lib, e.e, w.now, w'.now);
    forall c ensures CallIsSound(w', w'.At(c)) {
      assert w'.At(c) == w.At(c);
      MoreLooks(w, w', w.At(c));
    }
    KeptMore(w, w', Idle);
    LooksStayDated(w, e);
  }

  lemma LooksStayDated(w: World, e: Event)
    requires Sound(w.lib, w.now) && LooksAreDated(w) && Enabled(w, e) && e.Change?
    ensures LooksAreDated(Apply(w, e))
  {
    hide Edited, CanEdit, Sound;
    var w' := Apply(w, e);
    RootIsDated(w.lib, e.e, w'.now);
    if w'.looks != w.looks { assert w'.looks == w.looks + [Seen(w'.lib)]; }
  }

  /** Looks with the same mtime are the same look, so what was kept under a key has held since the call saw the key. */
  lemma HitIsTrue(w: World, since: nat, key: nat, value: set<string>)
    requires LooksAreDated(w) && CallIsSound(w, Keyed(since, key)) && KeptSince(w, key, value)
    ensures TrueSince(w, since, value)
  {
    var i :| since <= i && HadKey(w, i, key);
    var a :| HadKey(w, a, key) && TrueSince(w, a, value);
    assert i == a;
    var b :| a <= b < |w.looks| && w.looks[b].names == value;
  }

  /** What a walk lists now is the last look. */
  lemma WalkIsTrue(w: World, since: nat, key: nat)
    requires LooksAreDated(w) && CallIsSound(w, Walking(since, key))
    ensures KeptSince(w, key, w.lib.dirs) && TrueSince(w, since, w.lib.dirs)
  {
    var i :| since <= i && HadKey(w, i, key);
    var last := |w.looks| - 1;
    assert w.looks[last].names == w.lib.dirs;
    assert TrueSince(w, i, w.lib.dirs);
  }

  lemma EntryIsSound(w: World, since: nat)
    requires Sound(w.lib, w.now) && LooksAreDated(w) && since < |w.looks|
    ensures w.lib.root.Some? ==> CallIsSound(w, Keyed(since, w.lib.root.value))
    ensures w.lib.root.None? ==> TrueSince(w, since, {})
  {
    var last := |w.looks| - 1;
    assert w.looks[last] == Seen(w.lib);
    if w.lib.root.Some? { assert HadKey(w, last, w.lib.root.value); }
  }

  lemma NextIsSound(w: World, c: CallId)
    requires Inv(w)
    ensures CallIsSound(w, StepOf(w, c).At(c))
  {
    match w.At(c)
    case Entered(since) => EntryIsSound(w, since);
    case Keyed(since, key) =>
      if w.slot.Some? && w.slot.value.key == key { HitIsTrue(w, since, key, w.slot.value.value); }
    case Walking(since, key) => WalkIsTrue(w, since, key);
    case _ =>
  }

  lemma StepKeeps(w: World, c: CallId)
    requires Inv(w)
    ensures Inv(StepOf(w, c))
  {
    hide TrueSince, HadKey, Sound;
    var w' := StepOf(w, c);
    NextIsSound(w, c);
    forall d ensures CallIsSound(w', w'.At(d)) {
      assert d != c ==> w'.At(d) == w.At(d);
      SameLooks(w, w', w'.At(d));
    }
    KeptAcross(w, w');
  }

  lemma SameLooks(w: World, w': World, call: Call)
    requires w'.looks == w.looks
    ensures CallIsSound(w, call) ==> CallIsSound(w', call)
  {
    if CallIsSound(w, call) { MoreLooks(w, w', call); }
  }

  lemma KeptAcross(w: World, w': World)
    requires w'.looks == w.looks && w'.lib == w.lib && w'.now == w.now
    ensures LooksAreDated(w) ==> LooksAreDated(w')
    ensures forall key, value :: KeptSince(w, key, value) ==> KeptSince(w', key, value)
  {
    KeptMore(w, w', Idle);
  }

  lemma {:induction false} InvAlongRun(w: World, run: seq<Event>)
    requires Inv(w) && Possible(w, run)
    ensures Inv(After(w, run))
    decreases run
  {
    hide Inv, Apply, Enabled;
    if run != [] {
      EventKeeps(w, run[0]);
      InvAlongRun(Apply(w, run[0]), run[1..]);
    }
  }

  lemma EventKeeps(w: World, e: Event)
    requires Inv(w) && Enabled(w, e)
    ensures Inv(Apply(w, e))
  {
    hide Inv;
    if e.Change? { ChangeKeeps(w, e); } else { StepKeeps(w, e.who); }
  }

  lemma FreshIsSound(w: World)
    requires Fresh(w)
    ensures Inv(w)
  {
  }

  /**
   * In every interleaving of calls and edits: a cached entry whose key is the directory's mtime equals a
   * fresh walk.
   */
  lemma CurrentEntryIsFreshWalk(w: World, run: seq<Event>)
    requires Fresh(w) && Possible(w, run)
    ensures var s := After(w, run);
            s.slot.Some? && s.lib.root == Some(s.slot.value.key) ==> s.slot.value.value == s.lib.dirs
  {
    hide Fresh, Sound, CallIsSound;
    FreshIsSound(w);
    InvAlongRun(w, run);
    var s := After(w, run);
    if s.slot.Some? && s.lib.root == Some(s.slot.value.key) {
      var last := |s.looks| - 1;
      assert HadKey(s, last, s.slot.value.key);
      var a :| HadKey(s, a, s.slot.value.key) && TrueSince(s, a, s.slot.value.value);
      assert a == last;
    }
  }

  /** And every call returns a set of names that was true at some instant during that call. */
  lemma CallsReturnTheTruth(w: World, run: seq<Event>, c: CallId)
    requires Fresh(w) && Possible(w, run)
    ensures var s := After(w, run);
            s.At(c).Returning? ==> exists i :: s.At(c).since <= i < |s.looks| && s.looks[i].names == s.At(c).value
    ensures var s := After(w, run); s.looks != [] && s.looks[|s.looks| - 1] == Seen(s.lib)
  {
    hide Fresh, Sound;
    FreshIsSound(w);
    InvAlongRun(w, run);
    var s := After(w, run);
    assert CallIsSound(s, s.At(c));
  }

  function Steps(w: World, c: CallId, n: nat): World
    requires w.looks != []
    decreases n
  {
    if n == 0 then w else Steps(StepOf(w, c), c, n - 1)
  }

  /** A call that nobody disturbs: under the current mtime it answers from the slot, otherwise it fills the slot. */
  lemma UndisturbedCall(w: World, c: CallId)
    requires w.looks != [] && w.At(c).Idle? && w.lib.root.Some?
    ensures var key, since := w.lib.root.value, |w.looks| - 1;
            if w.slot.Some? && w.slot.value.key == key then
              Steps(w, c, 3).At(c) == Returning(since, w.slot.value.value) && Steps(w, c, 3).slot == w.slot
            else
              && Steps(w, c, 5).At(c) == Returning(since, w.lib.dirs)
              && Steps(w, c, 5).slot == Some(Entry(key, w.lib.dirs))
  {
    var w1 := StepOf(w, c);
    var w2 := StepOf(w1, c);
    var w3 := StepOf(w2, c);
    var w4 := StepOf(w3, c);
    assert Steps(w, c, 3) == Steps(w1, c, 2) == Steps(w2, c, 1) == Steps(w3, c, 0);
    assert Steps(w, c, 5) == Steps(w1, c, 4) == Steps(w2, c, 3) == Steps(w3, c, 2) == Steps(w4, c, 1);
    assert Steps(w4, c, 1) == Steps(StepOf(w4, c), c, 0);
  }
}
