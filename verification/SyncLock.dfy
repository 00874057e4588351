/**
 * The sync lock: many processes claim and release one wiki through a create-lock file, a heartbeat file
 * and a descriptor sidecar. Every file operation is a step of its own; a process may crash before any
 * of them.
 */
module SyncLock {
  import opened Text

  /** Seconds after which a lock or a heartbeat may be taken for a leftover. */
  const MAX_AGE := 3600

  type Pid = nat

  datatype LockFile = LockFile(mtime: nat, owner: Pid)

  /** The heartbeat file; `Torn` is one that was truncated and not yet written. */
  datatype HeartbeatFile = Absent | Torn | Heartbeat(pid: Pid, startedAt: nat)

  /** Where a process stands; `again` marks the one retry that follows a wait. */
  datatype Place =
    | Idle
    | Trying(again: bool)
    | Contended(again: bool)
    | Statted(again: bool, mtime: nat)
    | Reaping(again: bool)
    | Recreating(again: bool)
    | Lost(again: bool)
    | Waiting
    | Checking
    | Opening(startedAt: nat)
    | Writing(startedAt: nat)
    | Noting
    | Claimed
    | Clearing
    | Unlinking
    | Closing
    | Unlocking(fd: Option<Pid>)
    | Bailing
    | Crashed

  datatype World = World(
    procs: map<Pid, Place>,
    lock: Option<LockFile>,
    heartbeat: HeartbeatFile,
    sidecar: Option<Pid>,
    now: nat)
  {
    function At(p: Pid): Place {
      if p in procs then procs[p] else Idle
    }

    function Move(p: Pid, place: Place): World {
      this.(procs := procs[p := place])
    }

    predicate Live(p: Pid) {
      At(p) != Crashed
    }

    /** `heartbeat_is_stale`, of a heartbeat that could be read. */
    predicate FreshHeartbeat() {
      heartbeat.Heartbeat? && Live(heartbeat.pid) && now - heartbeat.startedAt <= MAX_AGE
    }
  }

  datatype Event = Tick(seconds: nat) | Crash(who: Pid) | Begin(who: Pid) | Step(who: Pid) | Wait(who: Pid)

  predicate Enabled(w: World, e: Event) {
    match e
    case Tick(_) => true
    case Crash(p) => w.Live(p)
    case Begin(p) => w.At(p).Idle? || w.At(p).Claimed?
    case Wait(p) => w.At(p) == Lost(false)
    case Step(p) => !w.At(p).Idle? && !w.At(p).Claimed? && !w.At(p).Crashed?
  }

  /** Exclusive creation of the lock file. */
  function Create(w: World, p: Pid, otherwise: Place): World {
    if w.lock.None? then w.(lock := Some(LockFile(w.now, p))).Move(p, Checking) else w.Move(p, otherwise)
  }

  /** One file operation of process `p`, by the place it stands at. */
  function StepOf(w: World, p: Pid): World
    requires Enabled(w, Step(p))
  {
    match w.At(p)
    // acquire_create_lock
    case Trying(again) => Create(w, p, Contended(again))
    case Contended(again) => w.Move(p, if w.lock.Some? then Statted(again, w.lock.value.mtime) else Lost(again))
    case Statted(again, mtime) => w.Move(p, if w.now - mtime > MAX_AGE then Reaping(again) else Lost(again))
    case Reaping(again) => w.(lock := None).Move(p, Recreating(again))
    case Recreating(again) => Create(w, p, Lost(again))
    // acquire_heartbeat
    case Lost(_) => w.Move(p, Idle)
    case Waiting => w.Move(p, if w.FreshHeartbeat() then Waiting else Trying(true))
    case Checking => w.Move(p, if w.FreshHeartbeat() then Bailing else Opening(w.now))
    case Opening(startedAt) => w.(heartbeat := Torn).Move(p, Writing(startedAt))
    case Writing(startedAt) => w.(heartbeat := Heartbeat(p, startedAt)).Move(p, Noting)
    case Noting => w.(sidecar := Some(p)).Move(p, Claimed)
    case Bailing => w.(lock := None).Move(p, Idle)
    // release_heartbeat
    case Clearing => w.Move(p, if w.heartbeat.Absent? then Closing else Unlinking)
    case Unlinking => w.(heartbeat := Absent).Move(p, Closing)
    case Closing => w.(sidecar := None).Move(p, Unlocking(w.sidecar))
    case Unlocking(_) => w.(lock := None).Move(p, Idle)
  }

  function Apply(w: World, e: Event): World
    requires Enabled(w, e)
  {
    match e
    case Tick(seconds) => w.(now := w.now + seconds)
    case Crash(p) => w.Move(p, Crashed)
    case Begin(p) => w.Move(p, if w.At(p).Idle? then Trying(false) else Clearing)
    case Wait(p) => w.Move(p, Waiting)
    case Step(p) => StepOf(w, p)
  }

  ghost predicate Possible(w: World, run: seq<Event>)
    decreases run
  {
    run == [] || (Enabled(w, run[0]) && Possible(Apply(w, run[0]), run[1..]))
  }

  function After(w: World, run: seq<Event>): World
    requires Possible(w, run)
    decreases run
  {
    if run == [] then w else After(Apply(w, run[0]), run[1..])
  }

  /** A wiki no live process has touched yet: whatever files there are were left by crashed ones. */
  ghost predicate Leftover(w: World) {
    && (forall p :: p in w.procs ==> w.procs[p].Crashed?)
    && (w.lock.Some? ==> !w.Live(w.lock.value.owner) && w.lock.value.mtime <= w.now)
    && (w.heartbeat.Heartbeat? ==> !w.Live(w.heartbeat.pid))
  }

  // ---------------------------------------------------------------------------------------------
  // Safety
  // ---------------------------------------------------------------------------------------------

  /** From winning the create until the lock file is unlinked. */
  predicate Holds(place: Place) {
    match place
    case Checking | Opening(_) | Writing(_) | Noting | Claimed => true
    case Clearing | Unlinking | Closing | Unlocking(_) | Bailing => true
    case _ => false
  }

  /** From the heartbeat being written until it is unlinked. */
  predicate Beats(place: Place) {
    place.Noting? || place.Claimed? || place.Clearing? || place.Unlinking?
  }

  /** Every process between its create and its unlock has its own lock file in place. */
  ghost predicate Guarded(w: World) {
    forall p :: Holds(w.At(p)) ==> w.lock.Some? && w.lock.value.owner == p
  }

  /** A step that unlinks, as a leftover, the lock file of a process that is still alive. */
  predicate ReapsLive(w: World, e: Event) {
    e.Step? && w.At(e.who).Reaping? && w.lock.Some? && w.Live(w.lock.value.owner)
  }

  /** What a holder finds in the shared files, by the place it stands at. */
  ghost predicate FilesAreOwn(w: World, p: Pid) {
    && (Beats(w.At(p)) ==> w.heartbeat.Heartbeat? && w.heartbeat.pid == p)
    && (w.At(p).Writing? ==> w.heartbeat == Torn)
    && (w.At(p).Closing? || w.At(p).Unlocking? ==> w.heartbeat == Absent)
    && (w.At(p).Claimed? || w.At(p).Clearing? || w.At(p).Unlinking? || w.At(p).Closing? ==> w.sidecar == Some(p))
    && (w.At(p).Unlocking? ==> w.At(p).fd == Some(p))
    && !w.At(p).Bailing?
  }

  ghost predicate Inv(w: World) {
    && Guarded(w)
    && (w.lock.Some? && w.Live(w.lock.value.owner) ==> Holds(w.At(w.lock.value.owner)))
    && (w.heartbeat.Heartbeat? && w.Live(w.heartbeat.pid) ==> Beats(w.At(w.heartbeat.pid)))
    && forall p :: Holds(w.At(p)) ==> FilesAreOwn(w, p)
  }

  lemma LeftoverIsSafe(w: World)
    requires Leftover(w)
    ensures Inv(w)
  {
  }

  lemma OthersStay(w: World, e: Event, p: Pid)
    requires Enabled(w, e) && (e.Tick? || p != e.who)
    ensures Apply(w, e).At(p) == w.At(p)
  {
  }

  /** A holder is alone, so only its own place matters. */
  lemma HolderSteps(w: World, p: Pid)
    requires Inv(w) && Enabled(w, Step(p)) && Holds(w.At(p))
    ensures Inv(StepOf(w, p))
  {
    var w' := StepOf(w, p);
    forall q | q != p ensures w'.At(q) == w.At(q) && !Holds(w'.At(q)) {
      OthersStay(w, Step(p), q);
    }
    assert FilesAreOwn(w, p);
  }

  /** An outsider touches no file but the lock, and that only when nobody holds it. */
  lemma OutsiderSteps(w: World, p: Pid)
    requires Inv(w) && Enabled(w, Step(p)) && !Holds(w.At(p)) && !ReapsLive(w, Step(p))
    ensures Inv(StepOf(w, p))
  {
    hide FilesAreOwn;
    var w' := StepOf(w, p);
    forall q | q != p ensures w'.At(q) == w.At(q) && (Holds(w.At(q)) ==> w'.lock == w.lock && FilesAreOwn(w', q)) {
      OthersStay(w, Step(p), q);
      if Holds(w.At(q)) { SameFiles(w, w', q); }
    }
    if w'.At(p).Checking? { NewHolder(w', p); }
  }

  lemma SameFiles(w: World, w': World, q: Pid)
    requires FilesAreOwn(w, q) && w'.At(q) == w.At(q) && w'.heartbeat == w.heartbeat && w'.sidecar == w.sidecar
    ensures FilesAreOwn(w', q)
  {
  }

  lemma NewHolder(w: World, p: Pid)
    requires w.At(p).Checking?
    ensures FilesAreOwn(w, p)
  {
  }

  lemma OtherEventKeeps(w: World, e: Event)
    requires Inv(w) && Enabled(w, e) && !e.Step?
    ensures Inv(Apply(w, e))
  {
    var w' := Apply(w, e);
    forall q | e.Tick? || q != e.who ensures w'.At(q) == w.At(q) && (Holds(w.At(q)) ==> FilesAreOwn(w', q)) {
      OthersStay(w, e, q);
    }
    if e.Begin? && w.At(e.who).Claimed? { assert FilesAreOwn(w, e.who); }
  }

  /** Every step keeps the invariant, unless it reaps a live holder's lock. */
  lemma StepKeeps(w: World, e: Event)
    requires Inv(w) && Enabled(w, e) && !ReapsLive(w, e)
    ensures Inv(Apply(w, e))
  {
    hide Inv;
    if !e.Step? { OtherEventKeeps(w, e); }
    else if Holds(w.At(e.who)) { HolderSteps(w, e.who); }
    else { OutsiderSteps(w, e.who); }
  }

  /** Reaping a live holder's lock leaves that holder without one. */
  lemma ReapingLiveUnguards(w: World, e: Event)
    requires Inv(w) && Enabled(w, e) && ReapsLive(w, e)
    ensures !Guarded(Apply(w, e))
  {
    var p := w.lock.value.owner;
    assert Apply(w, e).At(p) == w.At(p);
  }
}
