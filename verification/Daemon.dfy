/**
 * The daemon lifecycle: any number of `up` and `down` commands around one pidfile and one create-lock,
 * interleaved with what the daemon processes do, and with crashes.
 *
 * The create-lock is taken by contract: one step wins it, and only when it is free or its holder crashed.
 */
module Daemon {
  import opened Text

  type Pid = int
  type Cli = int

  datatype ProcessState = Starting | Serving | Zombie | Gone

  datatype Op = Up | Down

  datatype Outcome =
    | AlreadyRunning(pid: Pid)
    | PortTaken
    | StartFailed(pid: Pid)
    | Started(pid: Pid)
    | NothingToStop
    | ClearedStale(pid: Pid)
    | Stopped(pid: Pid)
    | StopFailed(pid: Pid)
    | Interrupted

  /** Where a command stands; every stage between `Reading` and `Exiting` holds the lock. */
  datatype Stage =
    | Idle
    | Reading(op: Op)
    | Judging(op: Op, pid: Pid)
    | Identifying(op: Op, pid: Pid)
    | Clearing(pid: Pid, done: Option<Outcome>)
    | Probing
    | Spawning
    | Awaiting(child: Pid)
    | Killing(child: Pid)
    | Recording(child: Pid)
    | Terminating(pid: Pid)
    | Fading(pid: Pid, killed: bool)
    | Striking(pid: Pid)
    | Exiting(outcome: Outcome)
    | Crashed

  datatype Host = Host(
    clis: map<Cli, Stage>,
    lock: Option<Cli>,
    record: Option<Pid>,
    procs: map<Pid, ProcessState>,
    accepted: set<Pid>,
    procfs: bool)
  {
    function At(c: Cli): Stage {
      if c in clis then clis[c] else Idle
    }

    function Move(c: Cli, stage: Stage): Host {
      this.(clis := clis[c := stage])
    }

    function State(p: Pid): ProcessState {
      if p in procs then procs[p] else Gone
    }

    function Become(p: Pid, s: ProcessState): Host {
      this.(procs := procs[p := s])
    }

    predicate Live(p: Pid) {
      State(p).Starting? || State(p).Serving?
    }

    /** `_pid_alive`: with procfs a zombie counts as dead, without it only a vanished process does. */
    predicate SeenAlive(p: Pid) {
      if procfs then Live(p) else !State(p).Gone?
    }

    /** `_daemon_cmdline_matches` answering no: readable, and empty as a zombie's command line is. */
    predicate NotADaemon(p: Pid) {
      procfs && State(p).Zombie?
    }
  }

  /**
   * `Step` is the next operation of a command. An exception may end a command early, in which case only
   * its `finally` clause still runs (`Abandon`), or the command may die where it stands (`Crash`).
   */
  datatype Event =
    | Acquire(who: Cli, op: Op)
    | Step(who: Cli, yes: bool)
    | Spawn(who: Cli, child: Pid)
    | Squat(who: Cli)
    | Abandon(who: Cli)
    | Crash(who: Cli)
    | Listen(pid: Pid)
    | Exit(pid: Pid)
    | Reap(pid: Pid)

  /** Holding the lock. */
  predicate Holds(s: Stage) {
    !s.Idle? && !s.Crashed?
  }

  predicate Enabled(h: Host, e: Event) {
    match e
    case Acquire(c, _) => h.At(c).Idle? && (h.lock.None? || h.At(h.lock.value).Crashed?)
    case Spawn(c, child) => h.At(c).Spawning? && child !in h.procs
    case Squat(c) => h.At(c).Awaiting?
    case Abandon(c) => Holds(h.At(c)) && !h.At(c).Exiting?
    case Crash(c) => !h.At(c).Crashed?
    case Listen(p) => h.State(p).Starting?
    case Exit(p) => h.Live(p)
    case Reap(p) => h.State(p).Zombie?
    case Step(c, yes) =>
      match h.At(c)
      case Idle | Spawning | Crashed => false
      case Awaiting(child) => yes ==> h.State(child).Serving?
      case Fading(p, _) => yes <==> !h.SeenAlive(p)
      case _ => true
  }

  /** What a command does once it has judged the recorded process dead. */
  function Stale(op: Op, p: Pid): Stage {
    Clearing(p, if op.Up? then None else Some(ClearedStale(p)))
  }

  /** One operation of a command; `yes` is what a probe, a poll or a kill answered. */
  function StepOf(h: Host, c: Cli, yes: bool): Host
    requires Enabled(h, Step(c, yes))
  {
    match h.At(c)
    case Reading(op) =>
      h.Move(c, if h.record.Some? then Judging(op, h.record.value)
                else if op.Up? then Probing else Exiting(NothingToStop))
    case Judging(op, p) => h.Move(c, if h.State(p).Gone? then Stale(op, p) else Identifying(op, p))
    case Identifying(op, p) =>
      h.Move(c, if h.NotADaemon(p) then Stale(op, p) else if op.Up? then Exiting(AlreadyRunning(p)) else Terminating(p))
    case Clearing(_, done) => h.(record := None).Move(c, if done.Some? then Exiting(done.value) else Probing)
    // up
    case Probing => h.Move(c, if yes then Spawning else Exiting(PortTaken))
    case Awaiting(p) => if yes then h.(accepted := h.accepted + {p}).Move(c, Recording(p)) else h.Move(c, Killing(p))
    case Killing(p) => (if yes then h.Become(p, Gone) else h).Move(c, Exiting(StartFailed(p)))
    case Recording(p) => h.(record := Some(p)).Move(c, Exiting(Started(p)))
    // down
    case Terminating(p) => h.Move(c, if h.State(p).Gone? then Clearing(p, Some(ClearedStale(p))) else Fading(p, false))
    case Fading(p, killed) =>
      h.Move(c, if yes then Clearing(p, Some(Stopped(p))) else if killed then Exiting(StopFailed(p)) else Striking(p))
    case Striking(p) => h.Move(c, if h.State(p).Gone? then Clearing(p, Some(Stopped(p))) else Fading(p, true))
    case Exiting(_) => h.(lock := None).Move(c, Idle)
  }

  function Apply(h: Host, e: Event): Host
    requires Enabled(h, e)
  {
    match e
    case Acquire(c, op) => h.(lock := Some(c)).Move(c, Reading(op))
    case Step(c, yes) => StepOf(h, c, yes)
    case Spawn(c, child) => h.Become(child, Starting).Move(c, Awaiting(child))
    case Squat(c) => h.Move(c, Recording(h.At(c).child))
    case Abandon(c) => h.Move(c, Exiting(Interrupted))
    case Crash(c) => h.Move(c, Crashed)
    case Listen(p) => h.Become(p, Serving)
    case Exit(p) => h.Become(p, Zombie)
    case Reap(p) => h.Become(p, Gone)
  }

  ghost predicate Possible(h: Host, run: seq<Event>)
    decreases run
  {
    run == [] || (Enabled(h, run[0]) && Possible(Apply(h, run[0]), run[1..]))
  }

  function After(h: Host, run: seq<Event>): Host
    requires Possible(h, run)
    decreases run
  {
    if run == [] then h else After(Apply(h, run[0]), run[1..])
  }

  // ---------------------------------------------------------------------------------------------
  // No daemon runs untracked
  // ---------------------------------------------------------------------------------------------

  predicate Raises(s: Stage, p: Pid) {
    (s.Awaiting? || s.Killing? || s.Recording?) && s.child == p
  }

  /** Every live daemon is the recorded one, or the child of the `up` that holds the lock. */
  ghost predicate NoStray(h: Host) {
    forall p :: h.Live(p) ==> h.record == Some(p) || (h.lock.Some? && Raises(h.At(h.lock.value), p))
  }

  /** An `up` ends between starting its child and recording it, or fails to kill a child that did not come up. */
  ghost predicate LosesChild(h: Host, e: Event) {
    || ((e.Crash? || e.Abandon?) && exists p :: h.Live(p) && Raises(h.At(e.who), p))
    || (e.Step? && !e.yes && h.At(e.who).Killing? && h.Live(h.At(e.who).child))
  }

  /** What the command holding the lock knows at each stage. */
  ghost predicate Knows(h: Host, s: Stage) {
    match s
    case Judging(_, p) => h.record == Some(p)
    case Identifying(_, p) => h.record == Some(p)
    case Terminating(p) => h.record == Some(p)
    case Fading(p, _) => h.record == Some(p)
    case Striking(p) => h.record == Some(p)
    case Clearing(p, done) =>
      h.record == Some(p) && !h.Live(p) && (done.None? || done.value in [ClearedStale(p), Stopped(p)])
    case Probing | Spawning => h.record == None
    case Awaiting(_) | Killing(_) | Recording(_) => h.record == None
    case Exiting(outcome) => Told(h, outcome)
    case _ => true
  }

  /** What each outcome promises while the lock is still held. */
  ghost predicate Told(h: Host, o: Outcome) {
    match o
    case AlreadyRunning(p) => h.record == Some(p)
    case Started(p) => h.record == Some(p)
    case StopFailed(p) => h.record == Some(p)
    case PortTaken | NothingToStop => h.record == None
    case Interrupted => true
    case StartFailed(p) => h.record == None && !h.Live(p)
    case ClearedStale(p) => h.record == None && !h.Live(p)
    case Stopped(p) => h.record == None && !h.Live(p)
  }

  ghost predicate Inv(h: Host) {
    && (forall c :: Holds(h.At(c)) ==> h.lock == Some(c) && Knows(h, h.At(c)))
    && (h.lock.Some? ==> !h.At(h.lock.value).Idle?)
    && NoStray(h)
  }

  /** No command is running, and no daemon runs that the pidfile does not name. */
  ghost predicate Quiet(h: Host) {
    && (forall c :: c in h.clis ==> h.clis[c].Crashed?)
    && (h.lock.Some? ==> h.At(h.lock.value).Crashed?)
    && NoStray(h)
  }

  lemma QuietIsSafe(h: Host)
    requires Quiet(h)
    ensures Inv(h)
  {
  }

  predicate ByCommand(e: Event) {
    e.Acquire? || e.Step? || e.Spawn? || e.Squat? || e.Abandon? || e.Crash?
  }

  lemma OthersStay(h: Host, e: Event, c: Cli)
    requires Enabled(h, e) && (ByCommand(e) ==> c != e.who)
    ensures Apply(h, e).At(c) == h.At(c)
  {
  }

  /** Processes only ever die on their own. */
  lemma ProcessEventKeeps(h: Host, e: Event)
    requires Inv(h) && Enabled(h, e) && !ByCommand(e)
    ensures Inv(Apply(h, e))
  {
    var h' := Apply(h, e);
    assert forall p :: h'.Live(p) ==> h.Live(p);
    forall c ensures h'.At(c) == h.At(c) && (Knows(h, h.At(c)) ==> Knows(h', h.At(c))) {
      OthersStay(h, e, c);
    }
  }

  lemma AcquireKeeps(h: Host, e: Event)
    requires Inv(h) && Enabled(h, e) && e.Acquire?
    ensures Inv(Apply(h, e))
  {
    hide Knows;
    var h' := Apply(h, e);
    assert Knows(h', Reading(e.op)) by { NothingKnown(h', e.op); }
    forall c | c != e.who ensures h'.At(c) == h.At(c) && !Holds(h.At(c)) {
      OthersStay(h, e, c);
    }
  }

  lemma NothingKnown(h: Host, op: Op)
    ensures Knows(h, Reading(op))
  {
  }

  lemma CrashKeeps(h: Host, e: Event)
    requires Inv(h) && Enabled(h, e) && e.Crash? && !LosesChild(h, e)
    ensures Inv(Apply(h, e))
  {
    var h' := Apply(h, e);
    forall c | c != e.who ensures h'.At(c) == h.At(c) && (Knows(h, h.At(c)) ==> Knows(h', h.At(c))) {
      OthersStay(h, e, c);
    }
  }

  /** The lock holder's own operations, which nobody else interleaves with. */
  lemma HolderKeeps(h: Host, e: Event)
    requires Inv(h) && Enabled(h, e) && (e.Step? || e.Spawn? || e.Squat? || e.Abandon?) && !LosesChild(h, e)
    ensures Inv(Apply(h, e))
  {
    hide Knows;
    var h' := Apply(h, e);
    forall c | c != e.who ensures h'.At(c) == h.At(c) && !Holds(h'.At(c)) {
      OthersStay(h, e, c);
    }
    assert h.lock == Some(e.who);
    HolderKnows(h, e);
    HolderTracks(h, e);
  }

  lemma HolderKnows(h: Host, e: Event)
    requires Enabled(h, e) && (e.Step? || e.Spawn? || e.Squat? || e.Abandon?) && h.lock == Some(e.who)
             && !LosesChild(h, e)
    requires Knows(h, h.At(e.who)) && NoStray(h)
    ensures Holds(Apply(h, e).At(e.who)) ==>
            Apply(h, e).lock == Some(e.who) && Knows(Apply(h, e), Apply(h, e).At(e.who))
  {
    if e.Step? && h.At(e.who).Identifying? { assert h.NotADaemon(h.At(e.who).pid) ==> !h.Live(h.At(e.who).pid); }
  }

  lemma HolderTracks(h: Host, e: Event)
    requires Enabled(h, e) && (e.Step? || e.Spawn? || e.Squat? || e.Abandon?) && h.lock == Some(e.who)
             && !LosesChild(h, e)
    requires Knows(h, h.At(e.who)) && NoStray(h)
    ensures NoStray(Apply(h, e))
    ensures Apply(h, e).lock.Some? ==> Apply(h, e).lock == h.lock && !Apply(h, e).At(e.who).Idle?
  {
  }

  /** Every event keeps all of this, unless an `up` loses its child. */
  lemma StepKeeps(h: Host, e: Event)
    requires Inv(h) && Enabled(h, e) && !LosesChild(h, e)
    ensures Inv(Apply(h, e))
  {
    hide Inv, LosesChild;
    if !ByCommand(e) { ProcessEventKeeps(h, e); }
    else if e.Acquire? { AcquireKeeps(h, e); }
    else if e.Crash? { CrashKeeps(h, e); }
    else { HolderKeeps(h, e); }
  }

  /** A lost child is a live daemon that no pidfile names and no command is raising. */
  lemma LosingStrays(h: Host, e: Event)
    requires Inv(h) && Enabled(h, e) && LosesChild(h, e)
    ensures !NoStray(Apply(h, e))
  {
    var h' := Apply(h, e);
    assert h.lock == Some(e.who) && h.record == None;
    var p := h.At(e.who).child;
    assert h'.Live(p) && h'.record == None;
  }
}
