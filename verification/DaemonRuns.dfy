/** Whole runs of the daemon lifecycle: exactly when no daemon escapes its pidfile, and what each outcome means. */
module DaemonRuns {
  import opened Text
  import opened Daemon

  ghost predicate AlwaysTracked(h: Host, run: seq<Event>)
    requires Possible(h, run)
    decreases run
  {
    NoStray(h) && (run != [] ==> AlwaysTracked(Apply(h, run[0]), run[1..]))
  }

  ghost predicate LosesNoChild(h: Host, run: seq<Event>)
    requires Possible(h, run)
    decreases run
  {
    run == [] || (!LosesChild(h, run[0]) && LosesNoChild(Apply(h, run[0]), run[1..]))
  }

  lemma {:induction false} InvAlongRun(h: Host, run: seq<Event>)
    requires Inv(h) && Possible(h, run)
    ensures AlwaysTracked(h, run) <==> LosesNoChild(h, run)
    ensures LosesNoChild(h, run) ==> Inv(After(h, run))
    decreases run
  {
    hide Inv, NoStray, Apply, LosesChild;
    InvTracks(h);
    if run != [] {
      if LosesChild(h, run[0]) {
        LosingStrays(h, run[0]);
      } else {
        StepKeeps(h, run[0]);
        InvAlongRun(Apply(h, run[0]), run[1..]);
      }
    }
  }

  lemma InvTracks(h: Host)
    requires Inv(h)
    ensures NoStray(h)
  {
  }

  /**
   * Throughout a run every live daemon is named by the pidfile, or is the child of the `up` holding the
   * lock, if and only if no `up` dies or is interrupted between starting its child and recording it while
   * that child lives, and every failed child is really killed.
   */
  lemma TrackedExactlyWhenNoChildIsLost(h: Host, run: seq<Event>)
    requires Quiet(h) && Possible(h, run)
    ensures AlwaysTracked(h, run) <==> LosesNoChild(h, run)
  {
    hide Inv, Quiet, AlwaysTracked, LosesNoChild;
    QuietIsSafe(h);
    InvAlongRun(h, run);
  }

  /** Then at most one daemon is alive at any time, and `up` starts its child only when none is. */
  lemma OneLiveDaemon(h: Host, run: seq<Event>, p: Pid, q: Pid, c: Cli)
    requires Quiet(h) && Possible(h, run) && LosesNoChild(h, run)
    ensures var end := After(h, run);
            && (end.Live(p) && end.Live(q) ==> p == q)
            && (end.At(c).Spawning? ==> !end.Live(p))
  {
    hide Quiet, LosesNoChild;
    QuietIsSafe(h);
    InvAlongRun(h, run);
  }

  /**
   * Then a command about to release the lock tells the truth: `Stopped`, `ClearedStale` and `StartFailed`
   * mean that process is gone and nothing is recorded, `Started` and `AlreadyRunning` that it is the one
   * recorded; and a command that is not running holds no lock.
   */
  lemma OutcomesAreTrue(h: Host, run: seq<Event>, c: Cli)
    requires Quiet(h) && Possible(h, run) && LosesNoChild(h, run)
    ensures var end := After(h, run);
            && (end.At(c).Exiting? ==> Told(end, end.At(c).outcome) && end.lock == Some(c))
            && (end.At(c).Exiting? ==> Enabled(end, Step(c, true)) && Apply(end, Step(c, true)).lock == None)
            && (end.At(c).Idle? ==> end.lock != Some(c))
  {
    hide Quiet, LosesNoChild, NoStray, Told;
    QuietIsSafe(h);
    InvAlongRun(h, run);
  }

  // ---------------------------------------------------------------------------------------------
  // What a record means
  // ---------------------------------------------------------------------------------------------

  /** Recorded processes, and those about to be, have accepted a connection. */
  ghost predicate RecordsAccepted(h: Host) {
    && (h.record.Some? ==> h.record.value in h.accepted)
    && (forall c :: h.At(c).Recording? ==> h.At(c).child in h.accepted)
  }

  /** Whenever a readiness probe is answered, the child answered it. */
  predicate NoSquatter(run: seq<Event>) {
    forall e :: e in run ==> !e.Squat?
  }

  lemma AcceptedStep(h: Host, e: Event)
    requires RecordsAccepted(h) && Enabled(h, e) && !e.Squat?
    ensures RecordsAccepted(Apply(h, e))
  {
    var h' := Apply(h, e);
    forall c ensures h'.At(c).Recording? ==> h'.At(c).child in h'.accepted {
      if !ByCommand(e) || c != e.who { OthersStay(h, e, c); }
    }
  }

  lemma {:induction false} RecordNamesAcceptor(h: Host, run: seq<Event>)
    requires RecordsAccepted(h) && Possible(h, run) && NoSquatter(run)
    ensures RecordsAccepted(After(h, run))
    decreases run
  {
    hide RecordsAccepted, Apply, Enabled;
    if run != [] {
      AcceptedStep(h, run[0]);
      RecordNamesAcceptor(Apply(h, run[0]), run[1..]);
    }
  }

  /** The record on disk names a process that accepted a connection. */
  ghost predicate RecordIsTrue(h: Host) {
    h.record.Some? ==> h.record.value in h.accepted
  }

  ghost predicate RecordAlwaysTrue(h: Host, run: seq<Event>)
    requires Possible(h, run)
    decreases run
  {
    RecordIsTrue(h) && (run != [] ==> RecordAlwaysTrue(Apply(h, run[0]), run[1..]))
  }

  /** The commands whose probe a stranger has answered and that have not been interrupted since. */
  function Misled(e: Event, misled: set<Cli>): set<Cli> {
    if e.Squat? then misled + {e.who} else if e.Abandon? then misled - {e.who} else misled
  }

  /** No command goes on to its next step once a stranger has answered its probe. */
  predicate NoStrangerIsBelieved(run: seq<Event>, misled: set<Cli>)
    decreases run
  {
    run == [] || (!(run[0].Step? && run[0].who in misled) && NoStrangerIsBelieved(run[1..], Misled(run[0], misled)))
  }

  predicate Rears(s: Stage) {
    s.Awaiting? || s.Killing? || s.Recording?
  }

  /** Children are started once, by one command each, and accept nothing before their probe is answered. */
  ghost predicate ChildrenAreNew(h: Host) {
    && h.accepted <= h.procs.Keys
    && (forall c :: Rears(h.At(c)) ==> h.At(c).child in h.procs)
    && (forall c :: h.At(c).Awaiting? ==> h.At(c).child !in h.accepted)
    && forall c, d :: c != d && Rears(h.At(c)) && Rears(h.At(d)) ==> h.At(c).child != h.At(d).child
  }

  /** A command about to record its child was misled exactly when that child has accepted nothing. */
  ghost predicate MisledAreKnown(h: Host, misled: set<Cli>) {
    && (forall c :: c in misled ==> h.At(c).Recording? || h.At(c).Crashed?)
    && forall c :: h.At(c).Recording? ==> (c in misled <==> h.At(c).child !in h.accepted)
  }

  lemma ChildrenStayNew(h: Host, e: Event)
    requires ChildrenAreNew(h) && Enabled(h, e)
    ensures ChildrenAreNew(Apply(h, e))
  {
    if ByCommand(e) { CommandKeepsNew(h, e); } else { ProcessKeepsNew(h, e); }
  }

  lemma ProcessKeepsNew(h: Host, e: Event)
    requires ChildrenAreNew(h) && Enabled(h, e) && !ByCommand(e)
    ensures ChildrenAreNew(Apply(h, e))
  {
    var h' := Apply(h, e);
    forall c ensures h'.At(c) == h.At(c) { OthersStay(h, e, c); }
  }

  /** A command keeps its child from stage to stage, or takes a new one; it adds only that child to `accepted`. */
  lemma CommandKeepsNew(h: Host, e: Event)
    requires ChildrenAreNew(h) && Enabled(h, e) && ByCommand(e)
    ensures ChildrenAreNew(Apply(h, e))
  {
    var h' := Apply(h, e);
    forall c | c != e.who ensures h'.At(c) == h.At(c) { OthersStay(h, e, c); }
    OwnChild(h, e);
    hide Apply, Enabled;
  }

  lemma OwnChild(h: Host, e: Event)
    requires ChildrenAreNew(h) && Enabled(h, e) && ByCommand(e)
    ensures var s, s' := h.At(e.who), Apply(h, e).At(e.who);
            && h.procs.Keys <= Apply(h, e).procs.Keys && h.accepted <= Apply(h, e).accepted
            && (Rears(s') ==> s'.child in Apply(h, e).procs
                              && (s'.child !in h.procs || (Rears(s) && s'.child == s.child)))
            && (s'.Awaiting? ==> s'.child !in Apply(h, e).accepted)
            && (Apply(h, e).accepted == h.accepted
                || (s.Awaiting? && !s'.Awaiting? && Apply(h, e).accepted == h.accepted + {s.child}))
  {
  }

  lemma MisledStayKnown(h: Host, e: Event, misled: set<Cli>)
    requires ChildrenAreNew(h) && MisledAreKnown(h, misled) && Enabled(h, e) && !(e.Step? && e.who in misled)
    ensures MisledAreKnown(Apply(h, e), Misled(e, misled))
  {
    var h' := Apply(h, e);
    forall c | !ByCommand(e) || c != e.who
      ensures h'.At(c) == h.At(c)
      ensures h.At(c).Recording? ==> (h.At(c).child in h.accepted <==> h.At(c).child in h'.accepted)
    {
      OthersStay(h, e, c);
    }
  }

  lemma BelievedStranger(h: Host, e: Event, misled: set<Cli>)
    requires MisledAreKnown(h, misled) && RecordIsTrue(h) && Enabled(h, e)
    ensures RecordIsTrue(Apply(h, e)) <==> !(e.Step? && e.who in misled)
  {
  }

  lemma {:induction false} TrueAlongRun(h: Host, run: seq<Event>, misled: set<Cli>)
    requires Possible(h, run) && ChildrenAreNew(h) && MisledAreKnown(h, misled) && RecordIsTrue(h)
    ensures RecordAlwaysTrue(h, run) <==> NoStrangerIsBelieved(run, misled)
    decreases run
  {
    hide Apply, Enabled, ChildrenAreNew, MisledAreKnown, RecordIsTrue, Misled;
    if run != [] {
      var e := run[0];
      BelievedStranger(h, e, misled);
      if !(e.Step? && e.who in misled) {
        ChildrenStayNew(h, e);
        MisledStayKnown(h, e, misled);
        TrueAlongRun(Apply(h, e), run[1..], Misled(e, misled));
      }
    }
  }

  /**
   * Throughout a run the pidfile names only processes that accepted a connection, if and only if no `up`
   * goes on after a stranger answered its readiness probe.
   */
  lemma RecordIsTrueExactlyWhen(h: Host, run: seq<Event>)
    requires (forall c :: c in h.clis ==> h.clis[c].Crashed?) && RecordIsTrue(h) && h.accepted <= h.procs.Keys
    requires Possible(h, run)
    ensures RecordAlwaysTrue(h, run) <==> NoStrangerIsBelieved(run, {})
  {
    hide RecordAlwaysTrue, NoStrangerIsBelieved;
    TrueAlongRun(h, run, {});
  }

  // ---------------------------------------------------------------------------------------------
  // Runs that go wrong
  // ---------------------------------------------------------------------------------------------

  lemma {:induction false} Continue(h: Host, run: seq<Event>, more: seq<Event>)
    requires Possible(h, run) && Possible(After(h, run), more)
    ensures Possible(h, run + more) && After(h, run + more) == After(After(h, run), more)
    decreases run
  {
    hide Apply, Enabled;
    if run == [] {
      assert run + more == more;
    } else {
      assert (run + more)[0] == run[0] && (run + more)[1..] == run[1..] + more;
      Continue(Apply(h, run[0]), run[1..], more);
    }
  }

  lemma Then(h: Host, run: seq<Event>, e: Event) returns (longer: seq<Event>)
    requires Possible(h, run) && Enabled(After(h, run), e)
    ensures Possible(h, longer) && After(h, longer) == Apply(After(h, run), e)
  {
    hide Apply, Enabled;
    var s := After(h, run);
    assert [e][1..] == [];
    assert Possible(s, [e]) && After(s, [e]) == Apply(s, e);
    longer := run + [e];
    Continue(h, run, [e]);
  }

  /** An `up` on a host without a record gets as far as having started its child. */
  lemma ToAwaiting(h: Host, run: seq<Event>, c: Cli, child: Pid) returns (longer: seq<Event>)
    requires Possible(h, run) && Enabled(After(h, run), Acquire(c, Up))
    requires After(h, run).record.None? && child !in After(h, run).procs
    ensures Possible(h, longer)
    ensures var s := After(h, run);
            After(h, longer) == s.(lock := Some(c)).Become(child, Starting).Move(c, Awaiting(child))
  {
    hide Possible, After;
    var s := After(h, run);
    longer := Then(h, run, Acquire(c, Up));
    longer := Then(h, longer, Step(c, true));
    longer := Then(h, longer, Step(c, true));
    longer := Then(h, longer, Spawn(c, child));
    assert After(h, longer).clis == s.clis[c := Awaiting(child)];
  }

  /** An `up` that crashes after starting its child makes room for a second live daemon. */
  lemma CrashedUpAllowsTwo(h: Host, c: Cli, d: Cli, p: Pid, q: Pid) returns (run: seq<Event>)
    requires h.lock.None? && h.record.None? && c != d && h.At(c).Idle? && h.At(d).Idle?
    requires p != q && p !in h.procs && q !in h.procs
    ensures Possible(h, run) && After(h, run).Live(p) && After(h, run).Live(q)
  {
    hide Possible, After;
    NothingYet(h);
    run := ToAwaiting(h, [], c, p);
    run := Then(h, run, Crash(c));
    run := ToAwaiting(h, run, d, q);
  }

  /** So does one that ends by an exception there, and it even frees the lock. */
  lemma InterruptedUpAllowsTwo(h: Host, c: Cli, d: Cli, p: Pid, q: Pid) returns (run: seq<Event>)
    requires h.lock.None? && h.record.None? && c != d && h.At(c).Idle? && h.At(d).Idle?
    requires p != q && p !in h.procs && q !in h.procs
    ensures Possible(h, run) && After(h, run).Live(p) && After(h, run).Live(q) && After(h, run).At(c).Idle?
  {
    hide Possible, After;
    NothingYet(h);
    run := ToAwaiting(h, [], c, p);
    run := Then(h, run, Abandon(c));
    run := Then(h, run, Step(c, true));
    run := ToAwaiting(h, run, d, q);
  }

  /** Whoever answers the readiness probe on the child's port gets the child recorded. */
  lemma SquatterGetsChildRecorded(h: Host, c: Cli, p: Pid) returns (run: seq<Event>)
    requires h.lock.None? && h.record.None? && h.At(c).Idle? && p !in h.procs && p !in h.accepted
    ensures Possible(h, run) && After(h, run).record == Some(p) && p !in After(h, run).accepted
  {
    hide Possible, After;
    NothingYet(h);
    run := ToAwaiting(h, [], c, p);
    run := Then(h, run, Squat(c));
    run := Then(h, run, Step(c, true));
  }

  lemma NothingYet(h: Host)
    ensures Possible(h, []) && After(h, []) == h
  {
  }

  // ---------------------------------------------------------------------------------------------
  // What a command can do
  // ---------------------------------------------------------------------------------------------

  /** A process that runs is seen alive and one that is gone is not; a zombie is, unless there is a procfs. */
  lemma SeenAliveIs(h: Host, p: Pid)
    ensures h.Live(p) ==> h.SeenAlive(p) && !h.NotADaemon(p)
    ensures p !in h.procs || h.procs[p] == Gone ==> !h.SeenAlive(p) && !h.Live(p) && !h.NotADaemon(p)
    ensures p in h.procs && h.procs[p] == Zombie ==> (h.SeenAlive(p) <==> !h.procfs) && (h.NotADaemon(p) <==> h.procfs)
  {
  }

  /** The stages of `up`, with the lock in hand. */
  predicate GoesUp(s: Stage) {
    match s
    case Reading(op) => op.Up?
    case Judging(op, _) => op.Up?
    case Identifying(op, _) => op.Up?
    case Clearing(_, done) => done.None?
    case Probing | Spawning | Awaiting(_) | Killing(_) | Recording(_) => true
    case Exiting(o) => o.AlreadyRunning? || o.PortTaken? || o.StartFailed? || o.Started? || o.Interrupted?
    case _ => false
  }

  /** The stages of `down`. */
  predicate GoesDown(s: Stage) {
    match s
    case Reading(op) => op.Down?
    case Judging(op, _) => op.Down?
    case Identifying(op, _) => op.Down?
    case Clearing(p, done) => done == Some(ClearedStale(p)) || done == Some(Stopped(p))
    case Terminating(_) | Fading(_, _) | Striking(_) => true
    case Exiting(o) => o.NothingToStop? || o.ClearedStale? || o.Stopped? || o.StopFailed? || o.Interrupted?
    case _ => false
  }

  lemma KeepsDirection(h: Host, e: Event, c: Cli)
    requires Enabled(h, e)
    ensures var s, s' := h.At(c), Apply(h, e).At(c);
            && (GoesUp(s) ==> GoesUp(s') || s'.Idle? || s'.Crashed?)
            && (GoesDown(s) ==> GoesDown(s') || s'.Idle? || s'.Crashed?)
            && (s.Crashed? ==> s'.Crashed?)
            && (s.Idle? && !(e.Acquire? && e.who == c) ==> s'.Idle? || s'.Crashed?)
            && (e.Acquire? && e.who == c ==> if e.op.Up? then GoesUp(s') else GoesDown(s'))
  {
  }

  /** The operation a command last took the lock for. */
  function LastOp(run: seq<Event>, c: Cli): Option<Op>
  {
    if run == [] then None
    else
      var later := LastOp(run[1..], c);
      if later.Some? then later
      else if run[0].Acquire? && run[0].who == c then Some(run[0].op) else None
  }

  ghost predicate Follows(s: Stage, op: Option<Op>) {
    s.Idle? || s.Crashed? || (op == Some(Up) && GoesUp(s)) || (op == Some(Down) && GoesDown(s))
  }

  lemma {:induction false} DirectionAlongRun(h: Host, run: seq<Event>, c: Cli, op: Option<Op>)
    requires Possible(h, run) && Follows(h.At(c), op)
    ensures Follows(After(h, run).At(c), if LastOp(run, c).Some? then LastOp(run, c) else op)
    decreases run
  {
    hide Apply, Enabled, GoesUp, GoesDown;
    if run != [] {
      KeepsDirection(h, run[0], c);
      if run[0].Acquire? && run[0].who == c { AcquireIsEnabled(h, run[0], c); }
      var now := if run[0].Acquire? && run[0].who == c then Some(run[0].op) else op;
      DirectionAlongRun(Apply(h, run[0]), run[1..], c, now);
    }
  }

  lemma AcquireIsEnabled(h: Host, e: Event, c: Cli)
    requires Enabled(h, e) && e.Acquire? && e.who == c
    ensures h.At(c).Idle?
  {
  }

  /**
   * A command keeps to the operation it took the lock for: `down` never probes the port, starts or records a
   * process, `up` never signals the recorded one, and each ends with an outcome of its own.
   */
  lemma CommandsKeepToTheirOperation(h: Host, run: seq<Event>, c: Cli)
    requires Possible(h, run) && h.At(c).Idle?
    ensures var s := After(h, run).At(c);
            && (GoesUp(s) && !s.Exiting? ==> LastOp(run, c) == Some(Up))
            && (GoesDown(s) && !s.Exiting? ==> LastOp(run, c) == Some(Down))
            && Follows(s, LastOp(run, c))
  {
    DirectionAlongRun(h, run, c, None);
  }

  /** A process that accepted a connection has been listening. */
  lemma {:induction false} AcceptorHasListened(h: Host, run: seq<Event>, p: Pid)
    requires Possible(h, run) && !h.State(p).Serving? && p !in h.accepted
    ensures p in After(h, run).accepted || After(h, run).State(p).Serving? ==> Listen(p) in run
    decreases run
  {
    hide Apply, Enabled;
    if run != [] {
      if run[0] != Listen(p) {
        OnlyListeningServes(h, run[0], p);
        AcceptorHasListened(Apply(h, run[0]), run[1..], p);
      }
    }
  }

  lemma OnlyListeningServes(h: Host, e: Event, p: Pid)
    requires Enabled(h, e) && !h.State(p).Serving? && p !in h.accepted && e != Listen(p)
    ensures !Apply(h, e).State(p).Serving? && p !in Apply(h, e).accepted
  {
  }
}
