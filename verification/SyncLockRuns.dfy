/** Whole runs of the sync lock: exactly which runs are safe, and how a double claim comes about. */
module SyncLockRuns {
  import opened Text
  import opened SyncLock

  // ---------------------------------------------------------------------------------------------
  // Exactly the runs that reap only dead holders are safe
  // ---------------------------------------------------------------------------------------------

  /** Along the whole run, every holder's lock file is in place. */
  ghost predicate AlwaysGuarded(w: World, run: seq<Event>)
    requires Possible(w, run)
    decreases run
  {
    Guarded(w) && (run != [] ==> AlwaysGuarded(Apply(w, run[0]), run[1..]))
  }

  ghost predicate ReapsOnlyDead(w: World, run: seq<Event>)
    requires Possible(w, run)
    decreases run
  {
    run == [] || (!ReapsLive(w, run[0]) && ReapsOnlyDead(Apply(w, run[0]), run[1..]))
  }

  lemma {:induction false} InvAlongRun(w: World, run: seq<Event>)
    requires Inv(w) && Possible(w, run)
    ensures AlwaysGuarded(w, run) <==> ReapsOnlyDead(w, run)
    ensures ReapsOnlyDead(w, run) ==> Inv(After(w, run))
    decreases run
  {
    hide Inv, Guarded, Apply, ReapsLive;
    InvIsGuarded(w);
    if run != [] {
      var w' := Apply(w, run[0]);
      if ReapsLive(w, run[0]) {
        ReapingLiveUnguards(w, run[0]);
      } else {
        StepKeeps(w, run[0]);
        InvAlongRun(w', run[1..]);
      }
    }
  }

  lemma InvIsGuarded(w: World)
    requires Inv(w)
    ensures Guarded(w)
  {
  }

  /**
   * A run keeps every holder's lock in place if and only if each reap step of it removed nothing or the
   * lock of a crashed process.
   */
  lemma SafeExactlyWhenReapingDead(w: World, run: seq<Event>)
    requires Leftover(w) && Possible(w, run)
    ensures AlwaysGuarded(w, run) <==> ReapsOnlyDead(w, run)
  {
    hide Inv, Leftover, AlwaysGuarded, ReapsOnlyDead;
    LeftoverIsSafe(w);
    InvAlongRun(w, run);
  }

  /** In such a run at most one process is between its create and its unlock, so at most one has claimed. */
  lemma ClaimsAreExclusive(w: World, run: seq<Event>, p: Pid, q: Pid)
    requires Leftover(w) && Possible(w, run) && ReapsOnlyDead(w, run)
    requires Holds(After(w, run).At(p)) && Holds(After(w, run).At(q))
    ensures p == q
  {
    hide Leftover, ReapsOnlyDead, FilesAreOwn;
    LeftoverIsSafe(w);
    InvAlongRun(w, run);
  }

  /** In such a run the owner of a live heartbeat holds the lock file. */
  lemma LiveHeartbeatHoldsLock(w: World, run: seq<Event>)
    requires Leftover(w) && Possible(w, run) && ReapsOnlyDead(w, run)
    ensures var s := After(w, run);
            s.heartbeat.Heartbeat? && s.Live(s.heartbeat.pid) ==> s.lock.Some? && s.lock.value.owner == s.heartbeat.pid
  {
    hide Leftover, ReapsOnlyDead, FilesAreOwn;
    LeftoverIsSafe(w);
    InvAlongRun(w, run);
  }

  /**
   * In such a run a release unlinks its own heartbeat and nobody else's, takes its own descriptor from
   * the sidecar, and leaves no heartbeat behind when it unlinks the lock; and a process that has won the
   * create never finds a fresh heartbeat to bail on.
   */
  lemma ReleaseTouchesOwnFiles(w: World, run: seq<Event>, p: Pid)
    requires Leftover(w) && Possible(w, run) && ReapsOnlyDead(w, run)
    ensures var s := After(w, run);
            && (s.At(p).Unlinking? ==> s.heartbeat.Heartbeat? && s.heartbeat.pid == p)
            && (s.At(p).Closing? ==> s.sidecar == Some(p))
            && (s.At(p).Unlocking? ==>
                s.At(p).fd == Some(p) && s.heartbeat == Absent && s.lock.Some? && s.lock.value.owner == p)
            && (s.At(p).Clearing? ==> s.heartbeat != Absent)
            && (s.At(p).Checking? ==> !s.FreshHeartbeat())
            && !s.At(p).Bailing?
  {
    hide Leftover, ReapsOnlyDead;
    LeftoverIsSafe(w);
    InvAlongRun(w, run);
  }

  // ---------------------------------------------------------------------------------------------
  // Building runs
  // ---------------------------------------------------------------------------------------------

  lemma {:induction false} Continue(w: World, run: seq<Event>, more: seq<Event>)
    requires Possible(w, run) && Possible(After(w, run), more)
    ensures Possible(w, run + more) && After(w, run + more) == After(After(w, run), more)
    decreases run
  {
    hide Apply, Enabled;
    if run == [] {
      assert run + more == more;
    } else {
      assert (run + more)[0] == run[0] && (run + more)[1..] == run[1..] + more;
      Continue(Apply(w, run[0]), run[1..], more);
    }
  }

  lemma Then(w: World, run: seq<Event>, e: Event) returns (longer: seq<Event>)
    requires Possible(w, run) && Enabled(After(w, run), e)
    ensures Possible(w, longer) && After(w, longer) == Apply(After(w, run), e)
  {
    hide Apply, Enabled;
    var s := After(w, run);
    assert [e][1..] == [];
    assert Possible(s, [e]) && After(s, [e]) == Apply(s, e);
    longer := run + [e];
    Continue(w, run, [e]);
  }

  predicate Orphaned(w: World) {
    w.lock.Some? && w.now - w.lock.value.mtime > MAX_AGE
  }

  /** A newcomer that finds an orphaned lock gets as far as unlinking it. */
  lemma ToReaping(w: World, run: seq<Event>, p: Pid) returns (longer: seq<Event>)
    requires Possible(w, run) && After(w, run).At(p).Idle? && Orphaned(After(w, run))
    ensures Possible(w, longer) && After(w, longer) == After(w, run).Move(p, Reaping(false))
  {
    hide Possible, After;
    var s := After(w, run);
    longer := Then(w, run, Begin(p));
    longer := Then(w, longer, Step(p));
    longer := Then(w, longer, Step(p));
    longer := Then(w, longer, Step(p));
    assert After(w, longer).procs == s.procs[p := Reaping(false)];
  }

  /** A reaper replaces whatever lock there is by its own. */
  lemma ToChecking(w: World, run: seq<Event>, p: Pid) returns (longer: seq<Event>)
    requires Possible(w, run) && After(w, run).At(p) == Reaping(false)
    ensures Possible(w, longer)
    ensures var s := After(w, run); After(w, longer) == s.(lock := Some(LockFile(s.now, p))).Move(p, Checking)
  {
    hide Possible, After;
    var s := After(w, run);
    longer := Then(w, run, Step(p));
    longer := Then(w, longer, Step(p));
    assert After(w, longer).procs == s.procs[p := Checking];
  }

  lemma ToOpening(w: World, run: seq<Event>, p: Pid) returns (longer: seq<Event>)
    requires Possible(w, run) && After(w, run).At(p) == Checking && !After(w, run).FreshHeartbeat()
    ensures Possible(w, longer)
    ensures var s := After(w, run); After(w, longer) == s.Move(p, Opening(s.now))
  {
    hide Possible, After;
    longer := Then(w, run, Step(p));
  }

  lemma ToClaimed(w: World, run: seq<Event>, p: Pid) returns (longer: seq<Event>)
    requires Possible(w, run) && After(w, run).At(p).Opening?
    ensures Possible(w, longer)
    ensures var s := After(w, run); forall q :: After(w, longer).At(q) == if q == p then Claimed else s.At(q)
    ensures After(w, longer).now == After(w, run).now
  {
    hide Possible, After;
    longer := Then(w, run, Step(p));
    longer := Then(w, longer, Step(p));
    longer := Then(w, longer, Step(p));
  }

  /**
   * The double claim: whenever a lock is old enough to be taken for a leftover and no heartbeat is
   * fresh, any two newcomers can both end up claiming the wiki, without any time passing. Both judge the
   * lock before either unlinks it, and the second unlink hits the first one's new lock.
   */
  lemma DoubleClaim(w: World, p: Pid, q: Pid) returns (run: seq<Event>)
    requires Orphaned(w) && !w.FreshHeartbeat() && p != q && w.At(p).Idle? && w.At(q).Idle?
    ensures Possible(w, run) && After(w, run).now == w.now
    ensures After(w, run).At(p).Claimed? && After(w, run).At(q).Claimed?
  {
    hide Possible, After;
    NothingYet(w);
    run := DoubleClaimFrom(w, [], p, q);
  }

  lemma DoubleClaimFrom(w: World, start: seq<Event>, p: Pid, q: Pid) returns (run: seq<Event>)
    requires Possible(w, start) && p != q
    requires var s := After(w, start); Orphaned(s) && !s.FreshHeartbeat() && s.At(p).Idle? && s.At(q).Idle?
    ensures Possible(w, run) && After(w, run).now == After(w, start).now
    ensures After(w, run).At(p).Claimed? && After(w, run).At(q).Claimed?
  {
    hide Possible, After, Apply;
    run := ToReaping(w, start, p);
    run := ToReaping(w, run, q);
    run := ToChecking(w, run, p);
    run := ToOpening(w, run, p);
    run := ToChecking(w, run, q);
    run := ToOpening(w, run, q);
    run := ToClaimed(w, run, p);
    run := ToClaimed(w, run, q);
  }

  lemma NothingYet(w: World)
    ensures Possible(w, []) && After(w, []) == w
  {
  }

  // ---------------------------------------------------------------------------------------------
  // How long every run is safe
  // ---------------------------------------------------------------------------------------------

  /** The earliest moment a lock file can carry: the leftover's, or now. */
  function Birth(w: World): nat {
    if w.lock.Some? then w.lock.value.mtime else w.now
  }

  /** No lock file, and no lock anybody has looked at, is older than `birth`; nobody is reaping. */
  ghost predicate Young(w: World, birth: nat) {
    && birth <= w.now
    && (w.lock.Some? ==> w.lock.value.mtime >= birth)
    && forall p :: !w.At(p).Reaping? && (w.At(p).Statted? ==> w.At(p).mtime >= birth)
  }

  lemma {:induction false} TimePasses(w: World, run: seq<Event>)
    requires Possible(w, run)
    ensures w.now <= After(w, run).now
    decreases run
  {
    if run != [] {
      assert w.now <= Apply(w, run[0]).now;
      hide Apply, Enabled;
      TimePasses(Apply(w, run[0]), run[1..]);
    }
  }

  lemma YoungStays(w: World, e: Event, birth: nat)
    requires Young(w, birth) && Enabled(w, e) && Apply(w, e).now <= birth + MAX_AGE
    ensures Young(Apply(w, e), birth)
  {
    var w' := Apply(w, e);
    forall p ensures !w'.At(p).Reaping? && (w'.At(p).Statted? ==> w'.At(p).mtime >= birth) {
      if e.Tick? || p != e.who { OthersStay(w, e, p); }
      assert !w.At(p).Reaping? && (w.At(p).Statted? ==> w.At(p).mtime >= birth);
    }
  }

  lemma {:induction false} YoungReapsNothing(w: World, run: seq<Event>, birth: nat)
    requires Young(w, birth) && Possible(w, run) && After(w, run).now <= birth + MAX_AGE
    ensures ReapsOnlyDead(w, run)
    decreases run
  {
    hide Apply, Enabled;
    if run != [] {
      TimePasses(Apply(w, run[0]), run[1..]);
      YoungStays(w, run[0], birth);
      assert !ReapsLive(w, run[0]);
      hide Young;
      YoungReapsNothing(Apply(w, run[0]), run[1..], birth);
    }
  }

  lemma NewPid(taken: set<Pid>) returns (p: Pid)
    ensures forall x :: x in taken ==> x < p
    decreases taken
  {
    if taken == {} {
      p := 0;
    } else {
      var x :| x in taken;
      var y := NewPid(taken - {x});
      assert forall z :: z in taken ==> z == x || z in taken - {x};
      p := if x < y then y else x + 1;
    }
  }

  /** At most one process is between its create and its unlock. */
  ghost predicate OneHolder(w: World) {
    forall p, q :: Holds(w.At(p)) && Holds(w.At(q)) ==> p == q
  }

  /** At most one process has claimed the wiki. */
  ghost predicate OneClaim(w: World) {
    forall p, q :: w.At(p).Claimed? && w.At(q).Claimed? ==> p == q
  }

  lemma GuardedIsExclusive(w: World)
    ensures Guarded(w) ==> OneHolder(w)
    ensures OneHolder(w) ==> OneClaim(w)
  {
  }

  /** Past that age some run ends with two claims: a slow holder's and another's, or those of two reapers. */
  lemma UnsafeRun(w: World, end: nat) returns (run: seq<Event>)
    requires Leftover(w) && end >= w.now && end > Birth(w) + MAX_AGE
    ensures Possible(w, run) && After(w, run).now == end && !OneClaim(After(w, run))
  {
    hide Possible, After;
    var p := NewPid(w.procs.Keys);
    var q := p + 1;
    assert !w.FreshHeartbeat() && w.At(p).Idle? && w.At(q).Idle?;
    hide Leftover;
    NothingYet(w);
    if w.lock.Some? {
      run := Then(w, [], Tick(end - w.now));
      run := DoubleClaimFrom(w, run, p, q);
    } else {
      run := Then(w, [], Begin(p));
      run := Then(w, run, Step(p));
      run := ToOpening(w, run, p);
      run := Then(w, run, Tick(end - w.now));
      run := ToReaping(w, run, q);
      run := ToChecking(w, run, q);
      run := ToOpening(w, run, q);
      run := ToClaimed(w, run, p);
      run := ToClaimed(w, run, q);
    }
    assert After(w, run).At(p).Claimed? && After(w, run).At(q).Claimed?;
  }

  /** Along the whole run, at most one process has claimed. */
  ghost predicate AlwaysOneClaim(w: World, run: seq<Event>)
    requires Possible(w, run)
    decreases run
  {
    OneClaim(w) && (run != [] ==> AlwaysOneClaim(Apply(w, run[0]), run[1..]))
  }

  lemma {:induction false} GuardedRunsAreExclusive(w: World, run: seq<Event>)
    requires Possible(w, run) && AlwaysGuarded(w, run)
    ensures AlwaysOneClaim(w, run)
    decreases run
  {
    hide Apply, Enabled, Guarded, OneClaim, OneHolder;
    GuardedIsExclusive(w);
    if run != [] { GuardedRunsAreExclusive(Apply(w, run[0]), run[1..]); }
  }

  lemma {:induction false} TwoClaimsAtEnd(w: World, run: seq<Event>)
    requires Possible(w, run) && !OneClaim(After(w, run))
    ensures !AlwaysOneClaim(w, run) && !AlwaysGuarded(w, run)
    decreases run
  {
    hide Apply, Enabled, Guarded, OneClaim, OneHolder;
    GuardedIsExclusive(w);
    if run != [] { TwoClaimsAtEnd(Apply(w, run[0]), run[1..]); }
  }

  /**
   * In every run that ends by a given time at most one process has claimed the wiki at any moment, if and
   * only if no lock can be more than `MAX_AGE` old by then; and the same bound decides whether every
   * holder's lock file stays in place.
   */
  lemma SafeExactlyUntil(w: World, end: nat)
    requires Leftover(w) && end >= w.now
    ensures (forall run :: Possible(w, run) && After(w, run).now <= end ==> AlwaysOneClaim(w, run))
            <==> end <= Birth(w) + MAX_AGE
    ensures (forall run :: Possible(w, run) && After(w, run).now <= end ==> AlwaysGuarded(w, run))
            <==> end <= Birth(w) + MAX_AGE
  {
    hide After, AlwaysGuarded, AlwaysOneClaim, ReapsOnlyDead, Guarded;
    if end <= Birth(w) + MAX_AGE {
      LeftoverIsYoung(w);
      forall run | Possible(w, run) && After(w, run).now <= end
        ensures AlwaysGuarded(w, run) && AlwaysOneClaim(w, run)
      {
        YoungReapsNothing(w, run, Birth(w));
        SafeExactlyWhenReapingDead(w, run);
        GuardedRunsAreExclusive(w, run);
      }
    } else {
      var run := UnsafeRun(w, end);
      TwoClaimsAtEnd(w, run);
    }
  }

  lemma LeftoverIsYoung(w: World)
    requires Leftover(w)
    ensures Young(w, Birth(w))
  {
  }
}
