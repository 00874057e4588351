/**
 * `spawn_daemon` and `stop_daemon` as one command runs them, with what the processes do in the meantime
 * given as input; proved to take only events of the lifecycle.
 */
module DaemonCommands {
  import opened Text
  import opened Daemon
  import opened DaemonRuns

  /** An event of this command or of a process; nobody crashes and nobody else answers the probe. */
  predicate Undisturbed(me: Cli, e: Event) {
    if ByCommand(e) then e.who == me && !e.Crash? && !e.Abandon? && !e.Squat? else true
  }

  ghost predicate Reaches(me: Cli, start: Host, end: Host) {
    exists run :: UndisturbedRun(me, run) && Possible(start, run) && After(start, run) == end
  }

  ghost predicate UndisturbedRun(me: Cli, run: seq<Event>) {
    forall e :: e in run ==> Undisturbed(me, e)
  }

  lemma Stay(me: Cli, h: Host)
    ensures Reaches(me, h, h)
  {
    NothingYet(h);
    assert UndisturbedRun(me, []);
  }

  lemma Chain(me: Cli, start: Host, mid: Host, end: Host)
    requires Reaches(me, start, mid) && Reaches(me, mid, end)
    ensures Reaches(me, start, end)
  {
    hide Possible, After;
    var a :| UndisturbedRun(me, a) && Possible(start, a) && After(start, a) == mid;
    var b :| UndisturbedRun(me, b) && Possible(mid, b) && After(mid, b) == end;
    Continue(start, a, b);
    assert UndisturbedRun(me, a + b);
  }

  lemma Once(me: Cli, start: Host, e: Event, end: Host)
    requires Undisturbed(me, e) && Enabled(start, e) && Apply(start, e) == end
    ensures Reaches(me, start, end)
  {
    hide Apply, Enabled;
    var run := [e];
    NothingYet(end);
    assert run[0] == e && run[1..] == [];
    assert Possible(start, run) && After(start, run) == end;
    assert UndisturbedRun(me, run);
  }

  /** What the child does before one round of the readiness loop. */
  datatype Sign = Silent | Listens | Exits

  /** The child listens before it exits and before the deadline. */
  predicate ComesUp(signs: seq<Sign>) {
    exists i :: 0 <= i < |signs| && signs[i] == Listens && AllSilent(signs[..i])
  }

  predicate AllSilent(signs: seq<Sign>) {
    forall j :: 0 <= j < |signs| ==> signs[j] == Silent
  }

  lemma FirstSign(signs: seq<Sign>, i: nat)
    requires i < |signs| && AllSilent(signs[..i]) && signs[i] != Silent
    ensures ComesUp(signs) <==> signs[i] == Listens
  {
    if k :| 0 <= k < |signs| && signs[k] == Listens && AllSilent(signs[..k]) {
      if k < i { assert signs[..i][k] == signs[k]; }
    }
  }

  lemma NoSigns(signs: seq<Sign>)
    ensures AllSilent(signs[..0])
  {
  }

  lemma OneMoreSilent(signs: seq<Sign>, i: nat)
    requires i < |signs| && AllSilent(signs[..i]) && signs[i] == Silent
    ensures AllSilent(signs[..i + 1])
  {
  }

  /** The first sign that is not silence decides, and silence to the end means it does not come up. */
  lemma FirstSignDecides(n: nat, sign: Sign, rest: seq<Sign>)
    requires sign != Silent
    ensures ComesUp(seq(n, _ => Silent) + [sign] + rest) <==> sign == Listens
    ensures !ComesUp(seq(n, _ => Silent))
  {
    var signs := seq(n, _ => Silent) + [sign] + rest;
    assert signs[n] == sign && forall i :: 0 <= i < n ==> signs[i] == Silent;
    assert AllSilent(signs[..n]);
    FirstSign(signs, n);
    NeverComesUp(seq(n, _ => Silent));
  }

  lemma NeverComesUp(signs: seq<Sign>)
    requires AllSilent(signs[..|signs|])
    ensures !ComesUp(signs)
  {
    assert signs[..|signs|] == signs;
  }

  /** The process exits before one of the polls. */
  predicate InTime(exits: Option<nat>, polls: nat) {
    exits.Some? && exits.value <= polls
  }

  /** An exit before any poll is in time, the last look after the deadline included. */
  lemma LastLookCounts(poll: nat, polls: nat)
    ensures InTime(Some(poll), polls) <==> poll < polls + 1
    ensures !InTime(None, polls)
  {
  }

  /** What the recorded process does while `down` runs: it vanishes before the signal, or exits before a poll. */
  datatype Fate = Fate(vanishes: bool, polls: nat, exits: Option<nat>, killPolls: nat, dies: Option<nat>)
  {
    predicate Ends() {
      vanishes || InTime(exits, polls) || InTime(dies, killPolls)
    }
  }

  class CommandHost {
    const me: Cli
    const procfs: bool
    var lock: Option<Cli>
    var record: Option<Pid>
    var procs: map<Pid, ProcessState>
    var accepted: set<Pid>
    var crashed: set<Cli>
    ghost var clis: map<Cli, Stage>

    ghost function Here(): Host
      reads this
    {
      Host(clis, lock, record, procs, accepted, procfs)
    }

    ghost predicate Valid()
      reads this
    {
      me !in crashed && forall c :: c in crashed <==> Here().At(c).Crashed?
    }

    ghost predicate Standing(stage: Stage)
      reads this
    {
      Valid() && me in clis && clis[me] == stage
    }

    function StateOf(p: Pid): ProcessState
      reads this
    {
      if p in procs then procs[p] else Gone
    }

    ghost method Now(start: Host, before: Host, e: Event, stage: Stage)
      requires Valid() && Reaches(me, start, before) && Undisturbed(me, e) && Enabled(before, e)
      requires stage != Crashed && Apply(before, e) == Here().Move(me, stage)
      modifies this`clis
      ensures Standing(stage) && Reaches(me, start, Here()) && Here() == Apply(before, e)
    {
      hide Apply, Enabled, Reaches;
      clis := clis[me := stage];
      Once(me, before, e, Here());
      Chain(me, start, before, Here());
    }

    /** Taking the create-lock, by its contract. */
    method TakeLock(op: Op) returns (won: bool)
      requires Standing(Idle)
      modifies this`lock, this`clis
      ensures Standing(if won then Reading(op) else Idle) && Reaches(me, old(Here()), Here())
      ensures won <==> old(lock).None? || old(lock).value in crashed
      ensures lock == if won then Some(me) else old(lock)
    {
      hide Reaches, Possible, After;
      ghost var start := Here();
      Stay(me, start);
      won := lock.None? || lock.value in crashed;
      if won {
        lock := Some(me);
        Now(start, start, Acquire(me, op), Reading(op));
      }
    }

    /** The `finally` clause. */
    method DropLock(outcome: Outcome)
      requires Standing(Exiting(outcome))
      modifies this`lock, this`clis
      ensures Standing(Idle) && Reaches(me, old(Here()), Here()) && lock == None
    {
      hide Reaches, Possible, After;
      ghost var start := Here();
      Stay(me, start);
      lock := None;
      Now(start, start, Step(me, true), Idle);
    }

    /** `is_stale`: is the process gone, or visibly not a daemon any more? */
    method IsStale(op: Op, p: Pid) returns (stale: bool)
      requires Standing(Judging(op, p))
      modifies this`clis
      ensures Standing(if stale then Stale(op, p) else if op.Up? then Exiting(AlreadyRunning(p)) else Terminating(p))
      ensures Reaches(me, old(Here()), Here())
      ensures stale == SeemsStale(p)
    {
      hide Reaches, Possible, After;
      ghost var start := Here();
      Stay(me, start);
      if StateOf(p).Gone? {
        Now(start, start, Step(me, true), Stale(op, p));
        return true;
      }
      Now(start, start, Step(me, true), Identifying(op, p));
      ghost var h := Here();
      stale := procfs && StateOf(p).Zombie?;
      Now(start, h, Step(me, true),
          if stale then Stale(op, p) else if op.Up? then Exiting(AlreadyRunning(p)) else Terminating(p));
    }

    method ClearRecord(p: Pid, done: Option<Outcome>)
      requires Standing(Clearing(p, done))
      modifies this`record, this`clis
      ensures Standing(if done.Some? then Exiting(done.value) else Probing)
      ensures Reaches(me, old(Here()), Here()) && record == None
    {
      hide Reaches, Possible, After;
      ghost var start := Here();
      Stay(me, start);
      record := None;
      Now(start, start, Step(me, true), if done.Some? then Exiting(done.value) else Probing);
    }

    /** The probe reaches the child. */
    method Accept(child: Pid)
      requires Standing(Awaiting(child)) && child in procs && procs[child] == Starting
      modifies this`procs, this`accepted, this`clis
      ensures Standing(Recording(child)) && Reaches(me, old(Here()), Here())
      ensures procs == old(procs)[child := Serving] && accepted == old(accepted) + {child}
    {
      hide Reaches, Possible, After;
      ghost var start := Here();
      Stay(me, start);
      procs := procs[child := Serving];
      Now(start, start, Listen(child), Awaiting(child));
      ghost var h := Here();
      accepted := accepted + {child};
      Now(start, h, Step(me, true), Recording(child));
    }

    /** The child is given up, after exiting or at the deadline. */
    method Despair(child: Pid, exited: bool)
      requires Standing(Awaiting(child)) && child in procs && procs[child] == Starting
      modifies this`procs, this`clis
      ensures Standing(Killing(child)) && Reaches(me, old(Here()), Here())
      ensures procs == if exited then old(procs)[child := Zombie] else old(procs)
    {
      hide Reaches, Possible, After;
      ghost var start, h := Here(), Here();
      Stay(me, start);
      if exited {
        procs := procs[child := Zombie];
        Now(start, h, Exit(child), Awaiting(child));
        h := Here();
      }
      Now(start, h, Step(me, false), Killing(child));
    }

    /** `_wait_until_accepting`: one sign of the child before each round, until the deadline. */
    method WaitUntilAccepting(child: Pid, signs: seq<Sign>) returns (ready: bool)
      requires Standing(Awaiting(child)) && child in procs && procs[child] == Starting
      modifies this`procs, this`accepted, this`clis
      ensures Standing(if ready then Recording(child) else Killing(child)) && Reaches(me, old(Here()), Here())
      ensures ready <==> ComesUp(signs)
      ensures ready ==> child in accepted && procs == old(procs)[child := Serving]
      ensures procs.Keys == old(procs).Keys && forall p :: p in procs && p != child ==> procs[p] == old(procs)[p]
      ensures accepted <= old(accepted) + {child}
    {
      hide Reaches, Possible, After, Apply, Enabled, Standing, Valid, ComesUp, AllSilent;
      NoSigns(signs);
      for round := 0 to |signs|
        invariant Standing(Awaiting(child)) && accepted == old(accepted) && clis == old(clis)
        invariant procs == old(procs) && AllSilent(signs[..round])
      {
        if signs[round] != Silent {
          FirstSign(signs, round);
          if signs[round] == Listens { Accept(child); } else { Despair(child, true); }
          return signs[round] == Listens;
        }
        OneMoreSilent(signs, round);
      }
      NeverComesUp(signs);
      Despair(child, false);
      ready := false;
    }

    /** `write_record`, or `_kill_now` on a child that did not come up. */
    method Settle(child: Pid, ready: bool) returns (outcome: Outcome)
      requires Standing(if ready then Recording(child) else Killing(child))
      modifies this`record, this`procs, this`clis
      ensures outcome == (if ready then Started(child) else StartFailed(child))
      ensures Standing(Exiting(outcome)) && Reaches(me, old(Here()), Here())
      ensures if ready then record == Some(child) && procs == old(procs)
              else record == old(record) && procs == old(procs)[child := Gone]
    {
      hide Reaches, Possible, After;
      ghost var start := Here();
      Stay(me, start);
      if ready {
        record := Some(child);
        Now(start, start, Step(me, true), Exiting(Started(child)));
        return Started(child);
      }
      procs := procs[child := Gone];
      Now(start, start, Step(me, true), Exiting(StartFailed(child)));
      outcome := StartFailed(child);
    }

    method Start(child: Pid)
      requires Standing(Spawning) && child !in procs
      modifies this`procs, this`clis
      ensures Standing(Awaiting(child)) && Reaches(me, old(Here()), Here()) && procs == old(procs)[child := Starting]
    {
      hide Reaches, Possible, After;
      ghost var start := Here();
      Stay(me, start);
      procs := procs[child := Starting];
      Now(start, start, Spawn(me, child), Awaiting(child));
    }

    /** Starting the child and waiting for it; a child that does not come up is killed. */
    method StartChild(child: Pid, signs: seq<Sign>) returns (outcome: Outcome)
      requires Standing(Spawning) && child !in procs
      modifies this`record, this`procs, this`accepted, this`clis
      ensures Standing(Exiting(outcome)) && Reaches(me, old(Here()), Here())
      ensures outcome == if ComesUp(signs) then Started(child) else StartFailed(child)
      ensures outcome == Started(child) ==> record == Some(child) && StateOf(child).Serving? && child in accepted
      ensures outcome == StartFailed(child) ==> record == old(record) && StateOf(child).Gone?
      ensures forall p :: p != child ==> StateOf(p) == old(StateOf(p))
    {
      hide Reaches, Possible, After, Apply, Enabled, Valid, Standing;
      ghost var start := Here();
      Start(child);
      ghost var h := Here();
      var ready := WaitUntilAccepting(child, signs);
      Chain(me, start, h, Here());
      h := Here();
      outcome := Settle(child, ready);
      Chain(me, start, h, Here());
    }

    /** What `is_stale` answers for a recorded process. */
    predicate SeemsStale(p: Pid)
      reads this
    {
      StateOf(p).Gone? || (procfs && StateOf(p).Zombie?)
    }

    /** A record is stale exactly when its process is not seen alive. */
    lemma StaleIsNotAlive(p: Pid)
      ensures SeemsStale(p) <==> !Here().SeenAlive(p)
    {
    }

    /** Reading the record: a live one ends the command, a stale one is cleared. */
    method ClearUnlessRunning() returns (running: Option<Pid>)
      requires Standing(Reading(Up))
      modifies this`record, this`clis
      ensures Standing(if running.Some? then Exiting(AlreadyRunning(running.value)) else Probing)
      ensures Reaches(me, old(Here()), Here())
      ensures running.Some? <==> old(record).Some? && !SeemsStale(old(record).value)
      ensures running.Some? ==> record == old(record) == running && !StateOf(running.value).Gone?
      ensures running.None? ==> record == None
                                && (old(record).Some? ==>
                                    !(StateOf(old(record).value).Starting? || StateOf(old(record).value).Serving?))
    {
      hide Reaches, Possible, After;
      ghost var start, h := Here(), Here();
      Stay(me, start);
      if record.None? {
        Now(start, h, Step(me, true), Probing);
        return None;
      }
      var p := record.value;
      Now(start, h, Step(me, true), Judging(Up, p));
      hide Apply, Enabled;
      h := Here();
      var stale := IsStale(Up, p);
      Chain(me, start, h, Here());
      if !stale { return Some(p); }
      h := Here();
      ClearRecord(p, None);
      Chain(me, start, h, Here());
      running := None;
    }

    method Probe(portFree: bool)
      requires Standing(Probing)
      modifies this`clis
      ensures Standing(if portFree then Spawning else Exiting(PortTaken)) && Reaches(me, old(Here()), Here())
    {
      hide Reaches, Possible, After;
      ghost var start := Here();
      Stay(me, start);
      Now(start, start, Step(me, portFree), if portFree then Spawning else Exiting(PortTaken));
    }

    /** What `up` does with the lock in hand. */
    method SpawnUnderLock(child: Pid, portFree: bool, signs: seq<Sign>) returns (outcome: Outcome)
      requires Standing(Reading(Up)) && child !in procs
      modifies this`record, this`procs, this`accepted, this`clis
      ensures Standing(Exiting(outcome)) && Reaches(me, old(Here()), Here())
      ensures outcome == old(SpawnOutcome(child, portFree, signs)) && SpawnedAs(outcome, child, old(record), old(procs))
    {
      hide Reaches, Possible, After, Apply, Enabled, Valid, Standing;
      ghost var start := Here();
      var running := ClearUnlessRunning();
      if running.Some? { return AlreadyRunning(running.value); }
      ghost var h := Here();
      Probe(portFree);
      Chain(me, start, h, Here());
      if !portFree { return PortTaken; }
      h := Here();
      outcome := StartChild(child, signs);
      Chain(me, start, h, Here());
    }

    /** What the outcome of `up` says about the record and the processes. */
    ghost predicate SpawnedAs(outcome: Outcome, child: Pid, before: Option<Pid>, were: map<Pid, ProcessState>)
      reads this
    {
      && (forall p :: p != child ==> StateOf(p) == if p in were then were[p] else Gone)
      && match outcome
         case AlreadyRunning(p) => before == Some(p) && record == before && procs == were && p in were && !were[p].Gone?
         case PortTaken => record == None && procs == were
         case StartFailed(p) => p == child && record == None && StateOf(child).Gone?
         case Started(p) => p == child && record == Some(child) && StateOf(child).Serving? && child in accepted
         case _ => false
    }

    /** How `up` ends, by what it finds and what its child does. */
    function SpawnOutcome(child: Pid, portFree: bool, signs: seq<Sign>): Outcome
      reads this
    {
      if record.Some? && !SeemsStale(record.value) then AlreadyRunning(record.value)
      else if !portFree then PortTaken
      else if ComesUp(signs) then Started(child)
      else StartFailed(child)
    }

    /** Which of its ends `up` comes to, case by case. */
    lemma SpawnEnds(child: Pid, portFree: bool, signs: seq<Sign>)
      ensures var o := SpawnOutcome(child, portFree, signs);
              var runs := record.Some? && Here().SeenAlive(record.value);
              && (forall p :: o == AlreadyRunning(p) <==> runs && record == Some(p))
              && (o == PortTaken <==> !runs && !portFree)
              && (o == Started(child) <==> !runs && portFree && ComesUp(signs))
              && (o == StartFailed(child) <==> !runs && portFree && !ComesUp(signs))
    {
      if record.Some? { StaleIsNotAlive(record.value); }
    }

    /** `spawn_daemon`; `None` when the lock is busy. */
    method SpawnDaemon(child: Pid, portFree: bool, signs: seq<Sign>) returns (outcome: Option<Outcome>)
      requires Standing(Idle) && child !in procs
      modifies this`lock, this`record, this`procs, this`accepted, this`clis
      ensures Standing(Idle) && Reaches(me, old(Here()), Here())
      ensures outcome.None? <==> old(lock).Some? && old(lock).value !in crashed
      ensures outcome.None? ==> lock == old(lock) && record == old(record) && procs == old(procs)
      ensures outcome.Some? ==> lock == None && outcome.value == old(SpawnOutcome(child, portFree, signs))
                                && SpawnedAs(outcome.value, child, old(record), old(procs))
    {
      hide Reaches, Possible, After, Apply, Enabled, Valid, Standing;
      ghost var start, h := Here(), Here();
      var won := TakeLock(Up);
      if !won { return None; }
      h := Here();
      var o := SpawnUnderLock(child, portFree, signs);
      Chain(me, start, h, Here());
      h := Here();
      DropLock(o);
      Chain(me, start, h, Here());
      outcome := Some(o);
    }

    // -------------------------------------------------------------------------------------------
    // Stopping
    // -------------------------------------------------------------------------------------------

    /**
     * `_wait_for_exit`: poll until the process is seen dead or the grace ends. `exits` is the poll before
     * which the process exits and is reaped, if it does.
     */
    method WaitForExit(p: Pid, killed: bool, polls: nat, exits: Option<nat>) returns (gone: bool)
      requires Standing(Fading(p, killed))
      modifies this`procs, this`clis
      ensures Standing(if gone then Clearing(p, Some(Stopped(p)))
                       else if killed then Exiting(StopFailed(p)) else Striking(p))
      ensures Reaches(me, old(Here()), Here())
      ensures gone <==> !Here().SeenAlive(p)
      ensures gone <==> !old(Here().SeenAlive(p)) || InTime(exits, polls)
      ensures procs == old(procs) || procs == old(procs)[p := Gone]
      ensures old(Here().SeenAlive(p)) ==> procs == if gone then old(procs)[p := Gone] else old(procs)
    {
      hide Reaches, Possible, After;
      ghost var start := Here();
      Stay(me, start);
      var poll := 0;
      gone := false;
      while !gone && poll <= polls
        invariant Standing(Fading(p, killed)) && Reaches(me, start, Here())
        invariant poll <= polls + 1 && (gone ==> !Here().SeenAlive(p))
        invariant poll > polls && !gone ==> Here().SeenAlive(p)
        invariant gone <==> (!old(Here().SeenAlive(p)) && poll > 0) || (exits.Some? && exits.value < poll)
        invariant procs == old(procs) || procs == old(procs)[p := Gone]
        invariant old(Here().SeenAlive(p)) ==> procs == if gone then old(procs)[p := Gone] else old(procs)
        decreases polls + 1 - poll, !gone
      {
        if exits == Some(poll) {
          ghost var h := Here();
          Leave(p, Fading(p, killed));
          Chain(me, start, h, Here());
        }
        gone := !(if procfs then StateOf(p).Starting? || StateOf(p).Serving? else !StateOf(p).Gone?);
        poll := poll + 1;
      }
      ghost var h := Here();
      Now(start, h, Step(me, gone),
          if gone then Clearing(p, Some(Stopped(p))) else if killed then Exiting(StopFailed(p)) else Striking(p));
    }

    /** The process exits, if it has not yet, and is reaped. */
    method Leave(p: Pid, ghost stage: Stage)
      requires Standing(stage) && stage != Crashed
      modifies this`procs, this`clis
      ensures Standing(stage) && Reaches(me, old(Here()), Here()) && StateOf(p).Gone?
      ensures procs == if old(StateOf(p)).Gone? then old(procs) else old(procs)[p := Gone]
    {
      hide Reaches, Possible, After;
      ghost var start, h := Here(), Here();
      Stay(me, start);
      if StateOf(p).Starting? || StateOf(p).Serving? {
        procs := procs[p := Zombie];
        Now(start, h, Exit(p), stage);
        h := Here();
      }
      if StateOf(p).Zombie? {
        procs := procs[p := Gone];
        Now(start, h, Reap(p), stage);
      }
    }

    /** Sending a signal: a process that has vanished by then has its record cleared instead. */
    method Signal(p: Pid, killed: bool) returns (sent: bool)
      requires Standing(if killed then Striking(p) else Terminating(p))
      modifies this`clis
      ensures sent == !StateOf(p).Gone? && Reaches(me, old(Here()), Here())
      ensures Standing(if sent then Fading(p, killed)
                       else Clearing(p, Some(if killed then Stopped(p) else ClearedStale(p))))
    {
      hide Reaches, Possible, After;
      ghost var start := Here();
      Stay(me, start);
      sent := !StateOf(p).Gone?;
      Now(start, start, Step(me, true),
          if sent then Fading(p, killed) else Clearing(p, Some(if killed then Stopped(p) else ClearedStale(p))));
    }

    /** One signal and the wait after it. */
    method SignalAndWait(p: Pid, killed: bool, polls: nat, exits: Option<nat>)
      returns (gone: bool, ghost cleared: Outcome)
      requires Standing(if killed then Striking(p) else Terminating(p))
      modifies this`procs, this`clis
      ensures Standing(if gone then Clearing(p, Some(cleared))
                       else if killed then Exiting(StopFailed(p)) else Striking(p))
      ensures cleared == (if old(StateOf(p)).Gone? && !killed then ClearedStale(p) else Stopped(p))
      ensures Reaches(me, old(Here()), Here()) && (gone <==> !Here().SeenAlive(p))
      ensures gone <==> !old(Here().SeenAlive(p)) || InTime(exits, polls)
      ensures old(Here().SeenAlive(p)) ==> procs == if gone then old(procs)[p := Gone] else old(procs)
      ensures old(StateOf(p)).Gone? ==> procs == old(procs)
    {
      hide Reaches, Possible, After, Apply, Enabled, Valid, Standing;
      ghost var start := Here();
      var sent := Signal(p, killed);
      cleared := if sent || killed then Stopped(p) else ClearedStale(p);
      if !sent { return true, cleared; }
      ghost var h := Here();
      gone := WaitForExit(p, killed, polls, exits);
      Chain(me, start, h, Here());
    }

    /** Reading the record for `down`. */
    method FindTarget() returns (target: Option<Pid>)
      requires Standing(Reading(Down))
      modifies this`clis
      ensures target == record && Reaches(me, old(Here()), Here())
      ensures Standing(if target.Some? then Judging(Down, target.value) else Exiting(NothingToStop))
    {
      hide Reaches, Possible, After;
      ghost var start := Here();
      Stay(me, start);
      target := record;
      Now(start, start, Step(me, true), if target.Some? then Judging(Down, target.value) else Exiting(NothingToStop));
    }

    /** SIGTERM, the grace, SIGKILL, and two more seconds. */
    method Terminate(p: Pid, fate: Fate) returns (outcome: Outcome)
      requires Standing(Terminating(p)) && record == Some(p) && !SeemsStale(p)
      modifies this`record, this`procs, this`clis
      ensures Standing(Exiting(outcome)) && Reaches(me, old(Here()), Here())
      ensures outcome == if fate.vanishes then ClearedStale(p) else if fate.Ends() then Stopped(p) else StopFailed(p)
      ensures record == if fate.Ends() then None else Some(p)
      ensures procs == if fate.Ends() then old(procs)[p := Gone] else old(procs)
    {
      hide Reaches, Possible, After, Apply, Enabled, Valid, Standing;
      ghost var start, cleared := Here(), NothingToStop;
      Stay(me, start);
      if fate.vanishes { Leave(p, Terminating(p)); }
      ghost var h := Here();
      var gone;
      gone, cleared := SignalAndWait(p, false, fate.polls, fate.exits);
      Chain(me, start, h, Here());
      h := Here();
      if !gone {
        gone, cleared := SignalAndWait(p, true, fate.killPolls, fate.dies);
        Chain(me, start, h, Here());
        if !gone { return StopFailed(p); }
        h := Here();
      }
      outcome := if fate.vanishes then ClearedStale(p) else Stopped(p);
      ClearRecord(p, Some(outcome));
      Chain(me, start, h, Here());
    }

    /** How `down` ends, by what it finds and what the recorded process does. */
    function StopOutcome(fate: Fate): Outcome
      reads this
    {
      if record.None? then NothingToStop
      else if SeemsStale(record.value) || fate.vanishes then ClearedStale(record.value)
      else if fate.Ends() then Stopped(record.value)
      else StopFailed(record.value)
    }

    /** Which of its ends `down` comes to, case by case. */
    lemma StopEnds(fate: Fate)
      ensures var o := StopOutcome(fate);
              && (o == NothingToStop <==> record == None)
              && forall p ::
                   && (o == ClearedStale(p) <==> record == Some(p) && (!Here().SeenAlive(p) || fate.vanishes))
                   && (o == Stopped(p) <==>
                         && record == Some(p) && Here().SeenAlive(p) && !fate.vanishes
                         && (InTime(fate.exits, fate.polls) || InTime(fate.dies, fate.killPolls)))
                   && (o == StopFailed(p) <==>
                         && record == Some(p) && Here().SeenAlive(p) && !fate.vanishes
                         && !InTime(fate.exits, fate.polls) && !InTime(fate.dies, fate.killPolls))
    {
      if record.Some? { StaleIsNotAlive(record.value); }
    }

    /** What the outcome of `down` says about the record and the processes. */
    ghost predicate StoppedAs(outcome: Outcome, before: Option<Pid>, were: map<Pid, ProcessState>)
      reads this
    {
      match outcome
      case NothingToStop => before == None && record == None && procs == were
      case ClearedStale(p) =>
        before == Some(p) && record == None && !(StateOf(p).Starting? || StateOf(p).Serving?)
        && (procs == were || procs == were[p := Gone])
      case Stopped(p) => before == Some(p) && record == None && procs == were[p := Gone]
      case StopFailed(p) => before == Some(p) && record == before && procs == were && Here().SeenAlive(p)
      case _ => false
    }

    method StopUnderLock(fate: Fate) returns (outcome: Outcome)
      requires Standing(Reading(Down))
      modifies this`record, this`procs, this`clis
      ensures Standing(Exiting(outcome)) && Reaches(me, old(Here()), Here())
      ensures outcome == old(StopOutcome(fate)) && StoppedAs(outcome, old(record), old(procs))
    {
      hide Reaches, Possible, After, Apply, Enabled, Valid, Standing;
      ghost var start := Here();
      var target := FindTarget();
      if target.None? { return NothingToStop; }
      var p := target.value;
      ghost var h := Here();
      var stale := IsStale(Down, p);
      Chain(me, start, h, Here());
      h := Here();
      if stale {
        ClearRecord(p, Some(ClearedStale(p)));
        outcome := ClearedStale(p);
      } else {
        outcome := Terminate(p, fate);
      }
      Chain(me, start, h, Here());
    }

    /** `stop_daemon`; `None` when the lock is busy. */
    method StopDaemon(fate: Fate) returns (outcome: Option<Outcome>)
      requires Standing(Idle)
      modifies this`lock, this`record, this`procs, this`clis
      ensures Standing(Idle) && Reaches(me, old(Here()), Here())
      ensures outcome.None? <==> old(lock).Some? && old(lock).value !in crashed
      ensures outcome.None? ==> lock == old(lock) && record == old(record) && procs == old(procs)
      ensures outcome.Some? ==> lock == None && outcome.value == old(StopOutcome(fate))
                                && StoppedAs(outcome.value, old(record), old(procs))
    {
      hide Reaches, Possible, After, Apply, Enabled, Valid, Standing;
      ghost var start := Here();
      var won := TakeLock(Down);
      if !won { return None; }
      ghost var h := Here();
      var o := StopUnderLock(fate);
      Chain(me, start, h, Here());
      h := Here();
      DropLock(o);
      Chain(me, start, h, Here());
      outcome := Some(o);
    }
  }
}
