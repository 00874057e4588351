/**
 * `sync_helper.py` and `heartbeat.py` as one process runs them on the wiki's files, proved to take
 * only steps of the protocol.
 */
module SyncHelper {
  import opened Text
  import opened SyncLock
  import opened SyncLockRuns

  predicate OwnEvent(me: Pid, e: Event) {
    e.Tick? || (!e.Crash? && e.who == me)
  }

  /** `me` gets from one world to another by protocol steps of its own, and by time passing. */
  ghost predicate Reaches(me: Pid, start: World, end: World) {
    exists run :: OwnRun(me, run) && Possible(start, run) && After(start, run) == end
  }

  ghost predicate OwnRun(me: Pid, run: seq<Event>) {
    forall e :: e in run ==> OwnEvent(me, e)
  }

  lemma Onward(me: Pid, start: World, mid: World, e: Event, end: World)
    requires Reaches(me, start, mid) && OwnEvent(me, e) && Enabled(mid, e) && Apply(mid, e) == end
    ensures Reaches(me, start, end)
  {
    hide Apply, Enabled;
    var run :| OwnRun(me, run) && Possible(start, run) && After(start, run) == mid;
    assert [e][1..] == [] && Possible(mid, [e]) && After(mid, [e]) == end;
    Continue(start, run, [e]);
    assert OwnRun(me, run + [e]);
  }

  lemma Stay(me: Pid, w: World)
    ensures Reaches(me, w, w)
  {
    NothingYet(w);
    assert OwnRun(me, []);
  }

  lemma Chain(me: Pid, start: World, mid: World, end: World)
    requires Reaches(me, start, mid) && Reaches(me, mid, end)
    ensures Reaches(me, start, end)
  {
    hide Possible, After;
    var a :| OwnRun(me, a) && Possible(start, a) && After(start, a) == mid;
    var b :| OwnRun(me, b) && Possible(mid, b) && After(mid, b) == end;
    Continue(start, a, b);
    assert OwnRun(me, a + b);
  }

  class WikiFiles {
    const me: Pid
    var lock: Option<LockFile>
    var heartbeat: HeartbeatFile
    var sidecar: Option<Pid>
    var now: nat
    var dead: set<Pid>
    ghost var procs: map<Pid, Place>

    /** The world as the protocol sees it. */
    ghost function Here(): World
      reads this
    {
      World(procs, lock, heartbeat, sidecar, now)
    }

    ghost predicate Valid()
      reads this
    {
      me !in dead && forall p :: p in dead <==> Here().At(p).Crashed?
    }

    ghost predicate Standing(place: Place)
      reads this
    {
      Valid() && me in procs && procs[me] == place
    }

    ghost method Now(start: World, before: World, e: Event, place: Place)
      requires Valid() && Reaches(me, start, before) && OwnEvent(me, e) && Enabled(before, e)
      requires place != Crashed && Apply(before, e) == Here().Move(me, place)
      modifies this`procs
      ensures Standing(place) && Reaches(me, start, Here()) && Here() == Apply(before, e)
    {
      hide Apply, Enabled, Reaches;
      procs := procs[me := place];
      Onward(me, start, before, e, Here());
    }

    /** `heartbeat_is_stale` on what `read_heartbeat` returned, negated. */
    function Beating(): bool
      reads this
    {
      heartbeat.Heartbeat? && heartbeat.pid !in dead && now - heartbeat.startedAt <= MAX_AGE
    }

    /** When the heartbeat, left alone, has gone stale. */
    function FreeAt(): nat
      reads this
    {
      if heartbeat.Heartbeat? && heartbeat.pid !in dead then Max(now, heartbeat.startedAt + MAX_AGE + 1) else now
    }

    lemma BeatingIsFresh()
      requires Valid()
      ensures Beating() == Here().FreshHeartbeat()
    {
    }

    /** The age test on an existing lock: is it a leftover? */
    method LooksOrphaned(again: bool) returns (orphaned: bool)
      requires Standing(Contended(again)) && lock.Some?
      modifies this`procs
      ensures Standing(if orphaned then Reaping(again) else Lost(again)) && Reaches(me, old(Here()), Here())
      ensures orphaned == Orphaned(Here())
    {
      hide Reaches, Possible, After;
      ghost var start := Here();
      Stay(me, start);
      var mtime := lock.value.mtime;
      Now(start, start, Step(me), Statted(again, mtime));
      ghost var w := Here();
      orphaned := now - mtime > MAX_AGE;
      Now(start, w, Step(me), if orphaned then Reaping(again) else Lost(again));
    }

    /** Unlinking a leftover and creating in its place. */
    method ReapAndCreate(again: bool)
      requires Standing(Reaping(again))
      modifies this`lock, this`procs
      ensures Standing(Checking) && Reaches(me, old(Here()), Here()) && lock == Some(LockFile(now, me))
    {
      hide Reaches, Possible, After;
      ghost var start := Here();
      Stay(me, start);
      lock := None;
      Now(start, start, Step(me), Recreating(again));
      ghost var w := Here();
      lock := Some(LockFile(now, me));
      Now(start, w, Step(me), Checking);
    }

    /** `acquire_create_lock`: create, or reap a leftover and create again. */
    method AcquireCreateLock(again: bool) returns (won: bool)
      requires Standing(Trying(again))
      modifies this`lock, this`procs
      ensures Standing(if won then Checking else Lost(again)) && Reaches(me, old(Here()), Here())
      ensures won <==> old(lock).None? || old(Orphaned(Here()))
      ensures won ==> lock == Some(LockFile(now, me))
      ensures !won ==> lock == old(lock)
    {
      hide Reaches, Possible, After;
      ghost var start := Here();
      Stay(me, start);
      if lock.None? {
        lock := Some(LockFile(now, me));
        Now(start, start, Step(me), Checking);
        return true;
      }
      Now(start, start, Step(me), Contended(again));
      hide Apply, Enabled;
      ghost var w := Here();
      won := LooksOrphaned(again);
      Chain(me, start, w, Here());
      w := Here();
      if won {
        ReapAndCreate(again);
        Chain(me, start, w, Here());
      }
    }

    /** `wait_until_free`: poll until the heartbeat is gone or stale. Left alone, it goes stale in time. */
    method WaitUntilFree()
      requires Standing(Waiting)
      modifies this`now, this`procs
      ensures Standing(Trying(true)) && Reaches(me, old(Here()), Here())
      ensures !Beating() && now == old(FreeAt())
    {
      hide Reaches, Possible, After;
      ghost var start := Here();
      Stay(me, start);
      while Beating()
        invariant Standing(Waiting) && Reaches(me, start, Here())
        invariant FreeAt() == old(FreeAt()) && (!Beating() ==> now == FreeAt())
        decreases if heartbeat.Heartbeat? then heartbeat.startedAt + MAX_AGE + 1 - now else 0
      {
        ghost var w := Here();
        now := now + 1;
        Now(start, w, Tick(1), Waiting);
      }
      ghost var w := Here();
      BeatingIsFresh();
      Now(start, w, Step(me), Trying(true));
    }

    /** `write_heartbeat`: the file is truncated first and written second. */
    method WriteHeartbeat(startedAt: nat)
      requires Standing(Opening(startedAt))
      modifies this`heartbeat, this`procs
      ensures Standing(Noting) && Reaches(me, old(Here()), Here()) && heartbeat == Heartbeat(me, startedAt)
    {
      hide Reaches, Possible, After;
      ghost var start := Here();
      Stay(me, start);
      heartbeat := Torn;
      Now(start, start, Step(me), Writing(startedAt));
      ghost var w := Here();
      heartbeat := Heartbeat(me, startedAt);
      Now(start, w, Step(me), Noting);
    }

    /** What follows a won create: bail on a fresh heartbeat, otherwise write one and note the descriptor. */
    method Claim() returns (claimed: bool)
      requires Standing(Checking)
      modifies this`lock, this`heartbeat, this`sidecar, this`procs
      ensures Standing(if claimed then Claimed else Idle) && Reaches(me, old(Here()), Here())
      ensures claimed <==> !old(Beating())
      ensures claimed ==> heartbeat == Heartbeat(me, now) && sidecar == Some(me) && lock == old(lock)
      ensures !claimed ==> lock == None && heartbeat == old(heartbeat) && sidecar == old(sidecar)
    {
      hide Reaches, Possible, After;
      ghost var start, w := Here(), Here();
      Stay(me, start);
      BeatingIsFresh();
      if Beating() {
        Now(start, w, Step(me), Bailing);
        w := Here();
        lock := None;
        Now(start, w, Step(me), Idle);
        return false;
      }
      Now(start, w, Step(me), Opening(now));
      w := Here();
      WriteHeartbeat(now);
      Chain(me, start, w, Here());
      w := Here();
      sidecar := Some(me);
      Now(start, w, Step(me), Claimed);
      claimed := true;
    }

    method GiveUp(again: bool)
      requires Standing(Lost(again))
      modifies this`procs
      ensures Standing(Idle) && Reaches(me, old(Here()), Here())
    {
      hide Reaches, Possible, After;
      ghost var start := Here();
      Stay(me, start);
      Now(start, start, Step(me), Idle);
    }

    /** Waiting for the holder, and the one retry. */
    method WaitAndRetry() returns (won: bool)
      requires Standing(Lost(false))
      modifies this`lock, this`now, this`procs
      ensures Standing(if won then Checking else Lost(true)) && Reaches(me, old(Here()), Here())
      ensures won <==> old(lock).None? || old(FreeAt()) - old(lock).value.mtime > MAX_AGE
      ensures !Beating()
      ensures won ==> lock == Some(LockFile(now, me))
      ensures !won ==> lock == old(lock)
    {
      hide Reaches, Possible, After;
      ghost var start := Here();
      Stay(me, start);
      Now(start, start, Wait(me), Waiting);
      hide Apply, Enabled, Standing, Valid;
      ghost var w := Here();
      WaitUntilFree();
      Chain(me, start, w, Here());
      w := Here();
      won := AcquireCreateLock(true);
      Chain(me, start, w, Here());
    }

    method StartTrying()
      requires Standing(Idle)
      modifies this`procs
      ensures Standing(Trying(false)) && Reaches(me, old(Here()), Here())
    {
      hide Reaches, Possible, After;
      ghost var start := Here();
      Stay(me, start);
      Now(start, start, Begin(me), Trying(false));
    }

    /** `acquire_heartbeat`, run without interference. */
    method AcquireHeartbeat(wait: bool, failBusy: bool) returns (claimed: bool)
      requires Standing(Idle)
      modifies this`lock, this`heartbeat, this`sidecar, this`now, this`procs
      ensures Standing(if claimed then Claimed else Idle) && Reaches(me, old(Here()), Here())
      ensures claimed ==> heartbeat == Heartbeat(me, now) && sidecar == Some(me) && lock.Some? && lock.value.owner == me
      ensures !claimed ==> heartbeat == old(heartbeat) && sidecar == old(sidecar) && (lock == old(lock) || lock == None)
      ensures claimed <==>
                if old(lock).None? || old(Orphaned(Here())) then !old(Beating())
                else wait && !failBusy && old(FreeAt()) - old(lock).value.mtime > MAX_AGE
    {
      hide Reaches, Possible, After, Apply, Enabled, Standing, Valid;
      ghost var start := Here();
      StartTrying();
      ghost var w := Here();
      var won := AcquireCreateLock(false);
      Chain(me, start, w, Here());
      w := Here();
      if !won {
        if failBusy || !wait {
          GiveUp(false);
          Chain(me, start, w, Here());
          return false;
        }
        won := WaitAndRetry();
        Chain(me, start, w, Here());
        w := Here();
        if !won {
          GiveUp(true);
          Chain(me, start, w, Here());
          return false;
        }
      }
      claimed := Claim();
      Chain(me, start, w, Here());
    }

    /** `clear_heartbeat`. */
    method ClearHeartbeat()
      requires Standing(Clearing)
      modifies this`heartbeat, this`procs
      ensures Standing(Closing) && Reaches(me, old(Here()), Here()) && heartbeat == Absent
    {
      hide Reaches, Possible, After;
      ghost var start, w := Here(), Here();
      Stay(me, start);
      if heartbeat != Absent {
        Now(start, w, Step(me), Unlinking);
        w := Here();
        heartbeat := Absent;
      }
      Now(start, w, Step(me), Closing);
    }

    /** Taking the descriptor out of the sidecar, then `release_create_lock`. */
    method CloseAndUnlock() returns (fd: Option<Pid>)
      requires Standing(Closing)
      modifies this`lock, this`sidecar, this`procs
      ensures Standing(Idle) && Reaches(me, old(Here()), Here())
      ensures fd == old(sidecar) && lock == None && sidecar == None
    {
      hide Reaches, Possible, After;
      ghost var start := Here();
      Stay(me, start);
      fd := sidecar;
      sidecar := None;
      Now(start, start, Step(me), Unlocking(fd));
      ghost var w := Here();
      lock := None;
      Now(start, w, Step(me), Idle);
    }

    /** `release_heartbeat`: heartbeat first, then the sidecar, and the lock file last. */
    method ReleaseHeartbeat() returns (fd: Option<Pid>)
      requires Standing(Claimed)
      modifies this`lock, this`heartbeat, this`sidecar, this`procs
      ensures Standing(Idle) && Reaches(me, old(Here()), Here())
      ensures fd == old(sidecar) && lock == None && heartbeat == Absent && sidecar == None
    {
      hide Reaches, Possible, After;
      ghost var start := Here();
      Stay(me, start);
      Now(start, start, Begin(me), Clearing);
      hide Apply, Enabled;
      ghost var w := Here();
      ClearHeartbeat();
      Chain(me, start, w, Here());
      w := Here();
      fd := CloseAndUnlock();
      Chain(me, start, w, Here());
    }
  }
}
