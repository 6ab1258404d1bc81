/** Transcode runs shared by sessions, whole calls of Session and RunManager one after the other.
    Launching FFmpeg is an outcome given with the call; the process may exit at any time. */
module SharedRuns {
  import opened Options
  import opened RunKeys

  lemma QuantizedIsValid(t: real)
    ensures OnGrid(Quantize(t)) && Quantize(t) >= 0.0
  {
    hide RunKey;
    var n: nat :| Quantize(t) == Position(n);
  }

  class TranscodeRun {
    const key: string
    var refCount: int
    var running: bool
    var exited: bool
    // references that no session will give back
    ghost var leaked: nat

    constructor (key: string)
      ensures this.key == key && refCount == 0 && leaked == 0 && !running
    {
      this.key := key;
      refCount, running, exited, leaked := 0, false, false, 0;
    }

    method AddRef()
      modifies this`refCount
      ensures refCount == old(refCount) + 1
    {
      refCount := refCount + 1;
    }

    method Release() returns (n: int)
      modifies this`refCount
      ensures n == refCount == old(refCount) - 1
    {
      refCount := refCount - 1;
      n := refCount;
    }

    /** Notices that the process has exited. */
    method IsRunning() returns (r: bool)
      modifies this`running
      ensures r == running == (old(running) && !exited)
    {
      if running && exited {
        running := false;
      }
      r := running;
    }

    /** `works` is the outcome of launching FFmpeg, if it comes to that. */
    method Start(works: bool) returns (ok: bool)
      modifies this`running, this`exited
      ensures ok == running == (old(running) || works)
      ensures exited == (old(exited) && (old(running) || !works))
    {
      if running {
        return true;
      }
      if works {
        running, exited := true, false;
      }
      ok := works;
    }

    method Cleanup()
      modifies this`running
      ensures !running
    {
      running := false;
    }

    /** The process ends on its own. */
    method Exit()
      modifies this`exited
      ensures exited
    {
      exited := true;
    }
  }

  predicate Reapable(m: Mapped<TranscodeRun>, now: real)
    reads m.run`refCount
  {
    LongIdle(m.run.refCount, m.idleSince, now)
  }

  /** A map without some of its keys. */
  ghost function Without<V>(m: map<string, V>, keys: set<string>): map<string, V> {
    m - keys
  }

  lemma WithoutOne<V>(m: map<string, V>, gone: set<string>, left: set<string>, k: string)
    requires k in left && left <= m.Keys
    ensures var now := Without(m, gone - left);
      && k in now && now[k] == m[k]
      && Without(m, gone - (left - {k})) == if k in gone then now - {k} else now
    ensures gone - (left - {k}) == gone - left + if k in gone then {k} else {}
  {
  }

  class RunManager {
    var runs: map<string, Mapped<TranscodeRun>>
    // every run ever handed out
    ghost var pool: set<TranscodeRun>
    ghost var sessions: set<Session>
    // sessions that were started while they held a run
    ghost var misused: set<Session>

    predicate Has(run: TranscodeRun)
      reads this`runs
    {
      run.key in runs && runs[run.key].run == run
    }

    /** The map knows its runs by their keys, and since when those without references are idle. */
    ghost predicate Keyed()
      reads this`runs, this`pool, pool`refCount
    {
      forall k :: k in runs ==>
        && runs[k].run.key == k && runs[k].run in pool
        && runs[k].run.refCount >= 0 && (runs[k].idleSince.Some? <==> runs[k].run.refCount == 0)
    }

    ghost function Holders(run: TranscodeRun): set<Session>
      reads this`sessions, sessions`run
    {
      set s | s in sessions && s.run == run
    }

    /** A run counts the sessions holding it, the references lost for good, and one more for a
        caller in the middle of a call. */
    ghost predicate Counted(extra: TranscodeRun?)
      reads this`sessions, this`pool, sessions`run, pool`refCount, pool`leaked
    {
      forall r <- pool :: r.refCount == |Holders(r)| + r.leaked + if r == extra then 1 else 0
    }

    ghost predicate Consistent()
      reads this, sessions, pool`refCount
    {
      Keyed() && misused <= sessions && forall s <- sessions :: s.SessionValid(this)
    }

    /** What holds between the calls, whatever calls were made. */
    ghost predicate Valid()
      reads this, sessions, pool
    {
      && Consistent()
      && Counted(null)
      && (misused == {} ==> forall r <- pool :: r.leaked == 0)
    }

    constructor ()
      ensures Valid() && runs == map[] && sessions == {}
    {
      runs := map[];
      pool, sessions, misused := {}, {}, {};
    }

    /** A run with one more reference, or none when FFmpeg does not start. */
    method Acquire(hashDir: string, seek: real, works: bool, now: real) returns (run: TranscodeRun?)
      requires Keyed() && seek >= 0.0
      modifies this`runs, this`pool, pool`refCount, pool`running, pool`exited
      ensures Keyed()
      ensures run == null ==> !works && pool == old(pool)
      ensures run != null ==> Has(run) && run.key == RunKey(hashDir, seek) && run.running && pool == old(pool) + {run}
      ensures run != null ==> run.refCount == 1 + if run in old(pool) then old(run.refCount) else 0
      ensures run != null && run !in old(pool) ==> fresh(run) && run.leaked == 0
      ensures forall r <- old(pool) :: r != run ==> r.refCount == old(r.refCount)
      ensures forall k <- old(runs).Keys :: k in runs && runs[k].run == old(runs)[k].run
      ensures forall k <- runs.Keys :: k in old(runs) || (run != null && k == run.key)
    {
      hide RunKey;
      var key := RunKey(hashDir, seek);
      if key in runs {
        run := Reuse(key, works, now);
      } else {
        run := Create(key, works);
      }
    }

    /** The run a key stands for already. */
    method Reuse(key: string, works: bool, now: real) returns (run: TranscodeRun?)
      requires Keyed() && key in runs
      modifies this`runs, pool`refCount, pool`running, pool`exited
      ensures Keyed() && runs.Keys == old(runs).Keys && forall k :: k in runs ==> runs[k].run == old(runs)[k].run
      ensures run == null ==> !works
      ensures run != null ==> run == runs[key].run && run.running
      ensures forall r <- pool :: r.refCount == old(r.refCount) + if r == run then 1 else 0
    {
      var r := runs[key].run;
      r.AddRef();
      runs := runs[key := Mapped(r, None)];
      var live := Relaunch(r, works);
      if !live {
        Release(r, now);
        return null;
      }
      run := r;
    }

    /** Sees to it that a run is running. */
    method Relaunch(r: TranscodeRun, works: bool) returns (ok: bool)
      modifies r`running, r`exited
      ensures if ok then r.running else !works
    {
      ok := r.IsRunning();
      if !ok {
        ok := r.Start(works);
      }
    }

    /** A new run under a key, taken back when it does not start. */
    method Create(key: string, works: bool) returns (run: TranscodeRun?)
      requires Keyed() && key !in runs
      modifies this`runs, this`pool
      ensures run == null ==> !works && runs == old(runs) && pool == old(pool)
      ensures run != null ==>
        && fresh(run) && run.key == key && run.running && run.refCount == 1 && run.leaked == 0
        && runs == old(runs)[key := Mapped(run, None)] && pool == old(pool) + {run}
    {
      var r := new TranscodeRun(key);
      r.AddRef();
      runs := runs[key := Mapped(r, None)];
      var ok := r.Start(works);
      if !ok {
        runs := runs - {key};
        return null;
      }
      pool := pool + {r};
      run := r;
    }

    /** Gives one of the caller's references back; the last one starts the grace period. */
    method Release(run: TranscodeRun, now: real)
      requires Keyed() && run.refCount >= 1
      modifies this`runs, run`refCount
      ensures Keyed()
      ensures run.refCount == old(run.refCount) - 1
      ensures runs == if run.refCount <= 0 && old(Has(run)) then old(runs)[run.key := Mapped(run, Some(now))] else old(runs)
    {
      var n := run.Release();
      if n <= 0 {
        if run.key in runs && runs[run.key].run == run {
          runs := runs[run.key := Mapped(run, Some(now))];
        }
      }
    }

    lemma IdleIsUnheld()
      requires Valid()
      ensures forall r <- pool :: r.refCount <= 0 ==> forall s <- sessions :: s.run != r
    {
      forall r <- pool, s <- sessions | r.refCount <= 0
        ensures s.run != r
      {
        assert |Holders(r)| == 0;
        assert s !in Holders(r);
      }
    }

    /** The reaper removes exactly the runs out of use for longer than the grace period, stops
        those, and takes none that a session holds. */
    method CleanupIdleRuns(now: real)
      requires Valid()
      modifies this`runs, pool`running
      ensures Valid()
      ensures forall k <- old(runs).Keys :: k !in runs <==>
        old(runs[k].run.refCount <= 0 && runs[k].idleSince.Some? && now - runs[k].idleSince.value > 10.0)
      ensures forall k <- runs.Keys :: k in old(runs) && runs[k] == old(runs)[k]
      ensures forall k <- old(runs).Keys :: k !in runs ==>
        !old(runs)[k].run.running && forall s <- sessions :: s.run != old(runs)[k].run
      ensures forall k <- runs.Keys :: runs[k].run.running == old(runs[k].run.running)
    {
      hide RunKey, OnGrid, Holders, Counted;
      IdleIsUnheld();
      var toCleanup := TakeIdle(now);
      CleanupAll(toCleanup);
    }

    method CleanupAll(toCleanup: seq<TranscodeRun>)
      requires forall r <- toCleanup :: r in pool
      modifies pool`running
      ensures forall r <- pool :: r.running == (old(r.running) && r !in toCleanup)
    {
      for i := 0 to |toCleanup|
        modifies pool`running
        invariant forall r <- pool :: r.running == (old(r.running) && r !in toCleanup[..i])
      {
        toCleanup[i].Cleanup();
        assert toCleanup[..i + 1] == toCleanup[..i] + [toCleanup[i]];
      }
      assert toCleanup[..|toCleanup|] == toCleanup;
    }

    /** The locked part of the reaper. */
    method TakeIdle(now: real) returns (toCleanup: seq<TranscodeRun>)
      requires Keyed()
      modifies this`runs
      ensures Keyed()
      ensures runs == map k | k in old(runs) && !Reapable(old(runs)[k], now) :: old(runs)[k]
      ensures forall r <- toCleanup :: r in pool && !Has(r) && r.refCount <= 0
      ensures forall k <- old(runs).Keys :: k !in runs ==> old(runs)[k].run in toCleanup
    {
      hide Keyed, LongIdle, Reapable, Has;
      ghost var was := runs;
      ghost var idle := IdleKeys(now);
      toCleanup := [];
      var keys := runs.Keys;
      while keys != {}
        invariant keys <= was.Keys && runs == Without(was, idle - keys)
        invariant forall r <- toCleanup :: r.key in idle - keys && r == was[r.key].run
        invariant forall k <- idle - keys :: was[k].run in toCleanup
        decreases |keys|
      {
        KeyLeft(keys);
        var k :| k in keys;
        WithoutOne(was, idle, keys, k);
        if Reapable(runs[k], now) {
          toCleanup := toCleanup + [runs[k].run];
          runs := runs - {k};
        }
        keys := keys - {k};
      }
      assert idle - keys == idle;
      StaysKeyed();
      forall r | r in toCleanup
        ensures !Has(r)
      {
        Unmapped(r);
      }
    }

    lemma Unmapped(r: TranscodeRun)
      requires r.key !in runs
      ensures !Has(r)
    {
    }

    twostate lemma StaysKeyed()
      requires old(Keyed()) && pool == old(pool) && forall r <- pool :: r.refCount == old(r.refCount)
      requires forall k :: k in runs ==> k in old(runs) && runs[k] == old(runs)[k]
      ensures Keyed()
    {
    }

    ghost function IdleKeys(now: real): (keys: set<string>)
      requires Keyed()
      reads this`runs, this`pool, pool`refCount
      ensures forall k :: k in keys <==> k in runs && Reapable(runs[k], now)
      ensures forall k <- keys :: runs[k].run.key == k && runs[k].run in pool && runs[k].run.refCount <= 0
    {
      set k | k in runs && Reapable(runs[k], now)
    }

    lemma KeyLeft(keys: set<string>)
      requires keys != {}
      ensures exists k :: k in keys
    {
      assert (forall k :: k !in keys) ==> keys == {};
    }
  }

  /** Sessions of one directory at one position share one run. */
  lemma SamePositionSharesRun(m: RunManager, s1: Session, s2: Session)
    requires m.Valid() && s1 in m.sessions && s2 in m.sessions && s1 !in m.misused && s2 !in m.misused
    requires s1.run != null && s2.run != null
    ensures s1.run == s2.run <==> s1.hashDir == s2.hashDir && s1.seekTime == s2.seekTime
  {
    KeysTellApart(s1.hashDir, s1.seekTime, s2.hashDir, s2.seekTime);
  }

  class Session {
    const hashDir: string
    const runMgr: RunManager
    var seekTime: real
    var run: TranscodeRun?
    var closed: bool

    constructor (hashDir: string, runMgr: RunManager)
      requires runMgr.Valid()
      modifies runMgr`sessions
      ensures runMgr.Valid() && run == null && !closed && this.hashDir == hashDir && this.runMgr == runMgr
      ensures runMgr.sessions == old(runMgr.sessions) + {this}
    {
      this.hashDir, this.runMgr := hashDir, runMgr;
      seekTime, run, closed := 0.0, null, false;
      new;
      assert Position(0) == 0.0;
      runMgr.sessions := runMgr.sessions + {this};
      forall r <- runMgr.pool
        ensures runMgr.Holders(r) == old(runMgr.Holders(r))
      {
      }
    }

    ghost predicate SessionValid(m: RunManager)
      reads this, m
    {
      && runMgr == m
      && OnGrid(seekTime) && seekTime >= 0.0
      && (closed ==> run == null)
      && (run != null ==> m.Has(run))
      && (run != null && this !in m.misused ==> run.key == RunKey(hashDir, seekTime))
    }

    /** What Valid says of this session. */
    lemma Held()
      requires runMgr.Valid() && this in runMgr.sessions
      ensures runMgr.Keyed() && OnGrid(seekTime) && seekTime >= 0.0 && runMgr.misused <= runMgr.sessions
      ensures runMgr.Consistent() && runMgr.Counted(null)
      ensures run != null ==> runMgr.Has(run) && run in runMgr.pool && run.refCount >= 1
    {
      hide OnGrid;
      if run != null {
        assert this in runMgr.Holders(run);
      }
    }

    /** When only this session changes its run, the old run loses a holder and the new one gains one. */
    twostate lemma Switched(new after: TranscodeRun?)
      requires this in old(runMgr.sessions) && runMgr.sessions == old(runMgr.sessions) && after == run
      requires forall s <- runMgr.sessions :: s != this ==> s.run == old(s.run)
      ensures forall r <- old(runMgr.pool) ::
        |runMgr.Holders(r)| == |old(runMgr.Holders(r))| + (if r == after then 1 else 0) - if r == old(run) then 1 else 0
      ensures after != null && fresh(after) ==> |runMgr.Holders(after)| == 1
    {
      hide RunManager.Holders;
      forall r <- old(runMgr.pool)
        ensures |runMgr.Holders(r)|
          == |old(runMgr.Holders(r))| + (if r == after then 1 else 0) - if r == old(run) then 1 else 0
      {
        SwitchedFor(after, r);
      }
      if after != null && fresh(after) {
        OnlyHolder(after);
      }
    }

    twostate lemma SwitchedFor(new after: TranscodeRun?, r: TranscodeRun)
      requires this in old(runMgr.sessions) && runMgr.sessions == old(runMgr.sessions) && after == run
      requires forall s <- runMgr.sessions :: s != this ==> s.run == old(s.run)
      ensures |runMgr.Holders(r)|
        == |old(runMgr.Holders(r))| + (if r == after then 1 else 0) - if r == old(run) then 1 else 0
    {
      assert runMgr.Holders(r) == old(runMgr.Holders(r)) - {this} + if r == after then {this} else {};
    }

    twostate lemma OnlyHolder(new after: TranscodeRun)
      requires this in old(runMgr.sessions) && runMgr.sessions == old(runMgr.sessions) && after == run && fresh(after)
      requires forall s <- runMgr.sessions :: s != this ==> s.run == old(s.run)
      ensures |runMgr.Holders(after)| == 1
    {
      assert runMgr.Holders(after) == {this};
    }

    /** Counts stay right when references move with the session. */
    twostate lemma StaysCounted(new after: TranscodeRun?)
      requires this in old(runMgr.sessions) && runMgr.sessions == old(runMgr.sessions) && after == run
      requires forall s <- runMgr.sessions :: s != this ==> s.run == old(s.run)
      requires old(runMgr.Counted(null)) && old(runMgr.pool) <= runMgr.pool
      requires forall r <- old(runMgr.pool) ::
        r.refCount - r.leaked
          == old(r.refCount) - old(r.leaked) + (if r == after then 1 else 0) - if r == old(run) then 1 else 0
      requires runMgr.pool == old(runMgr.pool) || (after != null && runMgr.pool == old(runMgr.pool) + {after})
      requires after != null && after !in old(runMgr.pool) ==> fresh(after) && after.refCount == 1 && after.leaked == 0
      ensures runMgr.Counted(null)
    {
      hide RunManager.Holders;
      Switched(after);
    }

    /** The other sessions stay as they were while the map only grows. */
    twostate lemma StaysConsistent()
      requires this in old(runMgr.sessions) && runMgr.sessions == old(runMgr.sessions)
      requires old(runMgr.misused) <= runMgr.misused <= runMgr.sessions && old(runMgr.Consistent()) && runMgr.Keyed()
      requires forall s <- runMgr.sessions :: s != this ==>
        s.run == old(s.run) && s.seekTime == old(s.seekTime) && s.closed == old(s.closed)
      requires forall k <- old(runMgr.runs).Keys :: k in runMgr.runs && runMgr.runs[k].run == old(runMgr.runs)[k].run
      requires || (run == old(run) && seekTime == old(seekTime) && closed == old(closed))
               || (!closed && OnGrid(seekTime) && seekTime >= 0.0
                   && (run != null ==> runMgr.Has(run))
                   && (run != null && this !in runMgr.misused ==> run.key == RunKey(hashDir, seekTime)))
      ensures runMgr.Consistent()
    {
      hide RunKey, OnGrid;
    }

    /** Drops the reference to the held run. */
    method ReleaseRunLocked(now: real)
      requires runMgr.Valid() && this in runMgr.sessions
      modifies this`run, runMgr`runs, runMgr.pool`refCount
      ensures runMgr.Valid() && run == null
      ensures forall r <- runMgr.pool :: r.refCount == old(r.refCount) - if r == old(run) then 1 else 0
    {
      hide RunKey, OnGrid, RunManager.Counted;
      Held();
      if run != null {
        runMgr.Release(run, now);
        run := null;
        StaysCounted(run);
      }
    }

    /** Takes a run at the current position; on failure nothing is taken and nothing is lost. */
    method AcquireRunLocked(works: bool, now: real) returns (ok: bool)
      requires runMgr.Keyed() && seekTime >= 0.0
      modifies this`run, runMgr`runs, runMgr`pool
      modifies runMgr.pool`refCount, runMgr.pool`running, runMgr.pool`exited
      ensures runMgr.Keyed()
      ensures ok ==> run != null && runMgr.Has(run) && run.running && run.key == RunKey(hashDir, seekTime)
      ensures ok ==> runMgr.pool == old(runMgr.pool) + {run}
      ensures ok && run !in old(runMgr.pool) ==> fresh(run) && run.refCount == 1 && run.leaked == 0
      ensures !ok ==> !works && run == old(run) && runMgr.pool == old(runMgr.pool)
      ensures forall r <- old(runMgr.pool) :: r.refCount == old(r.refCount) + if ok && r == run then 1 else 0
      ensures forall k <- old(runMgr.runs).Keys :: k in runMgr.runs && runMgr.runs[k].run == old(runMgr.runs)[k].run
      ensures !ok ==> runMgr.runs.Keys == old(runMgr.runs).Keys
    {
      hide RunKey, OnGrid;
      var r := runMgr.Acquire(hashDir, seekTime, works, now);
      if r == null {
        return false;
      }
      run := r;
      ok := true;
    }

    /** Starts the session at a position. On a session that holds a run already, the reference to
        that run is never given back. */
    method Start(t: real, works: bool, now: real) returns (ok: bool)
      requires runMgr.Valid() && this in runMgr.sessions
      modifies this, runMgr, runMgr.pool
      ensures runMgr.Valid() && runMgr.sessions == old(runMgr.sessions)
      ensures runMgr.misused == old(runMgr.misused) + if !closed && old(run) != null then {this} else {}
      ensures old(closed) ==> !ok
      ensures ok ==> run != null && seekTime == Quantize(t) && run.key == RunKey(hashDir, seekTime)
      ensures closed == old(closed) && (!ok ==> run == old(run)) && (!closed ==> seekTime == Quantize(t))
    {
      hide Quantize, RunKey, OnGrid, RunManager.Counted, RunManager.Consistent, RunManager.Keyed, SessionValid;
      Held();
      QuantizedIsValid(t);
      if closed {
        return false;
      }
      if run != null {
        runMgr.misused := runMgr.misused + {this};
      }
      seekTime := Quantize(t);
      ghost var before := run;
      ok := AcquireRunLocked(works, now);
      if ok && before != null {
        before.leaked := before.leaked + 1;
      }
      StaysConsistent();
      StaysCounted(run);
    }

    /** The parts of Valid, and Valid from its parts when nothing was leaked. */
    twostate lemma StaysValid()
      requires old(runMgr.Valid()) && runMgr.Consistent() && runMgr.Counted(null) && runMgr.misused == old(runMgr.misused)
      requires forall r <- runMgr.pool :: r.leaked == (if r in old(runMgr.pool) then old(r.leaked) else 0)
      ensures runMgr.Valid()
    {
      hide RunManager.Consistent, RunManager.Counted;
    }

    /** Gives back the run held before a seek. */
    method ReleaseFormer(oldRun: TranscodeRun, now: real)
      requires runMgr.Keyed() && oldRun.refCount >= 1
      modifies runMgr`runs, oldRun`refCount
      ensures runMgr.Keyed() && oldRun.refCount == old(oldRun.refCount) - 1
      ensures forall k <- old(runMgr.runs).Keys :: k in runMgr.runs && runMgr.runs[k].run == old(runMgr.runs)[k].run
      ensures run != null && old(runMgr.Has(run)) ==> runMgr.Has(run)
    {
      hide RunManager.Keyed;
      runMgr.Release(oldRun, now);
    }

    /** Moves the session. A failed move leaves run, position and every count as they were. */
    method Seek(t: real, works: bool, now: real) returns (ok: bool)
      requires runMgr.Valid() && this in runMgr.sessions
      modifies this`run, this`seekTime, runMgr`runs, runMgr`pool
      modifies runMgr.pool`refCount, runMgr.pool`running, runMgr.pool`exited
      ensures runMgr.Valid() && closed == old(closed)
      ensures old(closed) ==> !ok
      ensures ok ==> run != null && seekTime == Quantize(t) && run.key == RunKey(hashDir, seekTime)
      ensures !ok ==> run == old(run) && seekTime == old(seekTime) && runMgr.pool == old(runMgr.pool)
      ensures !ok ==> runMgr.runs.Keys == old(runMgr.runs).Keys
      ensures forall k <- old(runMgr.runs).Keys :: k in runMgr.runs && runMgr.runs[k].run == old(runMgr.runs)[k].run
      ensures forall r <- old(runMgr.pool) ::
        r.refCount == old(r.refCount) + if !ok then 0 else (if r == run then 1 else 0) - if r == old(run) then 1 else 0
    {
      hide Quantize, RunKey, OnGrid, RunManager.Has, RunManager.Valid, RunManager.Counted, RunManager.Consistent, RunManager.Keyed, SessionValid;
      Held();
      QuantizedIsValid(t);
      if closed {
        return false;
      }
      var oldRun, oldSeekTime := run, seekTime;
      run := null;
      seekTime := Quantize(t);
      ok := AcquireRunLocked(works, now);
      if !ok {
        seekTime := oldSeekTime;
        run := oldRun;
      } else if oldRun != null {
        ReleaseFormer(oldRun, now);
      }
      StaysConsistent();
      StaysCounted(run);
      StaysValid();
    }

    /** Gives the run back; FFmpeg may go on for other sessions. */
    method Stop(now: real)
      requires runMgr.Valid() && this in runMgr.sessions
      modifies this`run, runMgr`runs, runMgr.pool`refCount
      ensures runMgr.Valid() && run == null
      ensures forall r <- runMgr.pool :: r.refCount == old(r.refCount) - if r == old(run) then 1 else 0
    {
      ReleaseRunLocked(now);
    }

    method Close(now: real)
      requires runMgr.Valid() && this in runMgr.sessions
      modifies this`run, this`closed, runMgr`runs, runMgr.pool`refCount
      ensures runMgr.Valid() && run == null && closed
      ensures forall r <- runMgr.pool :: r.refCount == old(r.refCount) - if r == old(run) then 1 else 0
    {
      hide RunKey, OnGrid, RunManager.Counted;
      if closed {
        return;
      }
      ReleaseRunLocked(now);
      label released:
      closed := true;
      StaysCounted@released(run);
    }

    /** Takes a run again at the same position if none is held or the held one is not running. */
    method EnsureRunning(works: bool, now: real) returns (ok: bool)
      requires runMgr.Valid() && this in runMgr.sessions
      modifies this`run, runMgr`runs, runMgr`pool
      modifies runMgr.pool`refCount, runMgr.pool`running, runMgr.pool`exited
      ensures runMgr.Valid()
      ensures old(closed) ==> !ok
      ensures ok ==> run != null && run.running
      ensures ok && !(old(run) != null && old(run.running && !run.exited)) ==> run.key == RunKey(hashDir, seekTime)
      ensures !ok && !closed ==> run == null
      ensures !closed && old(run) != null && old(run.running && !run.exited) ==> ok && run == old(run)
      ensures old(closed) || (old(run) != null && old(run.running && !run.exited)) ==>
        forall r <- old(runMgr.pool) :: r.refCount == old(r.refCount)
    {
      hide RunKey, OnGrid, RunManager.Counted, RunManager.Consistent, RunManager.Keyed, SessionValid;
      Held();
      if closed {
        return false;
      }
      if run != null {
        var live := run.IsRunning();
        if live {
          return true;
        }
      }
      StaysCounted(run);
      ReleaseRunLocked(now);
      label released:
      Held();
      ok := AcquireRunLocked(works, now);
      StaysConsistent@released();
      StaysCounted@released(run);
    }

    /** The same for a missing segment: segments are numbered from the position kept. */
    method RestartForSegment(segNum: int, works: bool, now: real) returns (ok: bool)
      requires runMgr.Valid() && this in runMgr.sessions
      modifies this`run, runMgr`runs, runMgr`pool
      modifies runMgr.pool`refCount, runMgr.pool`running, runMgr.pool`exited
      ensures runMgr.Valid()
      ensures old(closed) ==> !ok
      ensures ok ==> run != null && run.running
      ensures ok && !(old(run) != null && old(run.running && !run.exited)) ==> run.key == RunKey(hashDir, seekTime)
      ensures !ok && !closed ==> run == null
      ensures !closed && old(run) != null && old(run.running && !run.exited) ==> ok && run == old(run)
      ensures old(closed) || (old(run) != null && old(run.running && !run.exited)) ==>
        forall r <- old(runMgr.pool) :: r.refCount == old(r.refCount)
    {
      ok := EnsureRunning(works, now);
    }
  }
}
