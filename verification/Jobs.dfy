/** The locking code itself, as one thread runs it (internal/daemon/lock.go, internal/daemon/write_limiter.go,
    and the jobs in daemon.go and app.go). Each method is checked against the program that the transition
    system of module Protocol gives the thread: every mutex, file-lock, container and worker call it makes is
    a move of that program, so the runs of module Protocol are the runs of this code.
    What other threads, the operating system and Docker do shows up in the answers of a world; every call is the one
    the code makes next, so a job has exactly one log for each world. A wait ends after finitely many polls, because
    lockWaitContext always sets a deadline. */
module Jobs {
  import opened Text
  import opened Config
  import opened Sources
  import opened Keys
  import opened Protocol
  import opened Logs
  import Restoring

  // ---- One mutex object for each key of a process ----

  class Mutex {
    constructor () {}
  }

  /** The mutexes of a process, by key: those of locks (lock.go) or of write slots (write_limiter.go). */
  class LockManager<K(==)> {
    var byName: map<K, Mutex>

    /** Different keys have different mutexes. */
    ghost predicate Valid()
      reads this
    {
      forall a, b | a in byName && b in byName && byName[a] == byName[b] :: a == b
    }

    constructor ()
      ensures Valid() && byName == map[]
    {
      byName := map[];
    }

    /** localLock and writeSlotLocalLock: a key has one mutex for good, made on first use and shared with no
        other key. */
    method LocalLock(key: K) returns (local: Mutex)
      requires Valid()
      modifies this
      ensures Valid() && key in byName && byName[key] == local
      ensures byName == old(byName)[key := local]
      ensures key in old(byName) ==> byName == old(byName)
      ensures key !in old(byName) ==> fresh(local)
    {
      if key !in byName {
        var made := new Mutex();
        byName := byName[key := made];
      }
      local := byName[key];
    }
  }

  // ---- The thread ----

  /** Before a section and back out of it, the same is held, whichever slot was tried last. */
  lemma {:induction false} OutsideAgain(program: Program, k: nat, slot: nat, last: nat)
    requires ValidProgram(program) && k < |program.plan| && (program.plan[k].AnySlot? || last == slot)
    requires Fits(program.plan, Local(Enter(k), slot))
    ensures forall l | l in {Local(Enter(k), last), Outer(k, last)} && Fits(program.plan, l) ::
              && FlocksAt(program.plan, l) == FlocksAt(program.plan, Local(Enter(k), slot))
              && MutexesAt(program.plan, l) == MutexesAt(program.plan, Local(Enter(k), slot))
  {
    TargetFresh(program.plan, k, slot);
    if last != slot {
      HeldBelowSlot(program.plan, k, slot, last);
    }
  }

  class Session {
    const program: Program
    const locks: LockManager<string>
    const slots: LockManager<(string, nat)>
    const world: World
    var mutexes: set<Res>
    var flocks: set<Res>
    var log: seq<Action>
    ghost var at: Local

    ghost predicate Valid()
      reads this, locks, slots
    {
      && locks.Valid() && slots.Valid()
      && ValidProgram(program) && Fits(program.plan, at) && PhaseFits(program, at)
      && Replay(program, log) == Some(at)
      && Timely(world) && Honest(world, program, log)
      && flocks == FlocksAt(program.plan, at)
      && mutexes == MutexesAt(program.plan, at)
    }

    constructor (program: Program, locks: LockManager<string>, slots: LockManager<(string, nat)>, world: World)
      requires ValidProgram(program) && locks.Valid() && slots.Valid() && Timely(world)
      ensures Valid() && this.program == program && this.locks == locks && this.slots == slots && this.world == world
      ensures log == [] && at == StartLocal() && mutexes == {} && flocks == {} && !Fails(log)
    {
      this.program, this.locks, this.slots, this.world := program, locks, slots, world;
      mutexes, flocks, log, at := {}, {}, [], StartLocal();
    }

    /** One call to the operating system or to Docker: the one the code makes next, answered by the world. */
    method Do(a: Action)
      requires Valid() && Move(program, at, a).Some? && Answered(world, program, at, log, a)
      modifies this
      ensures Valid() && Move(program, old(at), a) == Some(at)
      ensures log == old(log) + [a] && (Fails(log) <==> Fails(old(log)) || Failing(a))
    {
      MoveKeeps(program, at, a);
      FailsAppend(log, a);
      OneMoreAnswer(world, program, log, a);
      assert (log + [a])[..|log|] == log;
      if a.TryMutex? && a.got {
        mutexes := mutexes + {a.res};
      } else if a.Unmutex? {
        mutexes := mutexes - {a.res};
      }
      if a.TryFlock? && a.result == Got {
        flocks := flocks + {a.res};
      } else if a.Unflock? {
        flocks := flocks - {a.res};
      }
      log, at := log + [a], Move(program, at, a).value;
    }

    /** The mutex object that the process has for a lock's printed key, or for a slot. */
    ghost predicate Guards(local: Mutex, r: Res)
      reads locks, slots
    {
      match r
      case Lock(id) => KeyOf(id) in locks.byName && locks.byName[KeyOf(id)] == local
      case Slot(backend, index) => (backend, index) in slots.byName && slots.byName[(backend, index)] == local
    }

    /** Mutex.TryLock on the mutex of the resource. */
    method TryLock(local: Mutex, r: Res) returns (got: bool)
      requires Guards(local, r)
      requires Valid() && Move(program, at, TryMutex(r, true)).Some? && Move(program, at, TryMutex(r, false)).Some?
      requires MayTry(world, program, at, log)
      modifies this
      ensures Valid() && Move(program, old(at), TryMutex(r, got)) == Some(at)
      ensures got == world.free(old(log)) && log == old(log) + [TryMutex(r, got)]
      ensures Fails(log) <==> Fails(old(log))
    {
      got := world.free(log);
      Do(TryMutex(r, got));
    }

    /** Flock(LOCK_EX|LOCK_NB). */
    method Flock(r: Res) returns (result: Attempt)
      requires Valid() && Move(program, at, TryFlock(r, Got)).Some?
      requires Move(program, at, TryFlock(r, Busy)).Some? && Move(program, at, TryFlock(r, Failed)).Some?
      requires MayTry(world, program, at, log)
      modifies this
      ensures Valid() && Move(program, old(at), TryFlock(r, result)) == Some(at)
      ensures result == world.flock(old(log)) && log == old(log) + [TryFlock(r, result)]
      ensures Fails(log) <==> Fails(old(log)) || result == Failed
    {
      result := world.flock(log);
      assert result == Got || result == Busy || result == Failed;
      Do(TryFlock(r, result));
    }

    /** acquireLocalLock: try the mutex of the process until the deadline. */
    method AcquireLocalLock(k: nat, id: LockId) returns (ok: bool, ghost misses: nat)
      requires Valid() && at.pc == Enter(k) && k < |program.plan| && program.plan[k] == Exclusive(id) && Arrived(log)
      modifies this, locks
      ensures Valid()
      ensures at == if ok then Local(Locked(k), old(at.slot)) else Outer(k, old(at.slot))
      ensures log == old(log) + Times(misses, TryMutex(Lock(id), false))
                     + [if ok then TryMutex(Lock(id), true) else GiveUp]
      ensures !ok ==> misses > 0
      ensures Fails(log) <==> Fails(old(log)) || !ok
    {
      hide Fails, Replay, Honest, Timely, Held, FlocksAt, MutexesAt, LockManager.Valid;
      hide ValidProgram, Fits, PhaseFits, Times, KeyOf;
      var local := locks.LocalLock(KeyOf(id));
      ghost var miss := TryMutex(Lock(id), false);
      Repeated(log, 0, miss);
      ok := TryLock(local, Lock(id));
      misses := if ok then 0 else 1;
      while !ok
        invariant Guards(local, Lock(id))
        invariant Valid() && at == if ok then Local(Locked(k), old(at.slot)) else old(at)
        invariant log == old(log) + Times(misses, miss) + (if ok then [TryMutex(Lock(id), true)] else [])
        invariant !ok ==> misses > 0 && Last(log) == Some(miss)
        invariant Fails(log) <==> Fails(old(log))
        decreases !ok, world.horizon - |log|
      {
        StillTime(world, log);
        if world.late(log) {
          Do(GiveUp);
          return;
        }
        Repeated(old(log), misses, miss);
        ok := TryLock(local, Lock(id));
        misses := if ok then misses else misses + 1;
      }
    }

    /** flock: try the file lock until the deadline; it may also fail for good. */
    method WaitFlock(k: nat, id: LockId) returns (ok: bool, ghost misses: nat, ghost end: Action)
      requires Valid() && at.pc == Locked(k) && k < |program.plan| && program.plan[k] == Exclusive(id)
      requires Last(log) == Some(TryMutex(Lock(id), true)) && world.opens(log)
      modifies this
      ensures Valid()
      ensures at == if ok then Inner(program, k, old(at.slot)) else Local(Drop(k), old(at.slot))
      ensures log == old(log) + Times(misses, TryFlock(Lock(id), Busy)) + [end]
      ensures FlockEnd(end, id, ok, misses)
      ensures Fails(log) <==> Fails(old(log)) || !ok
    {
      hide Fails, Replay, Honest, Timely, Held, FlocksAt, MutexesAt, LockManager.Valid;
      hide ValidProgram, Fits, PhaseFits, Times;
      ghost var miss := TryFlock(Lock(id), Busy);
      Repeated(log, 0, miss);
      var result := Flock(Lock(id));
      misses := if result == Busy then 1 else 0;
      while result == Busy
        invariant Valid()
        invariant at == match result
                        case Got => Inner(program, k, old(at.slot))
                        case Busy => old(at)
                        case Failed => Local(Drop(k), old(at.slot))
        invariant log == old(log) + Times(misses, miss) + (if result == Busy then [] else [TryFlock(Lock(id), result)])
        invariant result == Busy ==> misses > 0 && Last(log) == Some(miss)
        invariant Fails(log) <==> Fails(old(log)) || result == Failed
        decreases result == Busy, world.horizon - |log|
      {
        StillTime(world, log);
        if world.late(log) {
          Do(GiveUp);
          return false, misses, GiveUp;
        }
        Repeated(old(log), misses, miss);
        result := Flock(Lock(id));
        misses := if result == Busy then misses + 1 else misses;
      }
      ok, end := result == Got, TryFlock(Lock(id), result);
    }

    /** The part of lockManager.with before fn: the mutex of the process, then the file lock. */
    method Acquire(k: nat, id: LockId) returns (ok: bool)
      requires Valid() && at.pc == Enter(k) && k < |program.plan| && program.plan[k] == Exclusive(id) && Arrived(log)
      modifies this, locks
      ensures Valid() && (ok ==> Arrived(log))
      ensures at == if ok then Inner(program, k, old(at.slot)) else Outer(k, old(at.slot))
      ensures !ok ==> mutexes == old(mutexes) && flocks == old(flocks)
      ensures Fails(log) <==> Fails(old(log)) || !ok
    {
      hide Fails, Replay, Honest, Timely, Held, FlocksAt, MutexesAt, LockManager.Valid;
      hide ValidProgram, Fits, PhaseFits;
      OutsideAgain(program, k, at.slot, at.slot);
      ghost var misses, end;
      ok, misses := AcquireLocalLock(k, id);
      if !ok {
        return;
      }
      if !world.opens(log) {
        Do(NoFile);
        Do(Unmutex(Lock(id)));
        return false;
      }
      ok, misses, end := WaitFlock(k, id);
      if !ok {
        Do(Unmutex(Lock(id)));
      }
    }

    /** What is deferred around fn: the file lock, then the mutex. */
    method Release(k: nat, r: Res)
      requires Valid() && at.pc == Leave(k) && k < |program.plan| && r == Target(program.plan[k], at.slot)
      modifies this
      ensures Valid() && at == Outer(k, old(at.slot))
      ensures log == old(log) + [Unflock(r), Unmutex(r)]
      ensures Fails(log) <==> Fails(old(log))
    {
      hide Fails, Replay, Honest, Timely, Held, FlocksAt, MutexesAt, LockManager.Valid;
      hide ValidProgram, Fits, PhaseFits;
      Do(Unflock(r));
      Do(Unmutex(r));
    }

    /** The middle of tryAcquireSlot: open the file of the slot, and try its file lock once. */
    method TryFile(k: nat, slot: nat, res: Res) returns (result: Attempt, ghost call: Action)
      requires Valid() && at == Local(Locked(k), slot) && k < |program.plan| && program.plan[k].AnySlot?
      requires res == Target(program.plan[k], slot) && Last(log) == Some(TryMutex(res, true))
      modifies this
      ensures Valid() && log == old(log) + [call]
      ensures call == if world.opens(old(log)) then TryFlock(res, result) else NoFile
      ensures result == if world.opens(old(log)) then world.flock(old(log)) else Failed
      ensures at == match result
                    case Got => Inner(program, k, slot)
                    case Busy => Local(Retry(k), slot)
                    case Failed => Local(Drop(k), slot)
      ensures Fails(log) <==> Fails(old(log)) || result == Failed
    {
      hide Fails, Replay, Honest, Timely, Held, FlocksAt, MutexesAt, LockManager.Valid;
      hide ValidProgram, Fits, PhaseFits;
      if !world.opens(log) {
        Do(NoFile);
        return Failed, NoFile;
      }
      result := Flock(res);
      call := TryFlock(res, result);
    }

    /** tryAcquireSlot: one attempt at one slot. */
    method TryAcquireSlot(k: nat, backend: string, max: nat, slot: nat)
      returns (r: SlotTry, ghost calls: seq<Action>)
      requires Valid() && at == Local(Enter(k), slot) && slot < max
      requires k < |program.plan| && program.plan[k] == AnySlot(backend, max)
      requires MayTry(world, program, at, log)
      modifies this, slots
      ensures Valid()
      ensures r != Taken ==> mutexes == old(mutexes) && flocks == old(flocks)
      ensures at == match r
                    case Taken => Inner(program, k, slot)
                    case Missed => Local(Enter(k), slot + 1)
                    case Broke => Outer(k, slot)
      ensures log == old(log) + calls && SlotTried(calls, Slot(backend, slot), r)
      ensures calls[0] == TryMutex(Slot(backend, slot), world.free(old(log)))
      ensures Fails(log) <==> Fails(old(log)) || r == Broke
    {
      hide Fails, Replay, Honest, Timely, Held, FlocksAt, MutexesAt, LockManager.Valid;
      hide ValidProgram, Fits, PhaseFits;
      OutsideAgain(program, k, slot, slot);
      OutsideAgain(program, k, slot, slot + 1);
      var res := Slot(backend, slot);
      var local := slots.LocalLock((backend, slot));
      var got := TryLock(local, res);
      calls := [TryMutex(res, got)];
      if !got {
        return Missed, calls;
      }
      var result;
      ghost var call;
      result, call := TryFile(k, slot, res);
      if result == Got {
        return Taken, calls + [call];
      }
      Do(Unmutex(res));
      calls := calls + [call, Unmutex(res)];
      r := if result == Busy then Missed else Broke;
    }

    /** tryAcquire: the slots from 0 up, until one is taken. */
    method TryAcquire(k: nat, backend: string, max: nat) returns (r: SlotTry, slot: nat)
      requires Valid() && at == Local(Enter(k), 0) && max > 0
      requires k < |program.plan| && program.plan[k] == AnySlot(backend, max)
      requires MayTry(world, program, at, log)
      modifies this, slots
      ensures Valid()
      ensures r == Missed || slot < max
      ensures r != Taken ==> mutexes == old(mutexes) && flocks == old(flocks)
      ensures at == match r
                    case Taken => Inner(program, k, slot)
                    case Missed => Local(Enter(k), max)
                    case Broke => Outer(k, slot)
      ensures old(log) < log && log[|old(log)|] == TryMutex(Slot(backend, 0), world.free(old(log)))
      ensures Scanned(log[|old(log)|..], backend, max, r, slot)
      ensures r == Taken ==> Arrived(log)
      ensures r == Broke ==> Last(log) != Some(GiveUp)
      ensures Fails(log) <==> Fails(old(log)) || r == Broke
    {
      hide Fails, Replay, Honest, Timely, Held, FlocksAt, MutexesAt, LockManager.Valid;
      hide ValidProgram, Fits, PhaseFits, MissedScan, SlotTried;
      slot := 0;
      ghost var start := log;
      NothingMissed(log, backend);
      while slot < max
        invariant Valid() && slot <= max && at == Local(Enter(k), slot)
        invariant mutexes == old(mutexes) && flocks == old(flocks)
        invariant start == old(log) && start <= log && MissedScan(log[|start|..], backend, slot)
        invariant if slot == 0 then log == start
                  else start < log && log[|start|] == TryMutex(Slot(backend, 0), world.free(start))
        invariant Fails(log) <==> Fails(old(log))
      {
        ghost var before := log;
        ghost var calls;
        r, calls := TryAcquireSlot(k, backend, max, slot);
        assert log[|start|..] == before[|start|..] + calls;
        SlotCalls(before, calls, Slot(backend, slot), r);
        if r != Missed {
          OneMoreTry(before[|start|..], calls, backend, max, r, slot);
          return;
        }
        OneMoreMiss(before[|start|..], calls, backend, slot);
        slot := slot + 1;
      }
      r := Missed;
    }

    /** The part of WriteLimiter.With before fn: scans of all slots until one is taken. `cut` is where the last scan
        begins. */
    method AcquireSlot(k: nat, backend: string, max: nat) returns (ok: bool, slot: nat, ghost cut: nat)
      requires Valid() && at == Local(Enter(k), 0) && max > 0
      requires k < |program.plan| && program.plan[k] == AnySlot(backend, max)
      requires Arrived(log)
      modifies this, slots
      ensures Valid() && (ok ==> Arrived(log))
      ensures ok ==> slot < max && at == Inner(program, k, slot)
      ensures !ok ==> mutexes == old(mutexes) && flocks == old(flocks)
      ensures !ok ==> at.pc == Outer(k, 0).pc
      ensures log == old(log) + [NoFile] || (old(log) < log && log[|old(log)|].TryMutex?)
      ensures Last(log) == Some(GiveUp) ==>
                |old(log)| <= cut < |log| && MissedScan(log[cut..|log| - 1], backend, max)
      ensures Fails(log) <==> Fails(old(log)) || !ok
    {
      hide Fails, Replay, Honest, Timely, Held, FlocksAt, MutexesAt, LockManager.Valid;
      hide ValidProgram, Fits, PhaseFits, MissedScan;
      slot, cut := 0, |log|;
      if !world.opens(log) {
        OutsideAgain(program, k, 0, 0);
        Do(NoFile);
        return false, 0, cut;
      }
      var r;
      ghost var start := log;
      r, slot := TryAcquire(k, backend, max);
      while r == Missed
        invariant Valid() && start == old(log) && start < log && log[|start|].TryMutex?
        invariant |start| <= cut <= |log|
        invariant r == Taken ==> slot < max && at == Inner(program, k, slot) && Arrived(log)
        invariant r == Missed ==> at == Local(Enter(k), max) && MissedScan(log[cut..], backend, max)
        invariant r != Taken ==> mutexes == old(mutexes) && flocks == old(flocks)
        invariant r == Broke ==> at.pc == Outer(k, 0).pc && Last(log) != Some(GiveUp)
        invariant Fails(log) <==> Fails(old(log)) || r == Broke
        decreases r == Missed, world.horizon - |log|
      {
        OutsideAgain(program, k, max, max);
        StillTime(world, log);
        if world.late(log) {
          ghost var before := log;
          Do(GiveUp);
          assert log[cut..|log| - 1] == before[cut..];
          return false, 0, cut;
        }
        Do(Rest);
        cut := |log|;
        r, slot := TryAcquire(k, backend, max);
      }
      ok := r == Taken;
    }

    method RunWorker() returns (ok: bool)
      requires Valid() && at.pc == Inside(Working)
      modifies this
      ensures Valid()
      ensures at == old(at).(pc := if program.container.Some? then Inside(Starting) else Leave(|program.plan| - 1))
      ensures Fails(log) <==> Fails(old(log)) || !ok
    {
      ok := world.obeys(log);
      Do(Work(ok));
    }

    /** runWorkerWithStoppedContainer and restartBackupContainer. */
    method RunWorkerWithStoppedContainer(k: nat, container: string) returns (ok: bool)
      requires Valid() && at.pc == Enter(k) && k == |program.plan| - 1
      requires program.plan[k] == Exclusive(ContainerLock(container)) && program.container == Some(container)
      requires Arrived(log)
      modifies this, locks
      ensures Valid() && at == Outer(k, old(at.slot))
      ensures Fails(log) <==> Fails(old(log)) || !ok
    {
      hide Fails, Replay, Honest, Timely, Held, FlocksAt, MutexesAt, LockManager.Valid;
      hide ValidProgram, Fits, PhaseFits, Waiting, Opening;
      ok := Acquire(k, ContainerLock(container));
      if !ok {
        return;
      }
      ok := world.obeys(log);
      Do(Stop(container, ok));
      if ok {
        var workerOk := RunWorker();
        var startOk := world.obeys(log);
        Do(Start(container, startOk));
        ok := workerOk && startOk;
      }
      Release(k, Lock(ContainerLock(container)));
    }

    /** What runs inside the write slot of a backup. */
    method BackupBody(k: nat) returns (ok: bool)
      requires Valid() && k <= |program.plan|
      requires if program.container.Some?
               then k == |program.plan| - 1 && at.pc == Enter(k) else k == |program.plan| && at.pc == Inside(Working)
      requires k > 0 && Arrived(log)
      modifies this, locks
      ensures Valid() && at == Local(Leave(k - 1), old(at.slot))
      ensures Fails(log) <==> Fails(old(log)) || !ok
    {
      if program.container.Some? {
        ok := RunWorkerWithStoppedContainer(k, program.container.value);
      } else {
        ok := RunWorker();
      }
    }

    /** What runs inside the write slot of a restore. */
    method RestoreBody(host: Restoring.Host, listed: Option<seq<Restoring.Container>>, spec: Spec, source: Source,
                       snapshotID: string, skipPreBackup: bool, patterns: Option<seq<string>>)
      returns (err: seq<Restoring.Failure>, ghost h: Restoring.History)
      requires Valid() && at.pc == Inside(Working) && program.container.None? && RestoresSource(program)
      requires host.Valid() && snapshotID != "latest"
      modifies this, host`running, host`volume, host`stored, host`ticks, host`log
      ensures Valid() && at == old(at).(pc := Leave(|program.plan| - 1)) && host.Valid()
      ensures host.setting.Restores(old(host.Now()), host.Now(), listed, spec, source, snapshotID, skipPreBackup,
                                    patterns, err, h)
      ensures Fails(log) <==> Fails(old(log)) || err != []
    {
      hide Restoring.Setting.Restores;
      err, h := host.RestoreUnderLocks(listed, spec, source, snapshotID, skipPreBackup, patterns);
      Do(Work(err == []));
    }
  }

  // ---- The jobs ----

  /** A finished thread holds nothing, gave up only what was refused, and succeeded only if its worker did. */
  lemma {:induction false} AtRest(s: Session)
    requires s.Valid() && s.at.pc.Done?
    ensures s.mutexes == {} && s.flocks == {}
    ensures TriedFirst(s.program, s.log) && (!Fails(s.log) ==> Work(true) in s.log)
  {
    RefusedFirst(s.world, s.program, s.log);
    if !Fails(s.log) {
      SuccessWorked(s.program, s.log);
    }
  }

  /** RunSpecJobs and runSpecJobsLocked: repository, write slot, container. The result counts the worker's
      commands if everything went well, and nothing otherwise; on every way out all locks are free again. */
  method RunSpecJobs(locks: LockManager<string>, slots: LockManager<(string, nat)>,
                     repository: LockId, limit: Limit, stop: Option<string>, commands: nat, world: World)
    returns (s: Session, jobsStarted: nat, ok: bool)
    requires repository.IsRepository() && locks.Valid() && slots.Valid() && Timely(world)
    modifies locks, slots
    ensures fresh(s) && s.Valid() && s.locks == locks && s.slots == slots && s.world == world
    ensures TriedFirst(s.program, s.log) && (ok ==> Work(true) in s.log)
    ensures s.program == ProgramOf(Backup(repository, limit, stop))
    ensures s.at.pc == Done && s.mutexes == {} && s.flocks == {}
    ensures ok <==> !Fails(s.log)
    ensures jobsStarted == if ok then commands else 0
  {
    var job := Backup(repository, limit, stop);
    hide Session.Valid, Fails, Replay;
    JobsAreValid(job);
    s := new Session(ProgramOf(job), locks, slots, world);
    ok := s.Acquire(0, repository);
    if ok {
      if limit.AtMost? && limit.max > 0 {
        var slot;
        ghost var cut;
        ok, slot, cut := s.AcquireSlot(1, limit.backend, limit.max);
        if ok {
          ok := s.BackupBody(2);
          s.Release(1, Slot(limit.backend, slot));
        }
      } else {
        ok := s.BackupBody(1);
      }
      s.Release(0, Lock(repository));
    }
    AtRest(s);
    jobsStarted := if ok then commands else 0;
  }

  /** restoreCandidateWithSnapshot: repository, source, write slot, and the restore itself on `host`. Without its
      locks it does nothing to the host; with them it does what Setting.Restores says. Either way all locks are free
      again, and there is no error exactly if nothing failed. */
  method RestoreCandidate(locks: LockManager<string>, slots: LockManager<(string, nat)>,
                          repository: LockId, sourceLock: LockId, limit: Limit, host: Restoring.Host,
                          listed: Option<seq<Restoring.Container>>, spec: Spec, source: Source, snapshotID: string,
                          skipPreBackup: bool, patterns: Option<seq<string>>, world: World)
    returns (s: Session, ok: bool, ghost entered: bool, ghost err: seq<Restoring.Failure>, ghost h: Restoring.History)
    requires repository.IsRepository() && sourceLock.IsSource() && locks.Valid() && slots.Valid() && Timely(world)
    requires host.Valid() && snapshotID != "latest"
    modifies locks, slots, host`running, host`volume, host`stored, host`ticks, host`log
    ensures fresh(s) && s.Valid() && s.locks == locks && s.slots == slots && s.world == world && host.Valid()
    ensures TriedFirst(s.program, s.log) && (ok ==> Work(true) in s.log)
    ensures s.program == ProgramOf(Restore(repository, sourceLock, limit))
    ensures s.at.pc == Done && s.mutexes == {} && s.flocks == {}
    ensures ok <==> !Fails(s.log)
    ensures ok <==> entered && err == []
    ensures !entered ==> host.Now() == old(host.Now())
    ensures entered ==>
              host.setting.Restores(old(host.Now()), host.Now(), listed, spec, source, snapshotID, skipPreBackup,
                                    patterns, err, h)
  {
    var job := Restore(repository, sourceLock, limit);
    hide Session.Valid, Fails, Replay, Restoring.Setting.Restores, Restoring.Host.Valid;
    JobsAreValid(job);
    s := new Session(ProgramOf(job), locks, slots, world);
    entered, err, h := false, [], Restoring.History(0, [], []);
    ok := s.Acquire(0, repository);
    if ok {
      ok := s.Acquire(1, sourceLock);
      if ok {
        var failures;
        if limit.AtMost? && limit.max > 0 {
          var slot;
          ghost var cut;
          ok, slot, cut := s.AcquireSlot(2, limit.backend, limit.max);
          if ok {
            failures, h := s.RestoreBody(host, listed, spec, source, snapshotID, skipPreBackup, patterns);
            entered, err, ok := true, failures, failures == [];
            s.Release(2, Slot(limit.backend, slot));
          }
        } else {
          failures, h := s.RestoreBody(host, listed, spec, source, snapshotID, skipPreBackup, patterns);
          entered, err, ok := true, failures, failures == [];
        }
        s.Release(1, Lock(sourceLock));
      }
      s.Release(0, Lock(repository));
    }
    AtRest(s);
  }

  /** runPruneJob: repository, write slot. */
  method RunPruneJob(locks: LockManager<string>, slots: LockManager<(string, nat)>, repository: LockId, limit: Limit,
                     world: World)
    returns (s: Session, ok: bool)
    requires repository.IsRepository() && locks.Valid() && slots.Valid() && Timely(world)
    modifies locks, slots
    ensures fresh(s) && s.Valid() && s.locks == locks && s.slots == slots && s.world == world
    ensures TriedFirst(s.program, s.log) && (ok ==> Work(true) in s.log)
    ensures s.program == ProgramOf(Prune(repository, limit))
    ensures s.at.pc == Done && s.mutexes == {} && s.flocks == {}
    ensures ok <==> !Fails(s.log)
  {
    var job := Prune(repository, limit);
    hide Session.Valid, Fails, Replay;
    JobsAreValid(job);
    s := new Session(ProgramOf(job), locks, slots, world);
    ok := s.Acquire(0, repository);
    if ok {
      if limit.AtMost? && limit.max > 0 {
        var slot;
        ghost var cut;
        ok, slot, cut := s.AcquireSlot(1, limit.backend, limit.max);
        if ok {
          ok := s.RunWorker();
          s.Release(1, Slot(limit.backend, slot));
        }
      } else {
        ok := s.RunWorker();
      }
      s.Release(0, Lock(repository));
    }
    AtRest(s);
  }
}
