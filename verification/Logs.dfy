/** What one thread did, call by call, and what it was answered (internal/daemon/lock.go,
    internal/daemon/write_limiter.go). A log of calls leads a program to a place; and given the answers to its calls,
    the code of the source leaves no choice of the next one, so it has one log only. */
module Logs {
  import opened Text
  import opened Keys
  import opened Protocol

  /** The place a program is in after a log of actions, if the program allows them in that order. */
  ghost function Replay(program: Program, log: seq<Action>): Option<Local> {
    if log == [] then Some(StartLocal())
    else match Replay(program, log[..|log| - 1])
      case None => None
      case Some(l) => Move(program, l, log[|log| - 1])
  }

  /** What one thread did in a run of the whole system. */
  function ActionsOf(choices: seq<Choice>, t: nat): seq<Action> {
    if choices == [] then []
    else
      var last := choices[|choices| - 1];
      ActionsOf(choices[..|choices| - 1], t) + (if last.Act? && last.thread == t then [last.action] else [])
  }

  lemma {:induction false} ReplayOneMore(program: Program, log: seq<Action>, a: Action)
    requires Replay(program, log).Some?
    ensures Replay(program, log + [a]) == Move(program, Replay(program, log).value, a)
  {
    assert (log + [a])[..|log|] == log;
  }

  /** One step of the system, as thread `t` sees it. */
  ghost predicate Follows(program: Program, l: Local, choice: Choice, t: nat, l': Local) {
    if choice.Act? && choice.thread == t then Move(program, l, choice.action) == Some(l')
    else l' == l || l'.pc.Dead?
  }

  lemma {:induction false} DeadStays(program: Program, l: Local, choice: Choice, t: nat, l': Local)
    requires Follows(program, l, choice, t, l') && l.pc.Dead?
    ensures l'.pc.Dead?
  {
  }

  lemma {:induction false} ReplayFollows(program: Program, places: seq<Local>, choices: seq<Choice>, t: nat, i: nat)
    requires i <= |choices| && |places| == |choices| + 1 && places[0] == StartLocal()
    requires forall k | 0 <= k < |choices| :: Follows(program, places[k], choices[k], t, places[k + 1])
    ensures places[i].pc.Dead? || Replay(program, ActionsOf(choices[..i], t)) == Some(places[i])
  {
    if i > 0 {
      ReplayFollows(program, places, choices, t, i - 1);
      assert choices[..i][..i - 1] == choices[..i - 1];
      var log := ActionsOf(choices[..i - 1], t);
      if places[i - 1].pc.Dead? {
        DeadStays(program, places[i - 1], choices[i - 1], t, places[i]);
      } else {
        assert log + [] == log;
        if choices[i - 1].Act? {
          ReplayOneMore(program, log, choices[i - 1].action);
        }
      }
    }
  }

  lemma {:induction false} StepFollows(sys: System, s: State, choice: Choice, s': State, t: nat)
    requires Step(sys, s, choice, s') && t < |sys|
    ensures |s.locals| == |s'.locals| == |sys|
    ensures Follows(sys[t].program, s.locals[t], choice, t, s'.locals[t])
  {
  }

  lemma {:induction false} RunSize(sys: System, states: seq<State>, choices: seq<Choice>, i: nat)
    requires Run(sys, states, choices) && i < |states|
    ensures |states[i].locals| == |sys|
  {
    if i > 0 {
      assert Step(sys, states[i - 1], choices[i - 1], states[i]);
    }
  }

  /** A run of the system is an interleaving of the programs of its threads: unless its process crashed, a
      thread is where its own actions lead. */
  lemma {:induction false} RunsInterleavePrograms(sys: System, states: seq<State>, choices: seq<Choice>, i: nat, t: nat)
    requires Run(sys, states, choices) && i < |states| && t < |sys|
    ensures |states[i].locals| == |sys|
    ensures states[i].locals[t].pc.Dead?
            || Replay(sys[t].program, ActionsOf(choices[..i], t)) == Some(states[i].locals[t])
  {
    forall k | 0 <= k < |states| ensures |states[k].locals| == |sys| {
      RunSize(sys, states, choices, k);
    }
    var places := seq(|states|, k requires 0 <= k < |states| => states[k].locals[t]);
    forall k | 0 <= k < |choices| ensures Follows(sys[t].program, places[k], choices[k], t, places[k + 1]) {
      StepFollows(sys, states[k], choices[k], states[k + 1], t);
    }
    ReplayFollows(sys[t].program, places, choices, t, i);
  }

  predicate Failing(a: Action) {
    a == GiveUp || a == NoFile || (a.TryFlock? && a.result == Failed) || ((a.Stop? || a.Work? || a.Start?) && !a.ok)
  }

  ghost predicate Fails(log: seq<Action>) {
    exists i | 0 <= i < |log| :: Failing(log[i])
  }

  lemma {:induction false} FailsAppend(log: seq<Action>, a: Action)
    ensures Fails(log + [a]) <==> Fails(log) || Failing(a)
  {
    assert (log + [a])[|log|] == a;
    assert forall i | 0 <= i < |log| :: (log + [a])[i] == log[i];
  }

  /** A thread that finished without a failure had its worker succeed. */
  lemma {:induction false} SuccessWorked(program: Program, log: seq<Action>)
    requires Replay(program, log).Some? && !Fails(log)
    requires var pc := Replay(program, log).value.pc;
             pc.Done? || pc.Leave? || pc.Drop? || pc == Inside(Starting)
    ensures Work(true) in log
  {
    var n := |log| - 1;
    var before, a := log[..n], log[n];
    assert log == before + [a];
    FailsAppend(before, a);
    if a != Work(true) {
      SuccessWorked(program, before);
    }
  }

  // ---- Answers ----

  /** What a thread is answered after each log of calls: whether the mutex it tries is free, what flock returns,
      whether the lock file opens, whether its wait is over, whether Docker does what it is told. Every wait
      has a deadline: after `horizon` calls all waits are over. */
  datatype World = World(
    free: seq<Action> -> bool, flock: seq<Action> -> Attempt, opens: seq<Action> -> bool,
    late: seq<Action> -> bool, obeys: seq<Action> -> bool, horizon: nat)

  ghost predicate Timely(world: World) {
    forall log | |log| >= world.horizon :: world.late(log)
  }

  lemma {:induction false} StillTime(world: World, log: seq<Action>)
    requires Timely(world)
    ensures world.late(log) || |log| < world.horizon
  {
  }

  function Last(log: seq<Action>): Option<Action> {
    if log == [] then None else Some(log[|log| - 1])
  }

  /** Nothing was tried yet in this section. */
  predicate Arrived(log: seq<Action>) {
    log == [] || (log[|log| - 1].TryFlock? && log[|log| - 1].result == Got)
  }

  /** An attempt at the lock failed, or a whole scan of the slots: the wait goes on, or is given up. */
  predicate Waiting(program: Program, l: Local, log: seq<Action>) {
    var plan := program.plan;
    match l.pc
    case Enter(k) =>
      && k < |plan|
      && if plan[k].AnySlot? then l.slot >= plan[k].max
         else Last(log) == Some(TryMutex(Target(plan[k], l.slot), false))
    case Locked(k) =>
      k < |plan| && plan[k].Exclusive? && Last(log) == Some(TryFlock(Target(plan[k], l.slot), Busy))
    case _ => false
  }

  /** The lock file is opened next, or the directory of the slots. */
  predicate Opening(program: Program, l: Local, log: seq<Action>) {
    var plan := program.plan;
    match l.pc
    case Enter(k) => k < |plan| && plan[k].AnySlot? && l.slot == 0 && Last(log) != Some(Rest)
    case Locked(k) => k < |plan| && Last(log) == Some(TryMutex(Target(plan[k], l.slot), true))
    case _ => false
  }

  /** An attempt repeated n times. */
  ghost function Times(n: nat, a: Action): seq<Action> {
    seq(n, i => a)
  }

  lemma {:induction false} Repeated(log: seq<Action>, n: nat, a: Action)
    ensures log + Times(n, a) + [a] == log + Times(n + 1, a)
    ensures n == 0 ==> log + Times(n, a) == log
    ensures Last(log + Times(n + 1, a)) == Some(a)
  {
    assert Times(n + 1, a) == Times(n, a) + [a];
  }

  /** How a wait for a file lock ends. */
  predicate FlockEnd(end: Action, id: LockId, ok: bool, misses: nat) {
    if ok then end == TryFlock(Lock(id), Got) else end == TryFlock(Lock(id), Failed) || (end == GiveUp && misses > 0)
  }

  predicate MayTry(world: World, program: Program, l: Local, log: seq<Action>) {
    && (Waiting(program, l, log) ==> !world.late(log))
    && (Opening(program, l, log) ==> world.opens(log))
  }

  predicate RestoresSource(program: Program) {
    exists j | 0 <= j < |program.plan| :: program.plan[j].Exclusive? && program.plan[j].id.IsSource()
  }

  /** The call is the one the code makes next, with the answer the world gives. The work of a restore is many calls;
      what becomes of them is the subject of module Restoring. */
  predicate Answered(world: World, program: Program, l: Local, log: seq<Action>, a: Action) {
    match a
    case TryMutex(_, got) => MayTry(world, program, l, log) && got == world.free(log)
    case TryFlock(_, result) => MayTry(world, program, l, log) && result == world.flock(log)
    case NoFile => Opening(program, l, log) && !world.opens(log)
    case GiveUp => Waiting(program, l, log) && world.late(log)
    case Rest => !world.late(log)
    case Stop(_, ok) => ok == world.obeys(log)
    case Work(ok) => RestoresSource(program) || ok == world.obeys(log)
    case Start(_, ok) => ok == world.obeys(log)
    case Unflock(_) => true
    case Unmutex(_) => true
  }

  /** Every call of the log is made as the code makes it, and answered by the world. */
  ghost predicate Honest(world: World, program: Program, log: seq<Action>) {
    if log == [] then true
    else
      var before := log[..|log| - 1];
      && Honest(world, program, before) && Replay(program, before).Some?
      && Answered(world, program, Replay(program, before).value, before, log[|log| - 1])
  }

  lemma {:induction false} OneMoreAnswer(world: World, program: Program, log: seq<Action>, a: Action)
    requires Honest(world, program, log) && Replay(program, log).Some?
    requires Answered(world, program, Replay(program, log).value, log, a)
    ensures Honest(world, program, log + [a])
  {
    assert (log + [a])[..|log|] == log;
  }

  /** At every place the answers decide the next call. */
  lemma {:induction false} NextIsOne(world: World, program: Program, l: Local, log: seq<Action>, a: Action, b: Action)
    requires ValidProgram(program)
    requires Move(program, l, a).Some? && Answered(world, program, l, log, a)
    requires Move(program, l, b).Some? && Answered(world, program, l, log, b)
    ensures a == b || (RestoresSource(program) && a.Work? && b.Work?)
  {
  }

  lemma {:induction false} Earlier(world: World, program: Program, log: seq<Action>, i: nat)
    requires Honest(world, program, log) && i <= |log|
    ensures Honest(world, program, log[..i])
    ensures Replay(program, log).Some? ==> Replay(program, log[..i]).Some?
    ensures i < |log| && Replay(program, log).Some? ==>
              var l := Replay(program, log[..i]).value;
              Answered(world, program, l, log[..i], log[i]) && Move(program, l, log[i]).Some?
    decreases |log|
  {
    if i == |log| {
      assert log[..i] == log;
    } else if i < |log| - 1 {
      var before := log[..|log| - 1];
      Earlier(world, program, before, i);
      assert before[..i] == log[..i];
    }
  }

  /** Where both logs have the worker end, it ends alike. */
  predicate SameWork(a: seq<Action>, b: seq<Action>) {
    forall i | 0 <= i < |a| && i < |b| && a[i].Work? && b[i].Work? :: a[i] == b[i]
  }

  lemma {:induction false} SameUpTo(world: World, program: Program, a: seq<Action>, b: seq<Action>, i: nat)
    requires ValidProgram(program) && (RestoresSource(program) ==> SameWork(a, b))
    requires Honest(world, program, a) && Replay(program, a).Some?
    requires Honest(world, program, b) && Replay(program, b).Some?
    requires i <= |a| && i <= |b|
    ensures a[..i] == b[..i]
  {
    hide ValidProgram, RestoresSource, Move, Answered, Honest, Replay;
    if i > 0 {
      SameUpTo(world, program, a, b, i - 1);
      Earlier(world, program, a, i - 1);
      Earlier(world, program, b, i - 1);
      NextIsOne(world, program, Replay(program, a[..i - 1]).value, a[..i - 1], a[i - 1], b[i - 1]);
      assert a[..i] == a[..i - 1] + [a[i - 1]] && b[..i] == b[..i - 1] + [b[i - 1]];
    }
  }

  lemma {:induction false} OneProgramLog(world: World, program: Program, a: seq<Action>, b: seq<Action>)
    requires ValidProgram(program) && (RestoresSource(program) ==> SameWork(a, b))
    requires Honest(world, program, a) && Replay(program, a).Some? && Replay(program, a).value.pc.Done?
    requires Honest(world, program, b) && Replay(program, b).Some? && Replay(program, b).value.pc.Done?
    ensures a == b
  {
    hide ValidProgram, RestoresSource, Answered, Honest, Replay, SameWork;
    var n := if |a| <= |b| then |a| else |b|;
    SameUpTo(world, program, a, b, n);
    assert a[..|a|] == a && b[..|b|] == b;
    if |a| < |b| {
      Earlier(world, program, b, n);
    } else if |b| < |a| {
      Earlier(world, program, a, n);
    }
  }

  lemma {:induction false} RestoresHaveSources(job: Job)
    requires ValidJob(job)
    ensures RestoresSource(ProgramOf(job)) <==> job.Restore?
  {
    if job.Restore? {
      assert Plan(job)[1] == Exclusive(job.source);
    }
  }

  /** The answers decide everything a job does: a backup or a prune has one complete log, and a restore has one for
      either outcome of its work. */
  lemma {:induction false} OneLog(world: World, job: Job, a: seq<Action>, b: seq<Action>)
    requires ValidJob(job) && (job.Restore? ==> SameWork(a, b))
    requires Honest(world, ProgramOf(job), a) && Replay(ProgramOf(job), a).Some?
    requires Honest(world, ProgramOf(job), b) && Replay(ProgramOf(job), b).Some?
    requires Replay(ProgramOf(job), a).value.pc.Done? && Replay(ProgramOf(job), b).value.pc.Done?
    ensures a == b
  {
    JobsAreValid(job);
    RestoresHaveSources(job);
    OneProgramLog(world, ProgramOf(job), a, b);
  }

  // ---- What precedes a wait that is given up ----

  datatype SlotTry = Taken | Missed | Broke

  /** One attempt at one slot. */
  predicate SlotTried(calls: seq<Action>, r: Res, result: SlotTry) {
    match result
    case Taken => calls == [TryMutex(r, true), TryFlock(r, Got)]
    case Missed =>
      calls == [TryMutex(r, false)] || calls == [TryMutex(r, true), TryFlock(r, Busy), Unmutex(r)]
    case Broke =>
      || calls == [TryMutex(r, true), NoFile, Unmutex(r)]
      || calls == [TryMutex(r, true), TryFlock(r, Failed), Unmutex(r)]
  }

  lemma {:induction false} SlotCalls(log: seq<Action>, calls: seq<Action>, r: Res, result: SlotTry)
    requires SlotTried(calls, r, result)
    ensures log < log + calls && (log + calls)[|log|] == calls[0]
    ensures result == Taken ==> Arrived(log + calls)
    ensures result == Broke ==> Last(log + calls) != Some(GiveUp)
  {
  }

  /** The slots below n were tried in order, and all missed. */
  ghost predicate MissedScan(calls: seq<Action>, backend: string, n: nat) {
    if n == 0 then calls == []
    else exists j | 0 <= j <= |calls| ::
           SlotTried(calls[j..], Slot(backend, n - 1), Missed) && MissedScan(calls[..j], backend, n - 1)
  }

  /** One scan: slots that missed, and the one that was taken or broke, if any did. */
  ghost predicate Scanned(calls: seq<Action>, backend: string, max: nat, result: SlotTry, slot: nat) {
    if result == Missed then MissedScan(calls, backend, max)
    else exists j | 0 <= j <= |calls| ::
           SlotTried(calls[j..], Slot(backend, slot), result) && MissedScan(calls[..j], backend, slot)
  }

  lemma {:induction false} OneMoreTry(calls: seq<Action>, more: seq<Action>, backend: string, max: nat, result: SlotTry,
      n: nat)
    requires MissedScan(calls, backend, n) && SlotTried(more, Slot(backend, n), result) && result != Missed
    ensures Scanned(calls + more, backend, max, result, n)
  {
    var all, j := calls + more, |calls|;
    assert all[j..] == more && all[..j] == calls;
  }

  lemma {:induction false} NothingMissed(log: seq<Action>, backend: string)
    ensures MissedScan(log[|log|..], backend, 0)
  {
  }

  lemma {:induction false} OneMoreMiss(calls: seq<Action>, more: seq<Action>, backend: string, n: nat)
    requires MissedScan(calls, backend, n) && SlotTried(more, Slot(backend, n), Missed)
    ensures MissedScan(calls + more, backend, n + 1)
  {
    var all, j := calls + more, |calls|;
    assert all[j..] == more && all[..j] == calls;
  }

  /** An attempt at the lock was the last call and failed, or a whole scan of the slots came last and failed. */
  ghost predicate Refused(section: Section, log: seq<Action>) {
    match section
    case Exclusive(id) =>
      Last(log) == Some(TryMutex(Lock(id), false)) || Last(log) == Some(TryFlock(Lock(id), Busy))
    case AnySlot(backend, max) => exists j | 0 <= j <= |log| :: MissedScan(log[j..], backend, max)
  }

  /** A wait of this thread is given up only after something was tried and refused. */
  ghost predicate TriedFirst(program: Program, log: seq<Action>) {
    forall i | 0 <= i < |log| && log[i] == GiveUp ::
      exists section | section in program.plan :: Refused(section, log[..i])
  }

  /** How far the scan of the slots is at this place. */
  ghost predicate Scanning(backend: string, l: Local, log: seq<Action>, j: nat) {
    && j <= |log|
    && var r := Slot(backend, l.slot);
       match l.pc
       case Enter(_) => MissedScan(log[j..], backend, l.slot)
       case Locked(_) =>
         && j < |log| && log[|log| - 1] == TryMutex(r, true)
         && MissedScan(log[j..|log| - 1], backend, l.slot)
       case Retry(_) =>
         && j + 1 < |log| && log[|log| - 2..] == [TryMutex(r, true), TryFlock(r, Busy)]
         && MissedScan(log[j..|log| - 2], backend, l.slot)
       case _ => false
  }

  predicate InSlots(program: Program, l: Local) {
    && (l.pc.Enter? || l.pc.Locked? || l.pc.Retry?) && l.pc.k < |program.plan| && program.plan[l.pc.k].AnySlot?
  }

  lemma {:induction false} ScanGoesOn(program: Program, was: Local, log: seq<Action>, a: Action, l: Local, j: nat)
    requires InSlots(program, was) && InSlots(program, l) && !(l.pc.Enter? && l.slot == 0)
    requires Move(program, was, a) == Some(l) && was.pc.k == l.pc.k
    requires Scanning(program.plan[l.pc.k].backend, was, log, j)
    ensures Scanning(program.plan[l.pc.k].backend, l, log + [a], j)
  {
    hide Scanning;
    var backend := program.plan[l.pc.k].backend;
    match l.pc
    case Enter(_) =>
      if was.pc.Enter? {
        MutexBusy(backend, was, log, a, l, j);
      } else {
        FileBusy(backend, was, log, a, l, j);
      }
    case Locked(_) => GoesDeeper(backend, was, log, a, l, j);
    case Retry(_) => GoesDeeper(backend, was, log, a, l, j);
  }

  lemma {:induction false} MutexBusy(backend: string, was: Local, log: seq<Action>, a: Action, l: Local, j: nat)
    requires Scanning(backend, was, log, j) && was.pc.Enter? && l.pc.Enter? && l.slot == was.slot + 1
    requires a == TryMutex(Slot(backend, was.slot), false)
    ensures Scanning(backend, l, log + [a], j)
  {
    hide MissedScan;
    assert (log + [a])[j..] == log[j..] + [a];
    OneMoreMiss(log[j..], [a], backend, was.slot);
  }

  lemma {:induction false} FileBusy(backend: string, was: Local, log: seq<Action>, a: Action, l: Local, j: nat)
    requires Scanning(backend, was, log, j) && was.pc.Retry? && l.pc.Enter? && l.slot == was.slot + 1
    requires a == Unmutex(Slot(backend, was.slot))
    ensures Scanning(backend, l, log + [a], j)
  {
    hide MissedScan;
    var tried, cut := log[|log| - 2..] + [a], |log| - 2;
    assert (log + [a])[j..] == log[j..cut] + tried;
    OneMoreMiss(log[j..cut], tried, backend, was.slot);
  }

  lemma {:induction false} GoesDeeper(backend: string, was: Local, log: seq<Action>, a: Action, l: Local, j: nat)
    requires Scanning(backend, was, log, j) && l.slot == was.slot
    requires || (was.pc.Enter? && l.pc.Locked? && a == TryMutex(Slot(backend, l.slot), true))
             || (was.pc.Locked? && l.pc.Retry? && a == TryFlock(Slot(backend, l.slot), Busy))
    ensures Scanning(backend, l, log + [a], j)
  {
    hide MissedScan;
    var n, longer := |log|, log + [a];
    if l.pc.Locked? {
      assert longer[j..n] == log[j..];
    } else {
      assert longer[j..n - 1] == log[j..n - 1];
      assert longer[n - 1..] == [log[n - 1], a];
    }
  }

  lemma {:induction false} SlotsCameFrom(program: Program, was: Local, a: Action, l: Local)
    requires ValidProgram(program) && Move(program, was, a) == Some(l) && InSlots(program, l)
    requires !(l.pc.Enter? && l.slot == 0)
    ensures InSlots(program, was) && was.pc.k == l.pc.k
  {
    assert program.plan[0].Exclusive?;
  }

  lemma {:induction false} ScanSoFar(program: Program, log: seq<Action>) returns (j: nat)
    requires ValidProgram(program) && Replay(program, log).Some? && InSlots(program, Replay(program, log).value)
    ensures var l := Replay(program, log).value;
            Scanning(program.plan[l.pc.k].backend, l, log, j)
  {
    hide Scanning, ValidProgram, InSlots;
    var n := |log| - 1;
    var l := Replay(program, log).value;
    if l.pc.Enter? && l.slot == 0 {
      j := |log|;
      NothingScanned(program, l, log);
    } else if n < 0 {
      assert false;
    } else {
      var before, a := log[..n], log[n];
      var was := Replay(program, before).value;
      SlotsCameFrom(program, was, a, l);
      j := ScanSoFar(program, before);
      ScanGoesOn(program, was, before, a, l, j);
      assert log == before + [a];
    }
  }

  lemma {:induction false} NothingScanned(program: Program, l: Local, log: seq<Action>)
    requires InSlots(program, l) && l.pc.Enter? && l.slot == 0
    ensures Scanning(program.plan[l.pc.k].backend, l, log, |log|)
  {
    assert log[|log|..] == [];
  }

  lemma {:induction false} ScannedIsRefused(program: Program, l: Local, log: seq<Action>, j: nat)
    requires InSlots(program, l) && l.pc.Enter? && l.slot == program.plan[l.pc.k].max
    requires Scanning(program.plan[l.pc.k].backend, l, log, j)
    ensures Refused(program.plan[l.pc.k], log)
  {
  }

  lemma {:induction false} WaitingIsRefused(program: Program, log: seq<Action>)
    requires ValidProgram(program) && Replay(program, log).Some?
    requires Fits(program.plan, Replay(program, log).value) && Waiting(program, Replay(program, log).value, log)
    ensures exists section | section in program.plan :: Refused(section, log)
  {
    hide Scanning, MissedScan;
    var l := Replay(program, log).value;
    var section := program.plan[l.pc.k];
    if section.AnySlot? {
      var j := ScanSoFar(program, log);
      ScannedIsRefused(program, l, log, j);
    }
    assert Refused(section, log);
  }

  lemma {:induction false} ReplayFits(program: Program, log: seq<Action>)
    requires ValidProgram(program) && Replay(program, log).Some?
    ensures Fits(program.plan, Replay(program, log).value)
  {
    hide ValidProgram, Fits, Move;
    if log == [] {
      StartFits(program);
    } else {
      var before := log[..|log| - 1];
      ReplayFits(program, before);
      MoveKeeps(program, Replay(program, before).value, log[|log| - 1]);
    }
  }

  lemma {:induction false} StartFits(program: Program)
    requires ValidProgram(program)
    ensures Fits(program.plan, StartLocal())
  {
  }

  /** Every wait that is given up was refused before. */
  lemma {:induction false} RefusedFirst(world: World, program: Program, log: seq<Action>)
    requires ValidProgram(program) && Honest(world, program, log) && Replay(program, log).Some?
    ensures TriedFirst(program, log)
  {
    hide ValidProgram, Fits, Refused, Waiting;
    forall i | 0 <= i < |log| && log[i] == GiveUp
      ensures exists section | section in program.plan :: Refused(section, log[..i])
    {
      Earlier(world, program, log, i);
      ReplayFits(program, log[..i]);
      WaitingIsRefused(program, log[..i]);
    }
  }
}
