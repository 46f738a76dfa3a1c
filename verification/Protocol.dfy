/** The locks of all jobs in all processes, as a transition system (internal/daemon/lock.go,
    internal/daemon/write_limiter.go, and the nesting of locks in daemon.go and app.go).
    A lock is a mutex inside each process and a file lock shared by all processes. One step is one
    attempt, one release, or one effect on a container; threads interleave in any order, waits may
    time out, calls may fail, and a process may crash at any point. */
module Protocol {
  import opened Text
  import opened Keys

  // ---- Jobs and the sections they nest ----

  /** What a mutex and a file lock guard. */
  datatype Res = Lock(id: LockId) | Slot(backend: string, index: nat)

  datatype Section = Exclusive(id: LockId) | AnySlot(backend: string, max: nat)

  /** A limiter of capacity 0, or none, takes no slot. */
  datatype Limit = NoLimit | AtMost(backend: string, max: nat)

  datatype Job =
    | Backup(repository: LockId, limit: Limit, container: Option<string>)
    | Restore(repository: LockId, source: LockId, limit: Limit)
    | Prune(repository: LockId, limit: Limit)

  predicate ValidJob(job: Job) {
    job.repository.IsRepository() && (job.Restore? ==> job.source.IsSource())
  }

  function SlotSections(limit: Limit): seq<Section> {
    if limit.AtMost? && limit.max > 0 then [AnySlot(limit.backend, limit.max)] else []
  }

  /** The sections a job is inside when its worker runs, outermost first. */
  function Plan(job: Job): seq<Section> {
    match job
    case Backup(repository, limit, container) =>
      [Exclusive(repository)] + SlotSections(limit)
      + (if container.Some? then [Exclusive(ContainerLock(container.value))] else [])
    case Restore(repository, source, limit) =>
      [Exclusive(repository), Exclusive(source)] + SlotSections(limit)
    case Prune(repository, limit) => [Exclusive(repository)] + SlotSections(limit)
  }

  /** The global order: repository, source, write slot, container. */
  function Level(section: Section): nat {
    match section
    case Exclusive(id) => if id.IsRepository() then 0 else if id.IsSource() then 1 else 3
    case AnySlot(_, _) => 2
  }

  ghost predicate Ordered(plan: seq<Section>) {
    && plan != []
    && (forall j, k | 0 <= j < k < |plan| :: Level(plan[j]) < Level(plan[k]))
    && (forall j | 0 <= j < |plan| :: plan[j].AnySlot? ==> plan[j].max > 0)
  }

  /** What a thread runs: its sections, and the container it stops around its worker, if any. */
  datatype Program = Program(plan: seq<Section>, container: Option<string>)

  function ProgramOf(job: Job): Program {
    Program(Plan(job), if job.Backup? then job.container else None)
  }

  /** Locks in the global order, the repository first, and the lock of the stopped container last. */
  ghost predicate ValidProgram(program: Program) {
    var plan := program.plan;
    && Ordered(plan)
    && plan[0].Exclusive? && plan[0].id.IsRepository()
    && (program.container.Some? ==> plan[|plan| - 1] == Exclusive(ContainerLock(program.container.value)))
  }

  /** Backup, restore and prune jobs are such programs. */
  lemma {:induction false} JobsAreValid(job: Job)
    requires ValidJob(job)
    ensures ValidProgram(ProgramOf(job))
  {
  }

  // ---- One thread ----

  datatype Phase = Stopping | Working | Starting

  /** Where a thread is: about to take section `k`, holding its mutex, backing off from a busy slot,
      inside all sections, about to release the file lock or the mutex of section `k`, or finished. */
  datatype Pc =
    | Enter(k: nat) | Locked(k: nat) | Retry(k: nat) | Inside(phase: Phase) | Leave(k: nat) | Drop(k: nat)
    | Done | Dead

  /** `slot` is the write slot being tried, or held. */
  datatype Local = Local(pc: Pc, slot: nat)

  datatype Attempt = Got | Busy | Failed

  /** NoFile is a lock directory or lock file that cannot be made; GiveUp is a wait that ends at its deadline. */
  datatype Action =
    | TryMutex(res: Res, got: bool)
    | TryFlock(res: Res, result: Attempt)
    | Unflock(res: Res)
    | Unmutex(res: Res)
    | NoFile
    | GiveUp
    | Rest
    | Stop(container: string, ok: bool)
    | Work(ok: bool)
    | Start(container: string, ok: bool)

  function Target(section: Section, slot: nat): Res {
    match section
    case Exclusive(id) => Lock(id)
    case AnySlot(backend, _) => Slot(backend, slot)
  }

  function StartLocal(): Local {
    Local(Enter(0), 0)
  }

  /** Inside section `k`: on to the next section, or to the work. */
  function Inner(program: Program, k: nat, slot: nat): Local {
    if k + 1 < |program.plan| then
      if program.plan[k + 1].AnySlot? then Local(Enter(k + 1), 0) else Local(Enter(k + 1), slot)
    else Local(Inside(if program.container.Some? then Stopping else Working), slot)
  }

  /** Section `k` is released, or was never taken: back out of the sections around it. */
  function Outer(k: nat, slot: nat): Local {
    Local(if k == 0 then Done else Leave(k - 1), slot)
  }

  /** The program of one thread: what an action does to it, or None if it does not take that action there. */
  function Move(program: Program, l: Local, a: Action): Option<Local> {
    var plan, last := program.plan, |program.plan| - 1;
    match l.pc
    case Enter(k) =>
      if k >= |plan| then None
      else if a == GiveUp || (a == NoFile && plan[k].AnySlot?) then Some(Outer(k, l.slot))
      else if plan[k].AnySlot? && l.slot >= plan[k].max then
        if a == Rest then Some(l.(slot := 0)) else None
      else if a == TryMutex(Target(plan[k], l.slot), true) then Some(l.(pc := Locked(k)))
      else if a == TryMutex(Target(plan[k], l.slot), false) then
        Some(if plan[k].AnySlot? then l.(slot := l.slot + 1) else l)
      else None
    case Locked(k) =>
      if k >= |plan| then None
      else if a == GiveUp || a == NoFile || a == TryFlock(Target(plan[k], l.slot), Failed) then
        Some(l.(pc := Drop(k)))
      else if a == TryFlock(Target(plan[k], l.slot), Got) then Some(Inner(program, k, l.slot))
      else if a == TryFlock(Target(plan[k], l.slot), Busy) then
        Some(if plan[k].AnySlot? then l.(pc := Retry(k)) else l)
      else None
    case Retry(k) =>
      if k < |plan| && a == Unmutex(Target(plan[k], l.slot)) then Some(Local(Enter(k), l.slot + 1)) else None
    case Inside(phase) =>
      if last < 0 then None
      else if phase == Stopping && a.Stop? && program.container == Some(a.container) then
        Some(l.(pc := if a.ok then Inside(Working) else Leave(last)))
      else if phase == Working && a.Work? then
        Some(l.(pc := if program.container.Some? then Inside(Starting) else Leave(last)))
      else if phase == Starting && a.Start? && program.container == Some(a.container) then
        Some(l.(pc := Leave(last)))
      else None
    case Leave(k) =>
      if k < |plan| && a == Unflock(Target(plan[k], l.slot)) then Some(l.(pc := Drop(k))) else None
    case Drop(k) =>
      if k < |plan| && a == Unmutex(Target(plan[k], l.slot)) then Some(Outer(k, l.slot)) else None
    case Done => None
    case Dead => None
  }

  // ---- What a thread holds at each place ----

  function Depth(pc: Pc, sections: nat): nat {
    match pc
    case Enter(k) => k
    case Locked(k) => k
    case Retry(k) => k
    case Inside(_) => sections
    case Leave(k) => k + 1
    case Drop(k) => k
    case Done => 0
    case Dead => 0
  }

  function MutexDepth(pc: Pc, sections: nat): nat {
    Depth(pc, sections) + (if pc.Locked? || pc.Retry? || pc.Drop? then 1 else 0)
  }

  function Held(plan: seq<Section>, n: nat, slot: nat): set<Res>
    requires n <= |plan|
  {
    if n == 0 then {} else Held(plan, n - 1, slot) + {Target(plan[n - 1], slot)}
  }

  predicate Fits(plan: seq<Section>, l: Local) {
    && MutexDepth(l.pc, |plan|) <= |plan|
    && ((l.pc.Enter? || l.pc.Locked? || l.pc.Retry?) ==> l.pc.k < |plan|)
    && (l.pc.Retry? ==> plan[l.pc.k].AnySlot?)
    && (l.pc.Enter? && plan[l.pc.k].AnySlot? ==> l.slot <= plan[l.pc.k].max)
    && (forall j | 0 <= j < MutexDepth(l.pc, |plan|) :: plan[j].AnySlot? ==> l.slot < plan[j].max)
  }

  /** Only a thread that stops a container has something to stop or to start again. */
  predicate PhaseFits(program: Program, l: Local) {
    l.pc.Inside? && l.pc.phase != Working ==> program.container.Some?
  }

  lemma {:induction false} HeldLevels(plan: seq<Section>, n: nat, slot: nat)
    requires n <= |plan|
    ensures forall r | r in Held(plan, n, slot) :: exists j :: 0 <= j < n && r == Target(plan[j], slot)
    ensures forall j | 0 <= j < n :: Target(plan[j], slot) in Held(plan, n, slot)
  {
    if n > 0 {
      HeldLevels(plan, n - 1, slot);
    }
  }

  /** Below the slot section the slot number does not matter. */
  lemma {:induction false} HeldBelowSlot(plan: seq<Section>, n: nat, slot: nat, other: nat)
    requires n <= |plan| && forall j | 0 <= j < n :: !plan[j].AnySlot?
    ensures Held(plan, n, slot) == Held(plan, n, other)
  {
    if n > 0 {
      HeldBelowSlot(plan, n - 1, slot, other);
    }
  }

  /** In an ordered plan a thread never waits for something it already holds. */
  lemma {:induction false} TargetFresh(plan: seq<Section>, k: nat, slot: nat)
    requires Ordered(plan) && k < |plan|
    ensures Target(plan[k], slot) !in Held(plan, k, slot)
    ensures plan[k].AnySlot? ==> forall j | 0 <= j < k :: !plan[j].AnySlot?
  {
    HeldLevels(plan, k, slot);
    forall j | 0 <= j < k ensures Target(plan[j], slot) != Target(plan[k], slot) {
      assert Level(plan[j]) < Level(plan[k]);
    }
  }

  // ---- All threads ----

  datatype Thread = Thread(process: nat, program: Program)

  type System = seq<Thread>

  ghost predicate ValidSystem(sys: System) {
    forall t | 0 <= t < |sys| :: ValidProgram(sys[t].program)
  }

  /** What happened to containers, and which processes crashed, in order. */
  datatype Event = Did(thread: nat, action: Action) | Crashed(process: nat)

  /** Who took each mutex of each process, and each file lock. `orphans` are the threads whose process crashed
      while they were waiting for a worker: the worker is a container of its own and runs on. */
  datatype State = State(
    mutexes: map<(nat, Res), nat>, flocks: map<Res, nat>, locals: seq<Local>, trace: seq<Event>, orphans: set<nat>)

  function Init(sys: System): State {
    State(map[], map[], seq(|sys|, t requires 0 <= t < |sys| => StartLocal()), [], {})
  }

  /** An attempt succeeds exactly when the mutex or file lock is free; it may also fail with an error. */
  predicate Allowed(sys: System, s: State, t: nat, a: Action)
    requires t < |sys|
  {
    match a
    case TryMutex(r, got) => got == ((sys[t].process, r) !in s.mutexes)
    case TryFlock(r, result) => (result == Got ==> r !in s.flocks) && (result == Busy ==> r in s.flocks)
    case _ => true
  }

  function Effect(sys: System, s: State, t: nat, a: Action, l: Local): State
    requires t < |sys| && t < |s.locals|
  {
    var p := sys[t].process;
    var mutexes :=
      if a.TryMutex? && a.got then s.mutexes[(p, a.res) := t]
      else if a.Unmutex? then s.mutexes - {(p, a.res)} else s.mutexes;
    var flocks :=
      if a.TryFlock? && a.result == Got then s.flocks[a.res := t]
      else if a.Unflock? then s.flocks - {a.res} else s.flocks;
    var trace := if a.Stop? || a.Work? || a.Start? then s.trace + [Did(t, a)] else s.trace;
    State(mutexes, flocks, s.locals[t := l], trace, s.orphans)
  }

  /** A crash ends the threads of the process; its mutexes are gone and the system drops its file locks. The
      containers of its workers are left behind. A process that exits while jobs run does the same: the
      daemon does not wait for them. */
  function Crash(sys: System, s: State, p: nat): State
    requires |s.locals| == |sys|
  {
    State(
      map key | key in s.mutexes && key.0 != p :: s.mutexes[key],
      map r | r in s.flocks && !(s.flocks[r] < |sys| && sys[s.flocks[r]].process == p) :: s.flocks[r],
      seq(|sys|, t requires 0 <= t < |sys| => if sys[t].process == p then Local(Dead, 0) else s.locals[t]),
      s.trace + [Crashed(p)],
      s.orphans + set t | 0 <= t < |sys| && sys[t].process == p && s.locals[t].pc == Inside(Working))
  }

  datatype Choice = Act(thread: nat, action: Action) | CrashOf(process: nat)

  predicate Step(sys: System, s: State, choice: Choice, s': State) {
    && |s.locals| == |sys|
    && match choice
       case Act(t, a) =>
         && t < |sys| && Allowed(sys, s, t, a)
         && Move(sys[t].program, s.locals[t], a).Some?
         && s' == Effect(sys, s, t, a, Move(sys[t].program, s.locals[t], a).value)
       case CrashOf(p) => s' == Crash(sys, s, p)
  }

  /** A finite run: any interleaving of any steps from the initial state. */
  ghost predicate Run(sys: System, states: seq<State>, choices: seq<Choice>) {
    && |states| == |choices| + 1
    && states[0] == Init(sys)
    && forall i | 0 <= i < |choices| :: Step(sys, states[i], choices[i], states[i + 1])
  }

  ghost predicate Reachable(sys: System, s: State) {
    exists states, choices :: Run(sys, states, choices) && states[|states| - 1] == s
  }

  // ---- The invariant: the lock tables say exactly what the threads' places say ----

  function FlocksAt(plan: seq<Section>, l: Local): set<Res>
    requires Fits(plan, l)
  {
    Held(plan, Depth(l.pc, |plan|), l.slot)
  }

  function MutexesAt(plan: seq<Section>, l: Local): set<Res>
    requires Fits(plan, l)
  {
    Held(plan, MutexDepth(l.pc, |plan|), l.slot)
  }

  ghost predicate AllFit(sys: System, s: State) {
    && |s.locals| == |sys|
    && (forall t | 0 <= t < |sys| :: Fits(sys[t].program.plan, s.locals[t]))
    && (forall t | 0 <= t < |sys| :: PhaseFits(sys[t].program, s.locals[t]))
  }

  function FlocksOf(sys: System, s: State, t: nat): set<Res>
    requires |s.locals| == |sys| && t < |sys| && Fits(sys[t].program.plan, s.locals[t])
  {
    FlocksAt(sys[t].program.plan, s.locals[t])
  }

  function MutexesOf(sys: System, s: State, t: nat): set<Res>
    requires |s.locals| == |sys| && t < |sys| && Fits(sys[t].program.plan, s.locals[t])
  {
    MutexesAt(sys[t].program.plan, s.locals[t])
  }

  /** A file lock that is taken is taken by a thread whose place says so. */
  ghost predicate FlockJustified(sys: System, s: State, r: Res)
    requires AllFit(sys, s) && r in s.flocks
  {
    s.flocks[r] < |sys| && r in FlocksOf(sys, s, s.flocks[r])
  }

  predicate FlockRecorded(s: State, t: nat, r: Res) {
    r in s.flocks && s.flocks[r] == t
  }

  ghost predicate FlocksAgree(sys: System, s: State)
    requires AllFit(sys, s)
  {
    && (forall r | r in s.flocks :: FlockJustified(sys, s, r))
    && (forall t, r | 0 <= t < |sys| && r in FlocksOf(sys, s, t) :: FlockRecorded(s, t, r))
  }

  /** A mutex that is taken is taken by a thread of its process whose place says so. */
  ghost predicate MutexJustified(sys: System, s: State, key: (nat, Res))
    requires AllFit(sys, s) && key in s.mutexes
  {
    var t := s.mutexes[key];
    t < |sys| && sys[t].process == key.0 && key.1 in MutexesOf(sys, s, t)
  }

  predicate MutexRecorded(sys: System, s: State, t: nat, r: Res)
    requires t < |sys|
  {
    (sys[t].process, r) in s.mutexes && s.mutexes[(sys[t].process, r)] == t
  }

  ghost predicate MutexesAgree(sys: System, s: State)
    requires AllFit(sys, s)
  {
    && (forall key | key in s.mutexes :: MutexJustified(sys, s, key))
    && (forall t, r | 0 <= t < |sys| && r in MutexesOf(sys, s, t) :: MutexRecorded(sys, s, t, r))
  }

  ghost predicate Inv(sys: System, s: State) {
    AllFit(sys, s) && FlocksAgree(sys, s) && MutexesAgree(sys, s)
  }

  /** How one action changes what its thread holds. */
  ghost predicate Changes(plan: seq<Section>, l: Local, a: Action, l': Local)
    requires Fits(plan, l) && Fits(plan, l')
  {
    && FlocksAt(plan, l') == (
         if a.TryFlock? && a.result == Got then FlocksAt(plan, l) + {a.res}
         else if a.Unflock? then FlocksAt(plan, l) - {a.res} else FlocksAt(plan, l))
    && MutexesAt(plan, l') == (
         if a.TryMutex? && a.got then MutexesAt(plan, l) + {a.res}
         else if a.Unmutex? then MutexesAt(plan, l) - {a.res} else MutexesAt(plan, l))
    && (a.Unflock? ==> a.res in FlocksAt(plan, l))
    && (a.Unmutex? ==> a.res in MutexesAt(plan, l))
    && (a.TryMutex? ==> a.res !in MutexesAt(plan, l))
    && (a.TryFlock? ==> a.res !in FlocksAt(plan, l))
  }

  ghost predicate Keeps(program: Program, l: Local, a: Action)
    requires Fits(program.plan, l) && Move(program, l, a).Some?
  {
    var l' := Move(program, l, a).value;
    Fits(program.plan, l') && PhaseFits(program, l') && Changes(program.plan, l, a, l')
  }

  lemma {:induction false} EnterKeeps(program: Program, l: Local, a: Action)
    requires ValidProgram(program) && l.pc.Enter? && Fits(program.plan, l) && Move(program, l, a).Some?
    ensures Keeps(program, l, a)
  {
    var plan, k := program.plan, l.pc.k;
    TargetFresh(plan, k, l.slot);
    if plan[k].AnySlot? {
      HeldBelowSlot(plan, k, l.slot, l.slot + 1);
      HeldBelowSlot(plan, k, l.slot, 0);
    }
  }

  lemma {:induction false} GotKeeps(program: Program, l: Local, a: Action)
    requires ValidProgram(program) && l.pc.Locked? && Fits(program.plan, l) && Move(program, l, a).Some?
    requires a.TryFlock? && a.result == Got
    ensures Keeps(program, l, a)
  {
    var plan, k := program.plan, l.pc.k;
    var l' := Inner(program, k, l.slot);
    TargetFresh(plan, k, l.slot);
    assert Move(program, l, a) == Some(l');
    assert Depth(l'.pc, |plan|) == MutexDepth(l'.pc, |plan|) == k + 1;
    if k + 1 < |plan| && plan[k + 1].AnySlot? {
      TargetFresh(plan, k + 1, l.slot);
      HeldBelowSlot(plan, k + 1, l.slot, 0);
    }
    assert Held(plan, k + 1, l'.slot) == Held(plan, k, l.slot) + {a.res};
  }

  lemma {:induction false} LockedKeeps(program: Program, l: Local, a: Action)
    requires ValidProgram(program) && l.pc.Locked? && Fits(program.plan, l) && Move(program, l, a).Some?
    ensures Keeps(program, l, a)
  {
    TargetFresh(program.plan, l.pc.k, l.slot);
    if a.TryFlock? && a.result == Got {
      GotKeeps(program, l, a);
    }
  }

  lemma {:induction false} ReleaseKeeps(program: Program, l: Local, a: Action)
    requires ValidProgram(program) && (l.pc.Retry? || l.pc.Leave? || l.pc.Drop?)
    requires Fits(program.plan, l) && Move(program, l, a).Some?
    ensures Keeps(program, l, a)
  {
    TargetFresh(program.plan, l.pc.k, l.slot);
    if l.pc.Retry? {
      HeldBelowSlot(program.plan, l.pc.k, l.slot, l.slot + 1);
    }
  }

  lemma {:induction false} MoveKeeps(program: Program, l: Local, a: Action)
    requires ValidProgram(program) && Fits(program.plan, l) && Move(program, l, a).Some?
    ensures Keeps(program, l, a)
  {
    match l.pc
    case Enter(_) => EnterKeeps(program, l, a);
    case Locked(_) => LockedKeeps(program, l, a);
    case Retry(_) => ReleaseKeeps(program, l, a);
    case Leave(_) => ReleaseKeeps(program, l, a);
    case Drop(_) => ReleaseKeeps(program, l, a);
    case Inside(_) =>
    case Done =>
    case Dead =>
  }
}
