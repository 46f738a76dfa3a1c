/** What holds in every state of every run of the lock protocol: the lock tables agree with the threads,
    so locks exclude, slots bound the number of writers, and finished threads have left nothing behind. */
module Safety {
  import opened Text
  import opened Keys
  import opened Protocol

  // ---- The invariant is inductive ----

  lemma {:induction false} InitInv(sys: System)
    requires ValidSystem(sys)
    ensures Inv(sys, Init(sys))
  {
    var s := Init(sys);
    forall t | 0 <= t < |sys| ensures Fits(sys[t].program.plan, s.locals[t]) {
      assert ValidProgram(sys[t].program) && s.locals[t] == StartLocal();
    }
    assert forall t | 0 <= t < |sys| :: s.locals[t] == StartLocal();
    forall t | 0 <= t < |sys| ensures FlocksOf(sys, s, t) == {} && MutexesOf(sys, s, t) == {} {
      assert s.locals[t] == StartLocal();
      assert Held(sys[t].program.plan, 0, 0) == {};
    }
  }

  lemma {:induction false} ActFits(sys: System, s: State, t: nat, a: Action, s': State)
    requires ValidSystem(sys) && Inv(sys, s) && Step(sys, s, Act(t, a), s')
    ensures AllFit(sys, s')
    ensures Changes(sys[t].program.plan, s.locals[t], a, s'.locals[t])
    ensures forall u | 0 <= u < |sys| && u != t ::
              FlocksOf(sys, s', u) == FlocksOf(sys, s, u) && MutexesOf(sys, s', u) == MutexesOf(sys, s, u)
  {
    MoveKeeps(sys[t].program, s.locals[t], a);
    assert forall u | 0 <= u < |sys| && u != t :: s'.locals[u] == s.locals[u];
  }

  /** What an action does to the two lock tables. */
  lemma {:induction false} ActTables(sys: System, s: State, t: nat, a: Action, s': State)
    requires Step(sys, s, Act(t, a), s')
    ensures t < |sys|
    ensures s'.flocks == (
              if a.TryFlock? && a.result == Got then s.flocks[a.res := t]
              else if a.Unflock? then s.flocks - {a.res} else s.flocks)
    ensures s'.mutexes == (
              if a.TryMutex? && a.got then s.mutexes[(sys[t].process, a.res) := t]
              else if a.Unmutex? then s.mutexes - {(sys[t].process, a.res)} else s.mutexes)
    ensures a.TryFlock? && a.result == Got ==> a.res !in s.flocks
    ensures a.TryMutex? && a.got ==> (sys[t].process, a.res) !in s.mutexes
  {
  }

  lemma {:induction false} ActFlockJustified(sys: System, s: State, t: nat, a: Action, s': State, r: Res)
    requires ValidSystem(sys) && Inv(sys, s) && Step(sys, s, Act(t, a), s') && AllFit(sys, s')
    ensures r in s'.flocks ==> FlockJustified(sys, s', r)
  {
    hide MutexesAgree, Step, ValidSystem, FlocksAt, MutexesAt, Fits;
    ActFits(sys, s, t, a, s');
    ActTables(sys, s, t, a, s');
    if r in s'.flocks && !(a.TryFlock? && a.result == Got && r == a.res) {
      assert r in s.flocks && FlockJustified(sys, s, r);
    }
  }

  lemma {:induction false} ActFlockRecorded(sys: System, s: State, t: nat, a: Action, s': State, u: nat, r: Res)
    requires ValidSystem(sys) && Inv(sys, s) && Step(sys, s, Act(t, a), s') && AllFit(sys, s')
    requires u < |sys| && r in FlocksOf(sys, s', u)
    ensures FlockRecorded(s', u, r)
  {
    hide MutexesAgree, Step, ValidSystem, FlocksAt, MutexesAt, Fits;
    ActFits(sys, s, t, a, s');
    ActTables(sys, s, t, a, s');
    if a.TryFlock? && a.result == Got {
      if u != t || r != a.res {
        assert r in FlocksOf(sys, s, u) && FlockRecorded(s, u, r);
      }
    } else if a.Unflock? {
      assert r in FlocksOf(sys, s, u) && FlockRecorded(s, u, r);
      assert a.res in FlocksOf(sys, s, t) && FlockRecorded(s, t, a.res);
    } else {
      assert r in FlocksOf(sys, s, u) && FlockRecorded(s, u, r);
    }
  }

  lemma {:induction false} ActMutexJustified(sys: System, s: State, t: nat, a: Action, s': State, key: (nat, Res))
    requires ValidSystem(sys) && Inv(sys, s) && Step(sys, s, Act(t, a), s') && AllFit(sys, s')
    requires key in s'.mutexes
    ensures MutexJustified(sys, s', key)
  {
    hide FlocksAgree, Step, ValidSystem, FlocksAt, MutexesAt, Fits;
    ActFits(sys, s, t, a, s');
    ActTables(sys, s, t, a, s');
    if !(a.TryMutex? && a.got && key == (sys[t].process, a.res)) {
      assert key in s.mutexes && MutexJustified(sys, s, key);
    }
  }

  lemma {:induction false} ActMutexRecorded(sys: System, s: State, t: nat, a: Action, s': State, u: nat, r: Res)
    requires ValidSystem(sys) && Inv(sys, s) && Step(sys, s, Act(t, a), s') && AllFit(sys, s')
    requires u < |sys| && r in MutexesOf(sys, s', u)
    ensures MutexRecorded(sys, s', u, r)
  {
    hide FlocksAgree, Step, ValidSystem, FlocksAt, MutexesAt, Fits;
    ActFits(sys, s, t, a, s');
    ActTables(sys, s, t, a, s');
    if a.TryMutex? && a.got {
      if u != t || r != a.res {
        assert r in MutexesOf(sys, s, u) && MutexRecorded(sys, s, u, r);
      }
    } else if a.Unmutex? {
      assert r in MutexesOf(sys, s, u) && MutexRecorded(sys, s, u, r);
      assert a.res in MutexesOf(sys, s, t) && MutexRecorded(sys, s, t, a.res);
    } else {
      assert r in MutexesOf(sys, s, u) && MutexRecorded(sys, s, u, r);
    }
  }

  lemma {:induction false} CrashFits(sys: System, s: State, p: nat, s': State)
    requires ValidSystem(sys) && AllFit(sys, s) && Step(sys, s, CrashOf(p), s')
    ensures AllFit(sys, s')
    ensures forall t | 0 <= t < |sys| && sys[t].process != p ::
              FlocksOf(sys, s', t) == FlocksOf(sys, s, t) && MutexesOf(sys, s', t) == MutexesOf(sys, s, t)
    ensures forall t | 0 <= t < |sys| && sys[t].process == p ::
              FlocksOf(sys, s', t) == {} && MutexesOf(sys, s', t) == {}
  {
    forall t | 0 <= t < |sys| ensures Fits(sys[t].program.plan, s'.locals[t]) {
      assert ValidProgram(sys[t].program);
    }
  }

  lemma {:induction false} CrashFlocks(sys: System, s: State, p: nat, s': State)
    requires ValidSystem(sys) && Inv(sys, s) && Step(sys, s, CrashOf(p), s') && AllFit(sys, s')
    ensures FlocksAgree(sys, s')
  {
    hide MutexesAgree, MutexesOf;
    CrashFits(sys, s, p, s');
    forall r | r in s'.flocks ensures FlockJustified(sys, s', r) {
      assert FlockJustified(sys, s, r);
    }
    forall t, r | 0 <= t < |sys| && r in FlocksOf(sys, s', t) ensures FlockRecorded(s', t, r) {
      assert r in FlocksOf(sys, s, t) && FlockRecorded(s, t, r);
    }
  }

  lemma {:induction false} CrashMutexes(sys: System, s: State, p: nat, s': State)
    requires ValidSystem(sys) && Inv(sys, s) && Step(sys, s, CrashOf(p), s') && AllFit(sys, s')
    ensures MutexesAgree(sys, s')
  {
    hide FlocksAgree, FlocksOf;
    CrashFits(sys, s, p, s');
    forall key | key in s'.mutexes ensures MutexJustified(sys, s', key) {
      assert MutexJustified(sys, s, key);
    }
    forall t, r | 0 <= t < |sys| && r in MutexesOf(sys, s', t) ensures MutexRecorded(sys, s', t, r) {
      assert r in MutexesOf(sys, s, t) && MutexRecorded(sys, s, t, r);
    }
  }

  lemma {:induction false} StepInv(sys: System, s: State, choice: Choice, s': State)
    requires ValidSystem(sys) && Inv(sys, s) && Step(sys, s, choice, s')
    ensures Inv(sys, s')
  {
    match choice
    case Act(t, a) =>
      ActFits(sys, s, t, a, s');
      forall r | r in s'.flocks ensures FlockJustified(sys, s', r) {
        ActFlockJustified(sys, s, t, a, s', r);
      }
      forall u, r | 0 <= u < |sys| && r in FlocksOf(sys, s', u) ensures FlockRecorded(s', u, r) {
        ActFlockRecorded(sys, s, t, a, s', u, r);
      }
      forall key | key in s'.mutexes ensures MutexJustified(sys, s', key) {
        ActMutexJustified(sys, s, t, a, s', key);
      }
      forall u, r | 0 <= u < |sys| && r in MutexesOf(sys, s', u) ensures MutexRecorded(sys, s', u, r) {
        ActMutexRecorded(sys, s, t, a, s', u, r);
      }
    case CrashOf(p) =>
      CrashFits(sys, s, p, s');
      CrashFlocks(sys, s, p, s');
      CrashMutexes(sys, s, p, s');
  }

  lemma {:induction false} RunInv(sys: System, states: seq<State>, choices: seq<Choice>, i: nat)
    requires ValidSystem(sys) && Run(sys, states, choices) && i < |states|
    ensures Inv(sys, states[i])
  {
    if i == 0 {
      InitInv(sys);
    } else {
      RunInv(sys, states, choices, i - 1);
      StepInv(sys, states[i - 1], choices[i - 1], states[i]);
    }
  }

  lemma {:induction false} ReachableInv(sys: System, s: State)
    requires ValidSystem(sys) && Reachable(sys, s)
    ensures Inv(sys, s)
  {
    var states, choices :| Run(sys, states, choices) && states[|states| - 1] == s;
    RunInv(sys, states, choices, |states| - 1);
  }

  // ---- Exclusion ----

  ghost predicate InSection(sys: System, s: State, t: nat, r: Res)
    requires AllFit(sys, s)
  {
    t < |sys| && r in FlocksOf(sys, s, t)
  }

  ghost predicate InsideWorker(sys: System, s: State, t: nat)
    requires AllFit(sys, s)
  {
    t < |sys| && s.locals[t].pc.Inside?
  }

  /** The thread took the file lock, and the mutex of its process. */
  predicate Holds(sys: System, s: State, t: nat, r: Res)
    requires t < |sys|
  {
    FlockRecorded(s, t, r) && MutexRecorded(sys, s, t, r)
  }

  function RepositoryOf(program: Program): Res
    requires program.plan != [] && program.plan[0].Exclusive?
  {
    Lock(program.plan[0].id)
  }

  /** No two threads, of any processes, hold one file lock. */
  lemma {:induction false} Exclusion(sys: System, s: State, t: nat, u: nat, r: Res)
    requires ValidSystem(sys) && Reachable(sys, s)
    ensures AllFit(sys, s)
    ensures InSection(sys, s, t, r) && InSection(sys, s, u, r) ==> t == u
  {
    ReachableInv(sys, s);
    if InSection(sys, s, t, r) && InSection(sys, s, u, r) {
      assert r in FlocksOf(sys, s, t) && r in FlocksOf(sys, s, u);
      assert s.flocks[r] == t;
    }
  }

  /** Whoever is stopping containers, running a worker or starting containers again holds the file lock and
      its process's mutex of the repository, and of everything else in its plan. */
  lemma {:induction false} WorkerHoldsAll(sys: System, s: State, t: nat)
    requires ValidSystem(sys) && Reachable(sys, s)
    ensures AllFit(sys, s)
    ensures InsideWorker(sys, s, t) ==>
              forall k | 0 <= k < |sys[t].program.plan| ::
                Holds(sys, s, t, Target(sys[t].program.plan[k], s.locals[t].slot))
  {
    hide ValidSystem, Reachable, Fits, PhaseFits, FlockJustified, MutexJustified;
    ReachableInv(sys, s);
    if InsideWorker(sys, s, t) {
      var plan, slot := sys[t].program.plan, s.locals[t].slot;
      HeldLevels(plan, |plan|, slot);
      forall k | 0 <= k < |plan| ensures Holds(sys, s, t, Target(plan[k], slot)) {
        assert Target(plan[k], slot) in FlocksOf(sys, s, t) && Target(plan[k], slot) in MutexesOf(sys, s, t);
      }
    }
  }

  /** Two threads that live never are in their workers on one repository together. What workers of crashed
      processes do to this is the subject of module Overlap. */
  lemma {:induction false} RepositoryExclusion(sys: System, s: State, t: nat, u: nat)
    requires ValidSystem(sys) && Reachable(sys, s) && t < |sys| && u < |sys|
    ensures AllFit(sys, s) && ValidProgram(sys[t].program) && ValidProgram(sys[u].program)
    ensures RepositoryOf(sys[t].program) == RepositoryOf(sys[u].program) ==>
              InsideWorker(sys, s, t) && InsideWorker(sys, s, u) ==> t == u
  {
    WorkerHoldsAll(sys, s, t);
    WorkerHoldsAll(sys, s, u);
    assert Target(sys[t].program.plan[0], s.locals[t].slot) == RepositoryOf(sys[t].program);
    assert Target(sys[u].program.plan[0], s.locals[u].slot) == RepositoryOf(sys[u].program);
  }

  // ---- The bound on writers ----

  predicate SlotOf(section: Section, backend: string, m: nat) {
    section.AnySlot? && section.backend == backend && section.max <= m
  }

  /** The thread is inside the function that it passed to a limiter of this backend, of capacity 1 to m: it has
      a slot, and waits for a container, works, or is on its way out. */
  ghost predicate InsideLimiter(sys: System, s: State, t: nat, backend: string, m: nat)
    requires AllFit(sys, s)
  {
    t < |sys| && exists k | 0 <= k < Depth(s.locals[t].pc, |sys[t].program.plan|) ::
      SlotOf(sys[t].program.plan[k], backend, m)
  }

  lemma {:induction false} WriterSlot(sys: System, s: State, t: nat, backend: string, m: nat)
    requires Inv(sys, s) && InsideLimiter(sys, s, t, backend, m)
    ensures s.locals[t].slot < m
    ensures FlockRecorded(s, t, Slot(backend, s.locals[t].slot))
  {
    var plan, l := sys[t].program.plan, s.locals[t];
    var k :| 0 <= k < Depth(l.pc, |plan|) && SlotOf(plan[k], backend, m);
    HeldLevels(plan, Depth(l.pc, |plan|), l.slot);
    assert Target(plan[k], l.slot) == Slot(backend, l.slot) && Target(plan[k], l.slot) in FlocksOf(sys, s, t);
  }

  /** As many things as distinct numbers below `m` they map to. */
  lemma {:induction false} Pigeonhole(things: set<nat>, number: nat -> nat, m: nat)
    requires forall x | x in things :: number(x) < m
    requires forall x, y | x in things && y in things && number(x) == number(y) :: x == y
    ensures |things| <= m
    decreases m
  {
    if m > 0 {
      if x :| x in things && number(x) == m - 1 {
        Pigeonhole(things - {x}, number, m - 1);
      } else {
        Pigeonhole(things, number, m - 1);
      }
    } else {
      assert things == {};
    }
  }

  /** For every backend and every m, at most m threads are inside functions passed to limiters of capacity 1 to
      m, however limiters of different capacities are mixed over processes. */
  lemma {:induction false} WriteBound(sys: System, s: State, backend: string, m: nat)
    requires ValidSystem(sys) && Reachable(sys, s)
    ensures AllFit(sys, s)
    ensures |set t: nat | t < |sys| && InsideLimiter(sys, s, t, backend, m)| <= m
  {
    ReachableInv(sys, s);
    var writers := set t: nat | t < |sys| && InsideLimiter(sys, s, t, backend, m);
    var number := (t: nat) => if t < |s.locals| then s.locals[t].slot else 0;
    forall t | t in writers
      ensures number(t) < m && FlockRecorded(s, t, Slot(backend, number(t)))
    {
      WriterSlot(sys, s, t, backend, m);
    }
    Pigeonhole(writers, number, m);
  }

  // ---- Balance ----

  /** A thread that is done, or dead, owns no mutex and no file lock, whichever way it got there. */
  lemma {:induction false} NothingLeftBehind(sys: System, s: State, t: nat)
    requires ValidSystem(sys) && Reachable(sys, s) && t < |sys|
    ensures |s.locals| == |sys|
    ensures s.locals[t].pc.Done? || s.locals[t].pc.Dead? ==> t !in s.flocks.Values && t !in s.mutexes.Values
  {
    ReachableInv(sys, s);
  }

  /** What a thread owns is what its place in its program says, neither more nor less. */
  lemma {:induction false} OwnsExactly(sys: System, s: State, t: nat)
    requires ValidSystem(sys) && Reachable(sys, s) && t < |sys|
    ensures AllFit(sys, s)
    ensures (set r | r in s.flocks && s.flocks[r] == t) == FlocksOf(sys, s, t)
    ensures (set key | key in s.mutexes && s.mutexes[key] == t :: key.1) == MutexesOf(sys, s, t)
  {
    ReachableInv(sys, s);
    var owned := set key | key in s.mutexes && s.mutexes[key] == t :: key.1;
    forall r | r in MutexesOf(sys, s, t) ensures r in owned {
      assert (sys[t].process, r) in s.mutexes;
    }
  }
}
