/** Which workers can run at the same time: exactly when locks keep them apart, and what becomes of that when a
    process dies and leaves its workers behind (internal/docker/runtime.go, runWorker: a worker is a container that
    only the process that made it removes). */
module Overlap {
  import opened Text
  import opened Keys
  import opened Protocol
  import opened Safety
  import opened Entry

  /** The thread's worker runs: for the thread, or left behind by a crash. */
  predicate WorkerRuns(s: State, t: nat) {
    AtWork(s, t) || t in s.orphans
  }

  /** No lock in common; and of two limiters of one backend, at least one has room for two. */
  ghost predicate Compatible(p: Program, q: Program) {
    && (forall j, k | 0 <= j < |p.plan| && 0 <= k < |q.plan| :: Apart(p.plan[j], q.plan[k]))
  }

  predicate Apart(a: Section, b: Section) {
    match (a, b)
    case (Exclusive(x), Exclusive(y)) => x != y
    case (AnySlot(x, m), AnySlot(y, n)) => x != y || m >= 2 || n >= 2
    case _ => true
  }

  // ---- Sets of threads ----

  /** The program runs under a limiter of this backend of capacity 1 to m. */
  ghost predicate UnderLimiter(program: Program, backend: string, m: nat) {
    exists k | 0 <= k < |program.plan| :: SlotOf(program.plan[k], backend, m)
  }

  ghost function Limited(sys: System, ts: set<nat>, backend: string, m: nat): set<nat> {
    set t | t in ts && t < |sys| && UnderLimiter(sys[t].program, backend, m)
  }

  ghost predicate NoSharedLock(p: Program, q: Program) {
    forall j, k | 0 <= j < |p.plan| && 0 <= k < |q.plan| ::
      p.plan[j].Exclusive? && q.plan[k].Exclusive? ==> p.plan[j] != q.plan[k]
  }

  /** No two threads of the set have a lock in common, and for every backend and n, at most n of them are under
      limiters of capacity 1 to n. */
  ghost predicate Together(sys: System, ts: set<nat>) {
    && (forall t | t in ts :: t < |sys|)
    && (forall t, u | t in ts && u in ts && t != u :: NoSharedLock(sys[t].program, sys[u].program))
    && (forall backend, n: nat :: |Limited(sys, ts, backend, n)| <= n)
  }

  lemma {:induction false} SubsetSize(a: set<nat>, b: set<nat>)
    requires a <= b
    ensures |a| <= |b|
  {
    if a != {} {
      var x :| x in a;
      SubsetSize(a - {x}, b - {x});
    }
  }

  lemma {:induction false} FewerTogether(sys: System, ts: set<nat>, us: set<nat>)
    requires Together(sys, ts) && us <= ts
    ensures Together(sys, us)
  {
    forall backend, n: nat ensures |Limited(sys, us, backend, n)| <= n {
      SubsetSize(Limited(sys, us, backend, n), Limited(sys, ts, backend, n));
    }
  }

  /** A pair is together exactly if it is compatible. */
  lemma {:induction false} PairTogether(sys: System, t: nat, u: nat)
    requires ValidSystem(sys) && t < |sys| && u < |sys| && t != u
    ensures Together(sys, {t, u}) <==> Compatible(sys[t].program, sys[u].program)
  {
    var p, q := sys[t].program, sys[u].program;
    assert ValidProgram(p) && ValidProgram(q);
    if Together(sys, {t, u}) {
      forall j, k | 0 <= j < |p.plan| && 0 <= k < |q.plan| ensures Apart(p.plan[j], q.plan[k]) {
        if p.plan[j].AnySlot? {
          BothLimited(sys, t, u, j, k, p.plan[j].backend);
        }
      }
    }
    if Compatible(p, q) {
      assert NoSharedLock(p, q) && NoSharedLock(q, p) by {
        forall j, k | 0 <= j < |p.plan| && 0 <= k < |q.plan| && p.plan[j].Exclusive? && q.plan[k].Exclusive?
          ensures p.plan[j] != q.plan[k]
        {
          assert Apart(p.plan[j], q.plan[k]);
        }
      }
      forall backend, n: nat ensures |Limited(sys, {t, u}, backend, n)| <= n {
        PairLimited(sys, t, u, backend, n);
      }
    }
  }

  lemma {:induction false} BothLimited(sys: System, t: nat, u: nat, j: nat, k: nat, backend: string)
    requires t < |sys| && u < |sys| && t != u && j < |sys[t].program.plan| && k < |sys[u].program.plan|
    ensures SlotOf(sys[t].program.plan[j], backend, 1) && SlotOf(sys[u].program.plan[k], backend, 1) ==>
              |Limited(sys, {t, u}, backend, 1)| == 2
  {
    if SlotOf(sys[t].program.plan[j], backend, 1) && SlotOf(sys[u].program.plan[k], backend, 1) {
      assert Limited(sys, {t, u}, backend, 1) == {t, u};
    }
  }

  lemma {:induction false} PairLimited(sys: System, t: nat, u: nat, backend: string, n: nat)
    requires ValidSystem(sys) && t < |sys| && u < |sys| && t != u
    requires Compatible(sys[t].program, sys[u].program)
    ensures |Limited(sys, {t, u}, backend, n)| <= n
  {
    var p, q := sys[t].program, sys[u].program;
    var limited := Limited(sys, {t, u}, backend, n);
    assert ValidProgram(p) && ValidProgram(q);
    SubsetSize(limited, {t, u});
    if n == 1 && t in limited {
      var j :| 0 <= j < |p.plan| && SlotOf(p.plan[j], backend, n);
      assert forall k | 0 <= k < |q.plan| :: Apart(p.plan[j], q.plan[k]);
      assert !UnderLimiter(q, backend, 1);
      SubsetSize(limited, {t});
    } else if n == 1 {
      SubsetSize(limited, {u});
    } else if n == 0 {
      assert limited == {};
    }
  }

  lemma {:induction false} OneTogether(sys: System, t: nat)
    requires ValidSystem(sys) && t < |sys|
    ensures Together(sys, {t})
  {
    assert ValidProgram(sys[t].program);
    forall backend, n: nat ensures |Limited(sys, {t}, backend, n)| <= n {
      SubsetSize(Limited(sys, {t}, backend, n), {t});
      assert n == 0 ==> Limited(sys, {t}, backend, n) == {};
    }
  }

  // ---- A set of workers at once ----

  /** The capacity of the limiter in a plan, 0 if there is none. */
  ghost function Capacity(plan: seq<Section>): nat {
    if exists k :: IsSlot(plan, k) then
      var k :| IsSlot(plan, k);
      plan[k].max
    else 0
  }

  predicate IsSlot(plan: seq<Section>, k: int) {
    0 <= k < |plan| && plan[k].AnySlot?
  }

  lemma {:induction false} CapacityOfSlot(plan: seq<Section>, k: nat)
    requires Ordered(plan) && IsSlot(plan, k)
    ensures Capacity(plan) == plan[k].max
  {
    forall j | IsSlot(plan, j) ensures j == k {
      assert Level(plan[j]) == Level(plan[k]);
    }
  }

  lemma {:induction false} Largest(sys: System, ts: set<nat>) returns (t: nat)
    requires ts != {} && forall v | v in ts :: v < |sys|
    ensures t in ts && forall v | v in ts :: Capacity(sys[v].program.plan) <= Capacity(sys[t].program.plan)
  {
    t :| t in ts;
    if ts - {t} != {} {
      var u := Largest(sys, ts - {t});
      if Capacity(sys[u].program.plan) > Capacity(sys[t].program.plan) {
        t := u;
      }
    }
  }

  ghost predicate TargetOf(sys: System, s: State, v: nat, r: Res)
    requires |s.locals| == |sys|
  {
    v < |sys| && exists j | 0 <= j < |sys[v].program.plan| :: r == Target(sys[v].program.plan[j], s.locals[v].slot)
  }

  ghost predicate OthersIdle(sys: System, s: State, ts: set<nat>)
    requires AllFit(sys, s)
  {
    forall v | 0 <= v < |sys| && v !in ts :: Idle(sys, s, v)
  }

  lemma {:induction false} HeldIsTarget(sys: System, s: State, v: nat, r: Res)
    requires AllFit(sys, s) && v < |sys| && (r in FlocksOf(sys, s, v) || r in MutexesOf(sys, s, v))
    ensures TargetOf(sys, s, v, r)
  {
    var plan, l := sys[v].program.plan, s.locals[v];
    HeldLevels(plan, Depth(l.pc, |plan|), l.slot);
    HeldLevels(plan, MutexDepth(l.pc, |plan|), l.slot);
  }

  /** What is taken while only threads of `ts` hold anything is a target of one of them. */
  lemma {:induction false} Taken(sys: System, s: State, ts: set<nat>, u: nat, r: Res) returns (v: nat)
    requires Inv(sys, s) && u < |sys| && OthersIdle(sys, s, ts) && !Available(sys, s, u, r)
    ensures v in ts && TargetOf(sys, s, v, r)
  {
    var key := (sys[u].process, r);
    if r in s.flocks {
      v := s.flocks[r];
      assert FlockJustified(sys, s, r);
    } else {
      v := s.mutexes[key];
      assert MutexJustified(sys, s, key);
    }
    assert v !in ts ==> Idle(sys, s, v);
    HeldIsTarget(sys, s, v, r);
  }

  /** If the first n slots are taken, n threads are under the limiter. */
  lemma {:induction false} Holders(sys: System, s: State, ts: set<nat>, t: nat, backend: string, max: nat, n: nat)
      returns (holders: set<nat>)
    requires ValidSystem(sys) && Inv(sys, s) && t < |sys| && OthersIdle(sys, s, ts) && n <= max
    requires forall v | v in ts :: v < |sys| && Capacity(sys[v].program.plan) <= max
    requires forall i: nat | i < n :: !Available(sys, s, t, Slot(backend, i))
    ensures |holders| == n && holders <= Limited(sys, ts, backend, max)
    ensures forall v | v in holders :: v < |sys| && s.locals[v].slot < n
  {
    if n == 0 {
      holders := {};
    } else {
      holders := Holders(sys, s, ts, t, backend, max, n - 1);
      assert !Available(sys, s, t, Slot(backend, n - 1));
      var v := Taken(sys, s, ts, t, Slot(backend, n - 1));
      var plan := sys[v].program.plan;
      var j :| 0 <= j < |plan| && Slot(backend, n - 1) == Target(plan[j], s.locals[v].slot);
      assert ValidProgram(sys[v].program);
      CapacityOfSlot(plan, j);
      assert SlotOf(plan[j], backend, max);
      holders := holders + {v};
    }
  }

  lemma {:induction false} FreeSlot(sys: System, s: State, ts: set<nat>, t: nat, k: nat)
    requires ValidSystem(sys) && Inv(sys, s) && t !in ts && Together(sys, ts + {t}) && OthersIdle(sys, s, ts)
    requires forall v | v in ts :: v < |sys| && Capacity(sys[v].program.plan) <= Capacity(sys[t].program.plan)
    requires t < |sys| && k < |sys[t].program.plan| && sys[t].program.plan[k].AnySlot?
    ensures Open(sys, s, t, sys[t].program.plan[k])
  {
    hide Inv, ValidProgram, Available, UnderLimiter;
    var section := sys[t].program.plan[k];
    var backend, max := section.backend, section.max;
    SlotCounts(sys, t, k);
    if forall i: nat | i < max :: !Available(sys, s, t, Slot(backend, i)) {
      var holders := Holders(sys, s, ts, t, backend, max, max);
      SubsetSize(holders + {t}, Limited(sys, ts + {t}, backend, max));
    } else {
      var i: nat :| i < max && Available(sys, s, t, Slot(backend, i));
      assert SlotAvailable(sys, s, t, backend, max, i);
    }
  }

  lemma {:induction false} SlotCounts(sys: System, t: nat, k: nat)
    requires ValidSystem(sys) && t < |sys| && k < |sys[t].program.plan| && sys[t].program.plan[k].AnySlot?
    ensures var section := sys[t].program.plan[k];
            Capacity(sys[t].program.plan) == section.max && UnderLimiter(sys[t].program, section.backend, section.max)
  {
    assert ValidProgram(sys[t].program);
    CapacityOfSlot(sys[t].program.plan, k);
    assert SlotOf(sys[t].program.plan[k], sys[t].program.plan[k].backend, sys[t].program.plan[k].max);
  }

  lemma {:induction false} FreeLock(sys: System, s: State, ts: set<nat>, t: nat, k: nat)
    requires Inv(sys, s) && t !in ts && Together(sys, ts + {t}) && OthersIdle(sys, s, ts)
    requires t < |sys| && k < |sys[t].program.plan| && sys[t].program.plan[k].Exclusive?
    ensures Open(sys, s, t, sys[t].program.plan[k])
  {
    hide FlocksAgree, MutexesAgree, Available, Limited;
    var id := sys[t].program.plan[k].id;
    forall v | v in ts ensures !TargetOf(sys, s, v, Lock(id)) {
      assert v in ts + {t} && t in ts + {t} && NoSharedLock(sys[v].program, sys[t].program);
    }
    if !Available(sys, s, t, Lock(id)) {
      var v := Taken(sys, s, ts, t, Lock(id));
    }
  }

  /** While only `ts` hold anything, a thread that goes with them, and has the largest limiter, can enter. */
  lemma {:induction false} OpenBeside(sys: System, s: State, ts: set<nat>, t: nat, k: nat)
    requires ValidSystem(sys) && Inv(sys, s) && t !in ts && Together(sys, ts + {t}) && OthersIdle(sys, s, ts)
    requires forall v | v in ts :: v < |sys| && Capacity(sys[v].program.plan) <= Capacity(sys[t].program.plan)
    requires t < |sys| && k < |sys[t].program.plan|
    ensures Open(sys, s, t, sys[t].program.plan[k])
  {
    hide Together, Inv, OthersIdle, Open, Capacity;
    if sys[t].program.plan[k].AnySlot? {
      FreeSlot(sys, s, ts, t, k);
    } else {
      FreeLock(sys, s, ts, t, k);
    }
  }

  /** From a state in which nobody holds anything, threads that go together get to work, the others staying put. */
  lemma {:induction false} AllGetIn(sys: System, s0: State, ts: set<nat>) returns (s: State)
    requires ValidSystem(sys) && Reachable(sys, s0) && AllFit(sys, s0) && Together(sys, ts)
    requires forall v | 0 <= v < |sys| :: Idle(sys, s0, v)
    requires forall t | t in ts :: s0.locals[t] == StartLocal()
    ensures Reachable(sys, s) && |s.locals| == |sys| && s.orphans == s0.orphans
    ensures forall t | t in ts :: AtWork(s, t)
    ensures forall v | 0 <= v < |sys| && v !in ts :: s.locals[v] == s0.locals[v]
    decreases |ts|
  {
    if ts == {} {
      s := s0;
    } else {
      var t := Largest(sys, ts);
      var rest := ts - {t};
      assert rest + {t} == ts;
      FewerTogether(sys, ts, rest);
      var s1 := AllGetIn(sys, s0, rest);
      ReachableInv(sys, s1);
      forall v | 0 <= v < |sys| && v !in rest ensures Idle(sys, s1, v) {
        assert Idle(sys, s0, v) && s1.locals[v] == s0.locals[v];
      }
      forall k | 0 <= k < |sys[t].program.plan| ensures Open(sys, s1, t, sys[t].program.plan[k]) {
        OpenBeside(sys, s1, rest, t, k);
      }
      assert ValidProgram(sys[t].program);
      s := GoIn(sys, s1, t, 0);
    }
  }

  lemma {:induction false} InitIdle(sys: System)
    requires ValidSystem(sys)
    ensures Reachable(sys, Init(sys)) && Inv(sys, Init(sys))
    ensures forall v | 0 <= v < |sys| :: Init(sys).locals[v] == StartLocal() && Idle(sys, Init(sys), v)
  {
    InitReachable(sys);
    ReachableInv(sys, Init(sys));
    forall v | 0 <= v < |sys| ensures Idle(sys, Init(sys), v) {
      StartIsIdle(sys, Init(sys), v);
    }
  }

  /** Threads inside all their sections together are compatible. */
  lemma {:induction false} InsideTogether(sys: System, s: State, t: nat, u: nat)
    requires ValidSystem(sys) && Reachable(sys, s) && t < |sys| && u < |sys| && t != u
    ensures AllFit(sys, s)
    ensures InsideWorker(sys, s, t) && InsideWorker(sys, s, u) ==> Compatible(sys[t].program, sys[u].program)
  {
    WorkerHoldsAll(sys, s, t);
    WorkerHoldsAll(sys, s, u);
    if InsideWorker(sys, s, t) && InsideWorker(sys, s, u) {
      var p, q := sys[t].program, sys[u].program;
      forall j, k | 0 <= j < |p.plan| && 0 <= k < |q.plan| ensures Apart(p.plan[j], q.plan[k]) {
        assert Holds(sys, s, t, Target(p.plan[j], s.locals[t].slot));
        assert Holds(sys, s, u, Target(q.plan[k], s.locals[u].slot));
        assert Fits(p.plan, s.locals[t]) && Fits(q.plan, s.locals[u]);
      }
    }
  }

  /** Threads inside all their sections together go together. */
  lemma {:induction false} InsideAreTogether(sys: System, s: State, ts: set<nat>)
    requires ValidSystem(sys) && Reachable(sys, s) && forall t | t in ts :: t < |sys|
    ensures AllFit(sys, s)
    ensures (forall t | t in ts :: InsideWorker(sys, s, t)) ==> Together(sys, ts)
  {
    ReachableInv(sys, s);
    if forall t | t in ts :: InsideWorker(sys, s, t) {
      forall t, u | t in ts && u in ts && t != u ensures NoSharedLock(sys[t].program, sys[u].program) {
        InsideTogether(sys, s, t, u);
        var p, q := sys[t].program, sys[u].program;
        assert forall j, k | 0 <= j < |p.plan| && 0 <= k < |q.plan| :: Apart(p.plan[j], q.plan[k]);
      }
      forall backend, n: nat ensures |Limited(sys, ts, backend, n)| <= n {
        WriteBound(sys, s, backend, n);
        SubsetSize(Limited(sys, ts, backend, n), set t: nat | t < |sys| && InsideLimiter(sys, s, t, backend, n));
      }
    }
  }

  ghost predicate AllAtWork(sys: System, s: State, ts: set<nat>) {
    Reachable(sys, s) && forall t | t in ts :: AtWork(s, t)
  }

  /** A set of live threads can be at work in one state exactly when no two have a lock in common and, for every
      backend and n, at most n of them are under limiters of capacity 1 to n. Nothing else keeps workers apart. */
  lemma {:induction false} SetAtWorkIff(sys: System, ts: set<nat>)
    requires ValidSystem(sys) && forall t | t in ts :: t < |sys|
    ensures (exists s :: AllAtWork(sys, s, ts)) <==> Together(sys, ts)
  {
    if s :| AllAtWork(sys, s, ts) {
      InsideAreTogether(sys, s, ts);
      assert forall t | t in ts :: AtWork(s, t) && InsideWorker(sys, s, t);
    }
    if Together(sys, ts) {
      InitIdle(sys);
      var s := AllGetIn(sys, Init(sys), ts);
      assert AllAtWork(sys, s, ts);
    }
  }

  ghost predicate BothAtWork(sys: System, s: State, t: nat, u: nat) {
    Reachable(sys, s) && AtWork(s, t) && AtWork(s, u)
  }

  /** Two live threads can be at work together exactly when their programs are compatible. */
  lemma {:induction false} WorkTogetherIff(sys: System, t: nat, u: nat)
    requires ValidSystem(sys) && t < |sys| && u < |sys| && t != u
    ensures (exists s :: BothAtWork(sys, s, t, u)) <==> Compatible(sys[t].program, sys[u].program)
  {
    SetAtWorkIff(sys, {t, u});
    PairTogether(sys, t, u);
    if s :| BothAtWork(sys, s, t, u) {
      assert AllAtWork(sys, s, {t, u});
    }
    if s :| AllAtWork(sys, s, {t, u}) {
      assert BothAtWork(sys, s, t, u);
    }
  }

  // ---- Workers that outlive their process ----

  ghost function OfProcess(sys: System, ts: set<nat>, p: nat): set<nat> {
    set t | t in ts && t < |sys| && sys[t].process == p
  }

  /** The process of an orphaned worker is dead, and what was at work when it died went together. */
  ghost predicate OrphansAgree(sys: System, s: State) {
    && |s.locals| == |sys|
    && (forall t | t in s.orphans :: t < |sys|)
    && (forall t, u: nat | t in s.orphans && u < |sys| && sys[u].process == sys[t].process :: s.locals[u].pc.Dead?)
    && (forall p: nat :: Together(sys, OfProcess(sys, s.orphans, p)))
  }

  lemma {:induction false} CrashOrphans(sys: System, s: State, p: nat, s': State, q: nat)
    requires ValidSystem(sys) && Reachable(sys, s) && OrphansAgree(sys, s) && Step(sys, s, CrashOf(p), s')
    ensures Together(sys, OfProcess(sys, s'.orphans, q))
  {
    ReachableInv(sys, s);
    var before, after := OfProcess(sys, s.orphans, q), OfProcess(sys, s'.orphans, q);
    if q != p || before != {} {
      assert before != {} ==> forall t | 0 <= t < |sys| && sys[t].process == q :: s.locals[t].pc.Dead? by {
        if before != {} {
          var o :| o in before;
        }
      }
      assert after == before;
    } else {
      assert forall t | t in after && t in s.orphans :: t in before;
      assert forall t | t in after :: t < |sys| && AtWork(s, t) && InsideWorker(sys, s, t);
      InsideAreTogether(sys, s, after);
    }
  }

  lemma {:induction false} StepOrphans(sys: System, s: State, choice: Choice, s': State)
    requires ValidSystem(sys) && Reachable(sys, s) && OrphansAgree(sys, s) && Step(sys, s, choice, s')
    ensures OrphansAgree(sys, s')
  {
    match choice
    case Act(t, a) =>
      assert !s.locals[t].pc.Dead?;
      assert forall u | 0 <= u < |sys| && u != t :: s'.locals[u] == s.locals[u];
    case CrashOf(p) =>
      forall q: nat ensures Together(sys, OfProcess(sys, s'.orphans, q)) {
        CrashOrphans(sys, s, p, s', q);
      }
  }

  lemma {:induction false} RunOrphans(sys: System, states: seq<State>, choices: seq<Choice>, i: nat)
    requires ValidSystem(sys) && Run(sys, states, choices) && i < |states|
    ensures Reachable(sys, states[i]) && OrphansAgree(sys, states[i])
  {
    if i == 0 {
      InitReachable(sys);
    } else {
      RunOrphans(sys, states, choices, i - 1);
      StepOrphans(sys, states[i - 1], choices[i - 1], states[i]);
      Extend(sys, states[i - 1], choices[i - 1], states[i]);
    }
  }

  lemma {:induction false} ReachableOrphans(sys: System, s: State)
    requires ValidSystem(sys) && Reachable(sys, s)
    ensures OrphansAgree(sys, s)
  {
    var states, choices :| Run(sys, states, choices) && states[|states| - 1] == s;
    RunOrphans(sys, states, choices, |states| - 1);
  }

  /** The process of `t` crashed at step i of the run while `t` was at work. */
  ghost predicate CrashedAtWork(sys: System, states: seq<State>, choices: seq<Choice>, i: nat, t: nat) {
    i < |choices| && i < |states| && t < |sys| && choices[i] == CrashOf(sys[t].process) && AtWork(states[i], t)
  }

  /** The orphaned workers of a run are those of threads whose process crashed while they were at work. */
  lemma {:induction false} OrphansOfRun(sys: System, states: seq<State>, choices: seq<Choice>, n: nat, t: nat)
    requires Run(sys, states, choices) && n < |states|
    ensures t in states[n].orphans <==> exists i: nat | i < n :: CrashedAtWork(sys, states, choices, i, t)
  {
    if n > 0 {
      OrphansOfRun(sys, states, choices, n - 1, t);
      assert Step(sys, states[n - 1], choices[n - 1], states[n]);
      assert t in states[n].orphans <==> t in states[n - 1].orphans || CrashedAtWork(sys, states, choices, n - 1, t);
    }
  }

  /** The running workers of one process go together: all are of live threads, or all were left behind at once. */
  lemma {:induction false} ProcessTogether(sys: System, s: State, ts: set<nat>, p: nat)
    requires ValidSystem(sys) && Reachable(sys, s) && forall t | t in ts :: t < |sys| && WorkerRuns(s, t)
    ensures Together(sys, OfProcess(sys, ts, p))
  {
    ReachableOrphans(sys, s);
    ReachableInv(sys, s);
    var group, left := OfProcess(sys, ts, p), OfProcess(sys, s.orphans, p);
    if left != {} {
      var o :| o in left;
      assert forall t | t in group :: s.locals[t].pc.Dead?;
      FewerTogether(sys, left, group);
    } else {
      assert forall t | t in group :: t !in s.orphans by {
        assert forall t | t in group && t in s.orphans :: t in left;
      }
      assert forall t | t in group :: AtWork(s, t) && InsideWorker(sys, s, t);
      InsideAreTogether(sys, s, group);
    }
  }

  /** If incompatible workers do run together, one of them outlived its process. */
  lemma {:induction false} OnlyOrphansOverlap(sys: System, s: State, t: nat, u: nat)
    requires ValidSystem(sys) && Reachable(sys, s) && t < |sys| && u < |sys| && t != u
    requires WorkerRuns(s, t) && WorkerRuns(s, u) && !Compatible(sys[t].program, sys[u].program)
    ensures t in s.orphans || u in s.orphans
    ensures sys[t].process != sys[u].process
  {
    var p := sys[t].process;
    ProcessTogether(sys, s, {t, u}, p);
    PairTogether(sys, t, u);
    assert sys[u].process == p ==> OfProcess(sys, {t, u}, p) == {t, u};
    InsideTogether(sys, s, t, u);
    assert AtWork(s, t) && AtWork(s, u) ==> InsideWorker(sys, s, t) && InsideWorker(sys, s, u);
  }

  ghost predicate SomeCrashAtWork(sys: System, states: seq<State>, choices: seq<Choice>, n: nat) {
    exists i: nat, t: nat :: i < n && CrashedAtWork(sys, states, choices, i, t)
  }

  /** A run has orphaned workers exactly if a process crashed with one of its threads at work; until then all
      workers that run together are compatible. */
  lemma {:induction false} CrashesDecide(sys: System, states: seq<State>, choices: seq<Choice>, n: nat)
    requires ValidSystem(sys) && Run(sys, states, choices) && n < |states|
    ensures states[n].orphans != {} <==> SomeCrashAtWork(sys, states, choices, n)
    ensures !SomeCrashAtWork(sys, states, choices, n) ==>
              forall t: nat, u: nat | t < |sys| && u < |sys| && t != u ::
                WorkerRuns(states[n], t) && WorkerRuns(states[n], u) ==> Compatible(sys[t].program, sys[u].program)
  {
    forall t: nat
      ensures t in states[n].orphans <==> exists i: nat :: i < n && CrashedAtWork(sys, states, choices, i, t)
    {
      OrphansOfRun(sys, states, choices, n, t);
    }
    if states[n].orphans != {} {
      var t :| t in states[n].orphans;
      var i: nat :| i < n && CrashedAtWork(sys, states, choices, i, t);
      assert SomeCrashAtWork(sys, states, choices, n);
    }
    if SomeCrashAtWork(sys, states, choices, n) {
      var i: nat, t: nat :| i < n && CrashedAtWork(sys, states, choices, i, t);
      assert t in states[n].orphans;
    }
    RunOrphans(sys, states, choices, n);
    if states[n].orphans == {} {
      forall t: nat, u: nat | t < |sys| && u < |sys| && t != u && WorkerRuns(states[n], t) && WorkerRuns(states[n], u)
        ensures Compatible(sys[t].program, sys[u].program)
      {
        InsideTogether(sys, states[n], t, u);
        assert InsideWorker(sys, states[n], t) && InsideWorker(sys, states[n], u);
      }
    }
  }

  // ---- They do run together ----

  lemma {:induction false} CrashStep(sys: System, s: State, p: nat) returns (s': State)
    requires Reachable(sys, s) && |s.locals| == |sys|
    ensures Reachable(sys, s') && |s'.locals| == |sys| && s.orphans <= s'.orphans
    ensures forall t: nat | t < |sys| && sys[t].process == p && AtWork(s, t) :: t in s'.orphans
    ensures forall u | 0 <= u < |sys| ::
              s'.locals[u] == if sys[u].process == p then Local(Dead, 0) else s.locals[u]
  {
    s' := Crash(sys, s, p);
    assert Step(sys, s, CrashOf(p), s');
    Extend(sys, s, CrashOf(p), s');
  }

  ghost predicate ProcessesTogether(sys: System, ts: set<nat>) {
    && (forall t | t in ts :: t < |sys|)
    && (forall p: nat :: Together(sys, OfProcess(sys, ts, p)))
  }

  ghost predicate SharesProcess(sys: System, ts: set<nat>, v: nat)
    requires v < |sys|
  {
    exists t | t in ts :: t < |sys| && sys[t].process == sys[v].process
  }

  lemma {:induction false} SharesOne(sys: System, ts: set<nat>, t: nat, v: nat)
    requires t in ts && t < |sys| && v < |sys|
    ensures var p := sys[t].process;
            && !(sys[v].process == p && SharesProcess(sys, ts - OfProcess(sys, ts, p), v))
            && (SharesProcess(sys, ts, v) <==>
                  sys[v].process == p || SharesProcess(sys, ts - OfProcess(sys, ts, p), v))
  {
    var group := OfProcess(sys, ts, sys[t].process);
    assert forall u | u in ts :: u in group || u in ts - group;
  }

  lemma {:induction false} SharesNone(sys: System, v: nat)
    requires v < |sys|
    ensures !SharesProcess(sys, {}, v)
  {
  }

  /** Process after process gets its threads to work and dies. */
  lemma {:induction false} AllLeaveWorkers(sys: System, ts: set<nat>) returns (s: State)
    requires ValidSystem(sys) && ProcessesTogether(sys, ts)
    ensures Reachable(sys, s) && |s.locals| == |sys| && ts <= s.orphans
    ensures forall v | 0 <= v < |sys| ::
              s.locals[v] == if SharesProcess(sys, ts, v) then Local(Dead, 0) else StartLocal()
    decreases |ts|
  {
    hide Together, SharesProcess, Idle, AllFit, Reachable, ValidSystem;
    if ts == {} {
      InitIdle(sys);
      s := Init(sys);
      forall v | 0 <= v < |sys| ensures !SharesProcess(sys, ts, v) {
        SharesNone(sys, v);
      }
    } else {
      var t :| t in ts;
      var p := sys[t].process;
      var group := OfProcess(sys, ts, p);
      var rest := ts - group;
      assert t in group;
      SubsetSize(rest, ts - {t});
      forall q: nat ensures Together(sys, OfProcess(sys, rest, q)) {
        FewerTogether(sys, OfProcess(sys, ts, q), OfProcess(sys, rest, q));
      }
      var s1 := AllLeaveWorkers(sys, rest);
      ReachableFits(sys, s1);
      forall v | 0 <= v < |sys| ensures Idle(sys, s1, v) {
        StartIsIdle(sys, s1, v);
      }
      forall v | v in group ensures v < |sys| && !SharesProcess(sys, rest, v) {
        SharesOne(sys, ts, t, v);
      }
      var s2 := AllGetIn(sys, s1, group);
      s := CrashStep(sys, s2, p);
      forall v | 0 <= v < |sys|
        ensures SharesProcess(sys, ts, v) <==> sys[v].process == p || SharesProcess(sys, rest, v)
      {
        SharesOne(sys, ts, t, v);
      }
    }
  }

  ghost predicate AllRun(sys: System, s: State, ts: set<nat>) {
    Reachable(sys, s) && forall t | t in ts :: WorkerRuns(s, t)
  }

  /** Counting workers that outlive their process, the workers of a set of threads can all run in one state exactly
      when the threads of each process go together: the locks are those of the process, not of the worker. */
  lemma {:induction false} SetRunsIff(sys: System, ts: set<nat>)
    requires ValidSystem(sys) && forall t | t in ts :: t < |sys|
    ensures (exists s :: AllRun(sys, s, ts)) <==> ProcessesTogether(sys, ts)
  {
    if s :| AllRun(sys, s, ts) {
      forall p: nat ensures Together(sys, OfProcess(sys, ts, p)) {
        ProcessTogether(sys, s, ts, p);
      }
    }
    if ProcessesTogether(sys, ts) {
      var s := AllLeaveWorkers(sys, ts);
      assert AllRun(sys, s, ts);
    }
  }

  ghost predicate BothRun(sys: System, s: State, t: nat, u: nat) {
    Reachable(sys, s) && WorkerRuns(s, t) && WorkerRuns(s, u)
  }

  /** Two workers can run together exactly when their programs are compatible or their processes differ. */
  lemma {:induction false} RunTogetherIff(sys: System, t: nat, u: nat)
    requires ValidSystem(sys) && t < |sys| && u < |sys| && t != u
    ensures (exists s :: BothRun(sys, s, t, u))
       <==> Compatible(sys[t].program, sys[u].program) || sys[t].process != sys[u].process
  {
    var ts := {t, u};
    SetRunsIff(sys, ts);
    PairTogether(sys, t, u);
    OneTogether(sys, t);
    OneTogether(sys, u);
    if s :| BothRun(sys, s, t, u) {
      assert AllRun(sys, s, ts);
    }
    if s :| AllRun(sys, s, ts) {
      assert BothRun(sys, s, t, u);
    }
    if sys[t].process == sys[u].process {
      assert OfProcess(sys, ts, sys[t].process) == ts;
      if Compatible(sys[t].program, sys[u].program) {
        forall p: nat ensures Together(sys, OfProcess(sys, ts, p)) {
          FewerTogether(sys, ts, OfProcess(sys, ts, p));
        }
      }
    } else {
      forall p: nat ensures Together(sys, OfProcess(sys, ts, p)) {
        var one := if p == sys[u].process then {u} else {t};
        assert OfProcess(sys, ts, p) <= one;
        FewerTogether(sys, one, OfProcess(sys, ts, p));
      }
    }
  }

  // ---- The bound on writers, with orphans ----

  /** A worker of a thread under a limiter of this backend of capacity 1 to m, or the thread inside that limiter. */
  ghost predicate Writing(sys: System, s: State, t: nat, backend: string, m: nat)
    requires AllFit(sys, s)
  {
    || InsideLimiter(sys, s, t, backend, m)
    || (t in s.orphans && t < |sys| && UnderLimiter(sys[t].program, backend, m))
  }

  /** The bound per process: m, crashes at work or not. */
  lemma {:induction false} ProcessWriteBound(sys: System, s: State, backend: string, m: nat, p: nat)
    requires ValidSystem(sys) && Reachable(sys, s)
    ensures AllFit(sys, s)
    ensures |set t: nat | t < |sys| && sys[t].process == p && Writing(sys, s, t, backend, m)| <= m
  {
    WriteBound(sys, s, backend, m);
    ReachableOrphans(sys, s);
    var writers := set t: nat | t < |sys| && sys[t].process == p && Writing(sys, s, t, backend, m);
    var left := OfProcess(sys, s.orphans, p);
    if left != {} {
      var o :| o in left;
      assert forall t | t in writers :: s.locals[t].pc.Dead?;
      SubsetSize(writers, Limited(sys, left, backend, m));
    } else {
      assert forall t | t in writers && t in s.orphans :: t in left;
      SubsetSize(writers, set t: nat | t < |sys| && InsideLimiter(sys, s, t, backend, m));
    }
  }

  lemma {:induction false} ReachableFits(sys: System, s: State)
    requires ValidSystem(sys) && Reachable(sys, s)
    ensures AllFit(sys, s)
  {
    ReachableInv(sys, s);
  }

  lemma {:induction false} OneTimesMore(n: nat, m: nat)
    ensures n * m + m == (n + 1) * m
  {
  }

  /** The bound over all processes, counting live threads and orphaned workers: m for each process. */
  lemma {:induction false} WriteBoundOverProcesses(sys: System, s: State, backend: string, m: nat, ps: set<nat>)
    requires ValidSystem(sys) && Reachable(sys, s)
    ensures AllFit(sys, s)
    ensures |set t: nat | t < |sys| && sys[t].process in ps && Writing(sys, s, t, backend, m)| <= |ps| * m
  {
    hide Writing, Inv, AllFit, ValidSystem, Reachable;
    ReachableFits(sys, s);
    var writers := set t: nat | t < |sys| && sys[t].process in ps && Writing(sys, s, t, backend, m);
    if ps == {} {
      assert writers == {};
    } else {
      var p :| p in ps;
      WriteBoundOverProcesses(sys, s, backend, m, ps - {p});
      ProcessWriteBound(sys, s, backend, m, p);
      var mine := set t: nat | t < |sys| && sys[t].process == p && Writing(sys, s, t, backend, m);
      var others := set t: nat | t < |sys| && sys[t].process in ps - {p} && Writing(sys, s, t, backend, m);
      assert writers == mine + others;
      OneTimesMore(|ps - {p}|, m);
    }
  }

  /** The bound over all processes: m, and one more for each worker that outlived its process. */
  lemma {:induction false} WriteBoundWithOrphans(sys: System, s: State, backend: string, m: nat)
    requires ValidSystem(sys) && Reachable(sys, s)
    ensures AllFit(sys, s)
    ensures |set t: nat | t < |sys| && Writing(sys, s, t, backend, m)| <= m + |Limited(sys, s.orphans, backend, m)|
  {
    WriteBound(sys, s, backend, m);
    var inside := set t: nat | t < |sys| && InsideLimiter(sys, s, t, backend, m);
    var left := Limited(sys, s.orphans, backend, m);
    assert (set t: nat | t < |sys| && Writing(sys, s, t, backend, m)) == inside + left;
  }

  ghost function RunningWriters(sys: System, s: State, backend: string, m: nat): set<nat> {
    set t: nat | t < |sys| && WorkerRuns(s, t) && UnderLimiter(sys[t].program, backend, m)
  }

  ghost predicate Exceeds(sys: System, s: State, backend: string, m: nat, n: nat) {
    Reachable(sys, s) && |RunningWriters(sys, s, backend, m)| > n
  }

  /** Writers of the backend, more than n, and the threads of each process going together. */
  ghost predicate CanExceed(sys: System, ts: set<nat>, backend: string, m: nat, n: nat) {
    && ProcessesTogether(sys, ts) && |ts| > n
    && forall t | t in ts :: UnderLimiter(sys[t].program, backend, m)
  }

  /** Exactly when more than n workers can write to a backend under limiters of capacity 1 to m. With one process
      that is never so for n = m; with two it can be so up to 2m. */
  lemma {:induction false} ExceedsIff(sys: System, backend: string, m: nat, n: nat)
    requires ValidSystem(sys)
    ensures (exists s :: Exceeds(sys, s, backend, m, n)) <==> exists ts :: CanExceed(sys, ts, backend, m, n)
  {
    if s :| Exceeds(sys, s, backend, m, n) {
      var ts := RunningWriters(sys, s, backend, m);
      assert AllRun(sys, s, ts);
      SetRunsIff(sys, ts);
      assert CanExceed(sys, ts, backend, m, n);
    }
    if ts :| CanExceed(sys, ts, backend, m, n) {
      SetRunsIff(sys, ts);
      var s :| AllRun(sys, s, ts);
      SubsetSize(ts, RunningWriters(sys, s, backend, m));
      assert Exceeds(sys, s, backend, m, n);
    }
  }

  /** A set that goes together in one process, and another in a second one: all of them run, whatever they share. */
  lemma {:induction false} TwoProcesses(sys: System, first: set<nat>, second: set<nat>, p: nat, q: nat)
      returns (s: State)
    requires ValidSystem(sys) && Together(sys, first) && Together(sys, second) && p != q
    requires forall t | t in first :: sys[t].process == p
    requires forall t | t in second :: sys[t].process == q
    ensures AllRun(sys, s, first + second)
  {
    var ts := first + second;
    forall o: nat ensures Together(sys, OfProcess(sys, ts, o)) {
      var one := if o == p then first else second;
      assert OfProcess(sys, ts, o) <= one;
      FewerTogether(sys, one, OfProcess(sys, ts, o));
    }
    SetRunsIff(sys, ts);
    s :| AllRun(sys, s, ts);
  }
}
