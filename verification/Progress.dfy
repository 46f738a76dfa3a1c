/** No run of the lock protocol gets stuck, and none runs in circles: if every unfinished thread keeps
    being scheduled, all threads finish. Timeouts play no part in the argument. */
module Progress {
  import opened Text
  import opened Keys
  import opened Protocol
  import opened Safety

  predicate Finished(l: Local) {
    l.pc.Done? || l.pc.Dead?
  }

  // ---- The measure ----

  /** How far a thread is from its end. Looking for a free slot does not change it; every other
      step that is not a failed attempt lowers it. */
  function Rank(program: Program, l: Local): nat
    requires Fits(program.plan, l)
  {
    var n := |program.plan|;
    match l.pc
    case Enter(k) => 2 * (n - k) + 2 * n + 6
    case Locked(k) => 2 * (n - k) + 2 * n + (if program.plan[k].AnySlot? then 6 else 5)
    case Retry(k) => 2 * (n - k) + 2 * n + 6
    case Inside(phase) => 2 * n + (if phase == Stopping then 5 else if phase == Working then 4 else 3)
    case Leave(k) => 2 * k + 2
    case Drop(k) => 2 * k + 1
    case Done => 0
    case Dead => 0
  }

  /** Waiting for a write slot, at section `k`. */
  predicate AtSlot(program: Program, l: Local) {
    (l.pc.Enter? || l.pc.Locked? || l.pc.Retry?) && l.pc.k < |program.plan| && program.plan[l.pc.k].AnySlot?
  }

  /** The thread has not moved, except perhaps from slot to slot. */
  predicate Same(program: Program, l: Local, l': Local) {
    || l' == l
    || (Finished(l) && Finished(l'))
    || (AtSlot(program, l) && AtSlot(program, l') && l.pc.k == l'.pc.k)
  }

  lemma {:induction false} MoveRank(program: Program, l: Local, a: Action)
    requires ValidProgram(program) && Fits(program.plan, l) && Move(program, l, a).Some?
    ensures var l' := Move(program, l, a).value;
            && Fits(program.plan, l')
            && Rank(program, l') <= Rank(program, l)
            && (Rank(program, l') == Rank(program, l) ==> Same(program, l, l'))
  {
    hide Changes, Held;
    MoveKeeps(program, l, a);
  }

  lemma {:induction false} RankZero(program: Program, l: Local)
    requires Fits(program.plan, l)
    ensures Rank(program, l) == 0 <==> Finished(l)
  {
  }

  function RankOf(sys: System, s: State, t: nat): nat
    requires |s.locals| == |sys| && t < |sys| && Fits(sys[t].program.plan, s.locals[t])
  {
    Rank(sys[t].program, s.locals[t])
  }

  lemma {:induction false} StepRank(sys: System, s: State, choice: Choice, s': State, t: nat)
    requires ValidSystem(sys) && Inv(sys, s) && Step(sys, s, choice, s') && t < |sys|
    ensures AllFit(sys, s') && RankOf(sys, s', t) <= RankOf(sys, s, t)
    ensures RankOf(sys, s', t) == RankOf(sys, s, t) ==> Same(sys[t].program, s.locals[t], s'.locals[t])
    ensures RankOf(sys, s, t) == 0 <==> Finished(s.locals[t])
  {
    hide FlocksAgree, MutexesAgree, Move, Rank;
    StepInv(sys, s, choice, s');
    RankZero(sys[t].program, s.locals[t]);
    RankZero(sys[t].program, s'.locals[t]);
    if choice.Act? && choice.thread == t {
      MoveRank(sys[t].program, s.locals[t], choice.action);
    }
  }

  function Sum(sys: System, s: State, n: nat): nat
    requires n <= |sys| == |s.locals|
    requires forall t | 0 <= t < |sys| :: Fits(sys[t].program.plan, s.locals[t])
  {
    if n == 0 then 0 else Sum(sys, s, n - 1) + RankOf(sys, s, n - 1)
  }

  ghost function Measure(sys: System, s: State): nat
    requires AllFit(sys, s)
  {
    Sum(sys, s, |sys|)
  }

  lemma {:induction false} SumMonotone(sys: System, s: State, s': State, n: nat)
    requires AllFit(sys, s) && AllFit(sys, s') && n <= |sys|
    requires forall t | 0 <= t < |sys| :: RankOf(sys, s', t) <= RankOf(sys, s, t)
    ensures Sum(sys, s', n) <= Sum(sys, s, n)
    ensures Sum(sys, s', n) == Sum(sys, s, n) ==> forall t | 0 <= t < n :: RankOf(sys, s', t) == RankOf(sys, s, t)
  {
    if n > 0 {
      SumMonotone(sys, s, s', n - 1);
    }
  }

  lemma {:induction false} SumZero(sys: System, s: State, n: nat)
    requires AllFit(sys, s) && n <= |sys| && Sum(sys, s, n) == 0
    ensures forall t | 0 <= t < n :: Finished(s.locals[t])
  {
    if n > 0 {
      SumZero(sys, s, n - 1);
    }
  }

  // ---- Threads that are sure to advance ----

  /** Whatever this thread does next brings it closer to its end. */
  predicate Ready(sys: System, s: State, t: nat)
    requires |s.locals| == |sys| && t < |sys| && Fits(sys[t].program.plan, s.locals[t])
  {
    var plan, l := sys[t].program.plan, s.locals[t];
    match l.pc
    case Enter(k) => plan[k].Exclusive? && (sys[t].process, Target(plan[k], l.slot)) !in s.mutexes
    case Locked(k) => Target(plan[k], l.slot) !in s.flocks
    case Inside(_) => true
    case Leave(_) => true
    case Drop(_) => true
    case _ => false
  }

  lemma {:induction false} MoveAdvances(program: Program, l: Local, a: Action)
    requires ValidProgram(program) && Fits(program.plan, l) && Move(program, l, a).Some?
    requires l.pc.Enter? ==> program.plan[l.pc.k].Exclusive? && !(a.TryMutex? && !a.got)
    requires l.pc.Locked? ==> !(a.TryFlock? && a.result == Busy)
    requires !l.pc.Retry?
    ensures var l' := Move(program, l, a).value;
            Fits(program.plan, l') && Rank(program, l') < Rank(program, l)
  {
    hide Changes, Held;
    MoveKeeps(program, l, a);
  }

  lemma {:induction false} ReadyAdvances(sys: System, s: State, t: nat, a: Action, s': State)
    requires ValidSystem(sys) && AllFit(sys, s) && Step(sys, s, Act(t, a), s') && Ready(sys, s, t)
    ensures Fits(sys[t].program.plan, s'.locals[t])
    ensures Rank(sys[t].program, s'.locals[t]) < RankOf(sys, s, t)
  {
    var program, l := sys[t].program, s.locals[t];
    assert ValidProgram(program) && Fits(program.plan, l);
    assert Allowed(sys, s, t, a) && s'.locals[t] == Move(program, l, a).value;
    if l.pc.Enter? && a.TryMutex? {
      assert a.res == Target(program.plan[l.pc.k], l.slot);
    }
    if l.pc.Locked? && a.TryFlock? {
      assert a.res == Target(program.plan[l.pc.k], l.slot);
    }
    MoveAdvances(program, l, a);
  }

  /** A thread that is not finished can always do something other than give up. */
  lemma {:induction false} NeverStuck(sys: System, s: State, t: nat)
    requires ValidSystem(sys) && Inv(sys, s) && t < |sys| && !Finished(s.locals[t])
    ensures exists a, s' :: a != GiveUp && a != NoFile && Step(sys, s, Act(t, a), s')
  {
    var program, l := sys[t].program, s.locals[t];
    var plan := program.plan;
    assert ValidProgram(program);
    var a := match l.pc
      case Enter(k) =>
        if plan[k].AnySlot? && l.slot >= plan[k].max then Rest
        else var r := Target(plan[k], l.slot); TryMutex(r, (sys[t].process, r) !in s.mutexes)
      case Locked(k) => var r := Target(plan[k], l.slot); TryFlock(r, if r in s.flocks then Busy else Got)
      case Retry(k) => Unmutex(Target(plan[k], l.slot))
      case Inside(phase) =>
        if phase == Working then Work(true)
        else if phase == Stopping then Stop(program.container.value, true) else Start(program.container.value, true)
      case Leave(k) => Unflock(Target(plan[k], l.slot))
      case Drop(k) => Unmutex(Target(plan[k], l.slot))
      case _ => Rest;
    assert Move(program, l, a).Some?;
    assert Step(sys, s, Act(t, a), Effect(sys, s, t, a, Move(program, l, a).value));
  }

  // ---- Some thread is ready, or a free slot is waited for ----

  ghost predicate Waits(sys: System, s: State, t: nat)
    requires AllFit(sys, s)
  {
    t < |sys| && (s.locals[t].pc.Enter? || s.locals[t].pc.Locked? || s.locals[t].pc.Retry?)
  }

  ghost function WaitLevel(sys: System, s: State, t: nat): nat
    requires AllFit(sys, s) && Waits(sys, s, t)
  {
    Level(sys[t].program.plan[s.locals[t].pc.k])
  }

  /** The thread waits for a slot, and no slot it may take is locked. */
  ghost predicate SlotsFree(sys: System, s: State, t: nat)
    requires AllFit(sys, s)
  {
    && t < |sys| && AtSlot(sys[t].program, s.locals[t])
    && var section := sys[t].program.plan[s.locals[t].pc.k];
       forall i | 0 <= i < section.max :: Slot(section.backend, i) !in s.flocks
  }

  lemma {:induction false} DeepestWaiter(sys: System, s: State, n: nat) returns (best: nat)
    requires AllFit(sys, s) && n <= |sys| && exists t | 0 <= t < n :: Waits(sys, s, t)
    ensures best < n && Waits(sys, s, best)
    ensures forall t | 0 <= t < n && Waits(sys, s, t) :: WaitLevel(sys, s, t) <= WaitLevel(sys, s, best)
  {
    if exists t | 0 <= t < n - 1 :: Waits(sys, s, t) {
      best := DeepestWaiter(sys, s, n - 1);
      if Waits(sys, s, n - 1) && WaitLevel(sys, s, n - 1) > WaitLevel(sys, s, best) {
        best := n - 1;
      }
    } else {
      best := n - 1;
    }
  }

  /** Whoever holds what `t` waits for is past that section: ready, or waiting at a higher level. */
  lemma {:induction false} HolderIsDeeper(sys: System, s: State, t: nat, r: Res)
    requires ValidSystem(sys) && Inv(sys, s) && Waits(sys, s, t) && r in s.flocks
    requires exists slot :: r == Target(sys[t].program.plan[s.locals[t].pc.k], slot)
    ensures var u := s.flocks[r];
            u < |sys| && (Ready(sys, s, u) || (Waits(sys, s, u) && WaitLevel(sys, s, u) > WaitLevel(sys, s, t)))
  {
    var u := s.flocks[r];
    assert FlockJustified(sys, s, r);
    var program, l := sys[u].program, s.locals[u];
    assert ValidProgram(program);
    HeldLevels(program.plan, Depth(l.pc, |program.plan|), l.slot);
    var j :| 0 <= j < Depth(l.pc, |program.plan|) && r == Target(program.plan[j], l.slot);
    assert Level(program.plan[j]) == WaitLevel(sys, s, t);
  }

  /** A mutex without its file lock is held by a thread about to try, or about to release. */
  lemma {:induction false} MutexHolder(sys: System, s: State, key: (nat, Res))
    requires Inv(sys, s) && key in s.mutexes && key.1 !in s.flocks
    ensures var u := s.mutexes[key];
            && u < |sys| && sys[u].process == key.0
            && (s.locals[u].pc.Locked? || s.locals[u].pc.Retry? || s.locals[u].pc.Drop?)
            && s.locals[u].pc.k < |sys[u].program.plan|
            && Target(sys[u].program.plan[s.locals[u].pc.k], s.locals[u].slot) == key.1
  {
    assert MutexJustified(sys, s, key);
    var u := s.mutexes[key];
    assert key.1 in FlocksOf(sys, s, u) ==> FlockRecorded(s, u, key.1);
  }

  /** While some thread is unfinished, some thread is ready, or waits for slots that are all free. */
  lemma {:induction false} SomeoneAdvances(sys: System, s: State) returns (t: nat)
    requires ValidSystem(sys) && Inv(sys, s) && exists u | 0 <= u < |sys| :: !Finished(s.locals[u])
    ensures t < |sys| && (Ready(sys, s, t) || SlotsFree(sys, s, t))
  {
    if u :| 0 <= u < |sys| && Ready(sys, s, u) {
      t := u;
    } else {
      assert forall u | 0 <= u < |sys| && !Finished(s.locals[u]) :: Waits(sys, s, u) || Ready(sys, s, u);
      t := DeepestWaiter(sys, s, |sys|);
      var section, slot := sys[t].program.plan[s.locals[t].pc.k], s.locals[t].slot;
      forall i: nat ensures Target(section, i) !in s.flocks {
        if Target(section, i) in s.flocks {
          HolderIsDeeper(sys, s, t, Target(section, i));
        }
      }
      if section.AnySlot? {
        assert forall i: nat :: Slot(section.backend, i) == Target(section, i);
      } else {
        var key := (sys[t].process, Target(section, slot));
        if !Ready(sys, s, t) {
          MutexHolder(sys, s, key);
          t := s.mutexes[key];
        }
      }
    }
  }

  // ---- Stretches of a run in which no rank changes ----

  ghost predicate SameRanks(sys: System, s: State, s': State)
    requires AllFit(sys, s) && AllFit(sys, s')
  {
    forall t | 0 <= t < |sys| :: RankOf(sys, s', t) == RankOf(sys, s, t)
  }

  /** Between states `a` and `b` of the run, no thread gets closer to its end. */
  ghost predicate Quiet(sys: System, states: seq<State>, choices: seq<Choice>, a: nat, b: nat) {
    && ValidSystem(sys) && Run(sys, states, choices) && a <= b < |states|
    && (forall i | 0 <= i < |states| :: Inv(sys, states[i]))
    && (forall i | a <= i <= b :: SameRanks(sys, states[a], states[i]))
  }

  /** The mutexes of named locks that are taken, those of slots left out. */
  ghost function LockMutexes(s: State): set<(nat, Res)> {
    set key | key in s.mutexes && key.1.Lock?
  }

  ghost predicate SameLocks(s: State, s': State) {
    s'.flocks == s.flocks && LockMutexes(s') == LockMutexes(s)
  }

  ghost predicate SamePlaces(sys: System, s: State, s': State)
    requires AllFit(sys, s) && AllFit(sys, s')
  {
    forall t | 0 <= t < |sys| :: Same(sys[t].program, s.locals[t], s'.locals[t])
  }

  lemma {:induction false} SamePlacesTransitive(sys: System, s: State, s': State, s'': State)
    requires AllFit(sys, s) && AllFit(sys, s') && AllFit(sys, s'')
    requires SamePlaces(sys, s, s') && SamePlaces(sys, s', s'')
    ensures SamePlaces(sys, s, s'')
  {
    forall t | 0 <= t < |sys| ensures Same(sys[t].program, s.locals[t], s''.locals[t]) {
      assert Same(sys[t].program, s.locals[t], s'.locals[t]) && Same(sys[t].program, s'.locals[t], s''.locals[t]);
    }
  }

  lemma {:induction false} SamePlacesReflexive(sys: System, s: State)
    requires AllFit(sys, s)
    ensures SamePlaces(sys, s, s)
  {
  }

  /** A step that does not lower the rank touches no file lock, and no mutex but those of slots. */
  lemma {:induction false} IdleMove(program: Program, l: Local, a: Action)
    requires ValidProgram(program) && Fits(program.plan, l) && Move(program, l, a).Some?
    requires var l' := Move(program, l, a).value;
             Fits(program.plan, l') && Rank(program, l') == Rank(program, l)
    ensures !(a.TryFlock? && a.result == Got) && !a.Unflock?
    ensures a.TryMutex? && a.got ==> a.res.Slot?
    ensures a.Unmutex? ==> a.res.Slot?
  {
  }

  lemma {:induction false} QuietAct(sys: System, s: State, t: nat, action: Action, s': State)
    requires ValidSystem(sys) && AllFit(sys, s) && AllFit(sys, s') && Step(sys, s, Act(t, action), s')
    requires SameRanks(sys, s, s')
    ensures SameLocks(s, s')
  {
    assert RankOf(sys, s', t) == RankOf(sys, s, t);
    IdleMove(sys[t].program, s.locals[t], action);
  }

  lemma {:induction false} FinishedHoldsNothing(sys: System, s: State, t: nat)
    requires AllFit(sys, s) && t < |sys| && Finished(s.locals[t])
    ensures FlocksOf(sys, s, t) == {} && MutexesOf(sys, s, t) == {}
  {
  }

  lemma {:induction false} QuietCrash(sys: System, s: State, p: nat, s': State)
    requires ValidSystem(sys) && Inv(sys, s) && AllFit(sys, s') && Step(sys, s, CrashOf(p), s')
    requires SameRanks(sys, s, s')
    ensures SameLocks(s, s')
  {
    hide Rank;
    forall t | 0 <= t < |sys| && sys[t].process == p ensures FlocksOf(sys, s, t) == {} && MutexesOf(sys, s, t) == {} {
      assert RankOf(sys, s', t) == RankOf(sys, s, t);
      RankZero(sys[t].program, s.locals[t]);
      RankZero(sys[t].program, s'.locals[t]);
      FinishedHoldsNothing(sys, s, t);
    }
    forall r | r in s.flocks ensures r in s'.flocks && s'.flocks[r] == s.flocks[r] {
      assert FlockJustified(sys, s, r);
    }
    forall key | key in s.mutexes ensures key in s'.mutexes {
      assert MutexJustified(sys, s, key);
    }
  }

  lemma {:induction false} QuietStep(sys: System, states: seq<State>, choices: seq<Choice>, a: nat, b: nat, i: nat)
    requires Quiet(sys, states, choices, a, b) && a <= i < b
    ensures SameLocks(states[i], states[i + 1]) && SamePlaces(sys, states[i], states[i + 1])
  {
    hide Rank, SameLocks, FlocksAgree, MutexesAgree;
    var s, s' := states[i], states[i + 1];
    assert Step(sys, s, choices[i], s');
    assert SameRanks(sys, states[a], s) && SameRanks(sys, states[a], s');
    assert Inv(sys, s) && Inv(sys, s');
    forall t | 0 <= t < |sys| ensures Same(sys[t].program, s.locals[t], s'.locals[t]) {
      StepRank(sys, s, choices[i], s', t);
      assert RankOf(sys, s', t) == RankOf(sys, s, t);
    }
    match choices[i]
    case Act(t, action) => QuietAct(sys, s, t, action, s');
    case CrashOf(p) => QuietCrash(sys, s, p, s');
  }

  lemma {:induction false} QuietFits(sys: System, states: seq<State>, choices: seq<Choice>, a: nat, b: nat, i: nat)
    requires Quiet(sys, states, choices, a, b) && a <= i <= b
    ensures b < |states| && AllFit(sys, states[i])
  {
    assert Inv(sys, states[i]);
  }

  lemma {:induction false} QuietLocks(sys: System, states: seq<State>, choices: seq<Choice>, a: nat, b: nat,
      i: nat, j: nat)
    requires Quiet(sys, states, choices, a, b) && a <= i <= j <= b
    ensures SameLocks(states[i], states[j]) && SamePlaces(sys, states[i], states[j])
    decreases j
  {
    hide Quiet, AllFit, SamePlaces, LockMutexes;
    QuietFits(sys, states, choices, a, b, i);
    QuietFits(sys, states, choices, a, b, j);
    SamePlacesReflexive(sys, states[i]);
    if i < j {
      QuietFits(sys, states, choices, a, b, j - 1);
      QuietLocks(sys, states, choices, a, b, i, j - 1);
      QuietStep(sys, states, choices, a, b, j - 1);
      SamePlacesTransitive(sys, states[i], states[j - 1], states[j]);
    }
  }

  predicate ActsAt(choices: seq<Choice>, j: nat, t: nat) {
    j < |choices| && choices[j].Act? && choices[j].thread == t
  }

  /** In a quiet stretch, a thread that acts at `j` acts, no later, in the very place it is in at `i`. */
  lemma {:induction false} NextAct(sys: System, states: seq<State>, choices: seq<Choice>, a: nat, b: nat,
                                   t: nat, i: nat, j: nat) returns (next: nat)
    requires Quiet(sys, states, choices, a, b) && a <= i <= j < b && t < |sys|
    requires !Finished(states[i].locals[t]) && ActsAt(choices, j, t)
    ensures i <= next <= j && ActsAt(choices, next, t) && states[next].locals[t] == states[i].locals[t]
    decreases j - i
  {
    if ActsAt(choices, i, t) {
      next := i;
    } else {
      assert Step(sys, states[i], choices[i], states[i + 1]);
      StepRank(sys, states[i], choices[i], states[i + 1], t);
      assert SameRanks(sys, states[a], states[i]) && SameRanks(sys, states[a], states[i + 1]);
      assert RankOf(sys, states[i + 1], t) == RankOf(sys, states[i], t);
      assert states[i + 1].locals[t] == states[i].locals[t];
      next := NextAct(sys, states, choices, a, b, t, i + 1, j);
    }
  }

  // ---- Rounds ----

  ghost predicate Acts(choices: seq<Choice>, c: nat, d: nat, t: nat) {
    exists j :: c <= j < d && ActsAt(choices, j, t)
  }

  /** Every thread that is unfinished at the end of the stretch took at least one step in it. */
  ghost predicate Round(states: seq<State>, choices: seq<Choice>, c: nat, d: nat) {
    && c <= d < |states|
    && forall t | 0 <= t < |states[d].locals| && !Finished(states[d].locals[t]) :: Acts(choices, c, d, t)
  }

  lemma {:induction false} ReadyStays(sys: System, s: State, s': State, t: nat)
    requires AllFit(sys, s) && AllFit(sys, s') && t < |sys|
    requires SameLocks(s, s') && s'.locals[t] == s.locals[t]
    ensures Ready(sys, s', t) <==> Ready(sys, s, t)
  {
    var plan, l := sys[t].program.plan, s.locals[t];
    if l.pc.Enter? && plan[l.pc.k].Exclusive? {
      var key := (sys[t].process, Target(plan[l.pc.k], l.slot));
      assert key in LockMutexes(s) <==> key in s.mutexes;
      assert key in LockMutexes(s') <==> key in s'.mutexes;
    }
  }

  /** In a quiet stretch a thread is never ready before a round starts: it would have its turn. */
  lemma {:induction false} NoneReady(sys: System, states: seq<State>, choices: seq<Choice>, a: nat, b: nat, i: nat,
      c: nat, d: nat, t: nat)
    requires Quiet(sys, states, choices, a, b) && a <= i <= c && d <= b && t < |sys|
    requires Round(states, choices, c, d)
    ensures !Ready(sys, states[i], t)
  {
    assert Ready(sys, states[i], t) ==> !Finished(states[i].locals[t]);
    hide LockMutexes, Ready, FlocksAgree, MutexesAgree, Step, Rank, Move;
    if Ready(sys, states[i], t) {
      QuietLocks(sys, states, choices, a, b, i, d);
      assert Same(sys[t].program, states[i].locals[t], states[d].locals[t]);
      var j :| c <= j < d && ActsAt(choices, j, t);
      var next := NextAct(sys, states, choices, a, b, t, i, j);
      QuietLocks(sys, states, choices, a, b, i, next);
      assert SameRanks(sys, states[a], states[next]) && SameRanks(sys, states[a], states[next + 1]);
      ReadyStays(sys, states[i], states[next], t);
      ReadyAdvances(sys, states[next], t, choices[next].action, states[next + 1]);
    }
  }

  /** Backing off from a slot below `m` of this backend. */
  ghost predicate BacksOff(sys: System, s: State, u: nat, backend: string, m: nat)
    requires AllFit(sys, s) && u < |sys|
  {
    && s.locals[u].pc.Retry?
    && exists j | 0 <= j < m :: Target(sys[u].program.plan[s.locals[u].pc.k], s.locals[u].slot) == Slot(backend, j)
  }

  ghost predicate AllFree(s: State, backend: string, m: nat) {
    forall j | 0 <= j < m :: Slot(backend, j) !in s.flocks
  }

  /** Nobody starts to back off from a free slot, and whoever backs off is done with it in one step. */
  lemma {:induction false} BackOffStep(sys: System, s: State, choice: Choice, s': State, u: nat, backend: string,
      m: nat)
    requires ValidSystem(sys) && Inv(sys, s) && Step(sys, s, choice, s') && AllFit(sys, s') && u < |sys|
    requires AllFree(s, backend, m)
    requires BacksOff(sys, s, u, backend, m) ==> choice.Act? && choice.thread == u
    ensures !BacksOff(sys, s', u, backend, m)
  {
    if choice.Act? && choice.thread == u {
      var l, a := s.locals[u], choice.action;
      var plan := sys[u].program.plan;
      assert ValidProgram(sys[u].program) && Allowed(sys, s, u, a);
      if s'.locals[u].pc.Retry? {
        assert l.pc.Locked? && a == TryFlock(Target(plan[l.pc.k], l.slot), Busy);
      }
    }
  }

  lemma {:induction false} BackOffNext(sys: System, states: seq<State>, choices: seq<Choice>, i: nat, u: nat,
      backend: string, m: nat)
    requires ValidSystem(sys) && Run(sys, states, choices) && i < |choices| && u < |sys|
    requires Inv(sys, states[i]) && Inv(sys, states[i + 1]) && AllFree(states[i], backend, m)
    requires BacksOff(sys, states[i], u, backend, m) ==> ActsAt(choices, i, u)
    ensures !BacksOff(sys, states[i + 1], u, backend, m)
  {
    assert Step(sys, states[i], choices[i], states[i + 1]);
    BackOffStep(sys, states[i], choices[i], states[i + 1], u, backend, m);
  }

  lemma {:induction false} FreeStays(sys: System, states: seq<State>, choices: seq<Choice>, a: nat, b: nat, i: nat,
      j: nat, backend: string, m: nat)
    requires Quiet(sys, states, choices, a, b) && a <= i <= j <= b && AllFree(states[i], backend, m)
    ensures AllFree(states[j], backend, m)
  {
    QuietLocks(sys, states, choices, a, b, i, j);
  }

  lemma {:induction false} NoBackOff(sys: System, states: seq<State>, choices: seq<Choice>, i: nat, j: nat,
                                     u: nat, backend: string, m: nat)
    requires ValidSystem(sys) && Run(sys, states, choices) && i <= j < |states| && u < |sys|
    requires forall k | i <= k <= j :: Inv(sys, states[k])
    requires forall k | i <= k <= j :: AllFree(states[k], backend, m)
    requires Inv(sys, states[i]) && Inv(sys, states[j])
    requires !BacksOff(sys, states[i], u, backend, m)
    ensures !BacksOff(sys, states[j], u, backend, m)
    decreases j
  {
    hide FlocksAgree, MutexesAgree, AllFit, BacksOff, AllFree, Step;
    if i < j {
      NoBackOff(sys, states, choices, i, j - 1, u, backend, m);
      BackOffNext(sys, states, choices, j - 1, u, backend, m);
    }
  }

  /** After one round of a quiet stretch nobody backs off from free slots any more. */
  lemma {:induction false} BackOffGone(sys: System, states: seq<State>, choices: seq<Choice>, a: nat, b: nat,
      c: nat, i: nat, u: nat, backend: string, m: nat)
    requires Quiet(sys, states, choices, a, b) && a <= c <= i <= b && u < |sys|
    requires Round(states, choices, a, c) && AllFree(states[a], backend, m)
    ensures !BacksOff(sys, states[i], u, backend, m)
  {
    forall k | a <= k <= b ensures AllFree(states[k], backend, m) {
      FreeStays(sys, states, choices, a, b, a, k, backend, m);
    }
    if BacksOff(sys, states[a], u, backend, m) {
      QuietLocks(sys, states, choices, a, b, a, c);
      assert Same(sys[u].program, states[a].locals[u], states[c].locals[u]);
      var j :| a <= j < c && ActsAt(choices, j, u);
      var next := NextAct(sys, states, choices, a, b, u, a, j);
      BackOffNext(sys, states, choices, next, u, backend, m);
      NoBackOff(sys, states, choices, next + 1, i, u, backend, m);
    } else {
      NoBackOff(sys, states, choices, a, i, u, backend, m);
    }
  }

  /** Four rounds in which no rank changes. */
  ghost predicate Stalled(sys: System, states: seq<State>, choices: seq<Choice>, c: seq<nat>) {
    && |c| == 5 && Quiet(sys, states, choices, c[0], c[4])
    && Round(states, choices, c[0], c[1]) && Round(states, choices, c[1], c[2])
    && Round(states, choices, c[2], c[3]) && Round(states, choices, c[3], c[4])
  }

  /** In the second and third of them, the mutexes of free slots are free. */
  lemma {:induction false} SlotMutexFree(sys: System, states: seq<State>, choices: seq<Choice>, c: seq<nat>, i: nat,
                      p: nat, backend: string, m: nat, j: nat)
    requires Stalled(sys, states, choices, c) && c[1] <= i <= c[3] && j < m
    requires AllFree(states[c[0]], backend, m)
    ensures (p, Slot(backend, j)) !in states[i].mutexes
  {
    var key := (p, Slot(backend, j));
    if key in states[i].mutexes {
      QuietLocks(sys, states, choices, c[0], c[4], c[0], i);
      MutexHolder(sys, states[i], key);
      var u := states[i].mutexes[key];
      BackOffGone(sys, states, choices, c[0], c[4], c[1], i, u, backend, m);
      NoneReady(sys, states, choices, c[0], c[4], i, c[3], c[4], u);
    }
  }

  /** What a thread looking for a slot does when its rank does not change. */
  lemma {:induction false} ScanMove(program: Program, l: Local, a: Action)
    requires ValidProgram(program) && Fits(program.plan, l) && AtSlot(program, l) && l.pc.Enter?
    requires Move(program, l, a).Some?
    requires var l' := Move(program, l, a).value;
             Fits(program.plan, l') && Rank(program, l') == Rank(program, l)
    ensures var section := program.plan[l.pc.k];
            && (l.slot < section.max ==>
                  a.TryMutex? && a.res == Slot(section.backend, l.slot)
                  && (a.got ==> Move(program, l, a) == Some(Local(Locked(l.pc.k), l.slot))))
            && (l.slot >= section.max ==> l.slot > 0 && Move(program, l, a) == Some(Local(l.pc, 0)))
  {
  }

  lemma {:induction false} SlotPlace(sys: System, s: State, t: nat)
    requires ValidSystem(sys) && Inv(sys, s) && SlotsFree(sys, s, t) && !Ready(sys, s, t)
    requires var section := sys[t].program.plan[s.locals[t].pc.k];
             !BacksOff(sys, s, t, section.backend, section.max)
    ensures s.locals[t].pc.Enter?
  {
    var plan, l := sys[t].program.plan, s.locals[t];
    var section := plan[l.pc.k];
    assert Fits(plan, l);
    assert l.slot < section.max ==> Slot(section.backend, l.slot) !in s.flocks;
  }

  lemma {:induction false} SlotsStayFree(sys: System, states: seq<State>, choices: seq<Choice>, a: nat, b: nat,
      i: nat, t: nat)
    requires Quiet(sys, states, choices, a, b) && a <= i <= b && SlotsFree(sys, states[a], t)
    ensures SlotsFree(sys, states[i], t) && states[i].locals[t].pc.k == states[a].locals[t].pc.k
  {
    QuietLocks(sys, states, choices, a, b, a, i);
    assert Same(sys[t].program, states[a].locals[t], states[i].locals[t]);
  }

  /** There a thread that tries a slot gets it and is ready; so all it can do is start a new scan. */
  lemma {:induction false} SlotTurn(sys: System, states: seq<State>, choices: seq<Choice>, c: seq<nat>, i: nat, t: nat)
    requires Stalled(sys, states, choices, c) && c[1] <= i < c[3] && ActsAt(choices, i, t) && t < |sys|
    requires SlotsFree(sys, states[c[0]], t) && states[i].locals[t].pc.Enter?
    ensures states[i].locals[t].slot > 0 && states[i + 1].locals[t] == Local(states[i].locals[t].pc, 0)
  {
    SlotsStayFree(sys, states, choices, c[0], c[4], i, t);
    var s, s', program := states[i], states[i + 1], sys[t].program;
    var l := s.locals[t];
    var section := program.plan[l.pc.k];
    assert ValidProgram(program) && Step(sys, s, choices[i], s');
    assert SameRanks(sys, states[c[0]], s) && SameRanks(sys, states[c[0]], s');
    assert RankOf(sys, s', t) == RankOf(sys, s, t);
    ScanMove(program, l, choices[i].action);
    if l.slot < section.max {
      SlotMutexFree(sys, states, choices, c, i, sys[t].process, section.backend, section.max, l.slot);
      SlotsStayFree(sys, states, choices, c[0], c[4], i + 1, t);
      NoneReady(sys, states, choices, c[0], c[4], i + 1, c[3], c[4], t);
    }
  }

  /** A waiting thread is not left waiting for free slots. */
  lemma {:induction false} SlotsNotStarved(sys: System, states: seq<State>, choices: seq<Choice>, c: seq<nat>, t: nat)
    requires Stalled(sys, states, choices, c) && t < |sys|
    ensures !SlotsFree(sys, states[c[0]], t)
  {
    hide ValidSystem, FlocksAgree, MutexesAgree, Run, Rank, SameRanks, Ready;
    if SlotsFree(sys, states[c[0]], t) {
      var a, b := c[0], c[4];
      var section := sys[t].program.plan[states[a].locals[t].pc.k];
      SlotsStayFree(sys, states, choices, a, b, c[1], t);
      BackOffGone(sys, states, choices, a, b, c[1], c[1], t, section.backend, section.max);
      NoneReady(sys, states, choices, a, b, c[1], c[3], b, t);
      SlotPlace(sys, states[c[1]], t);
      SlotsStayFree(sys, states, choices, a, b, c[2], t);
      var j :| c[1] <= j < c[2] && ActsAt(choices, j, t);
      var first := NextAct(sys, states, choices, a, b, t, c[1], j);
      SlotTurn(sys, states, choices, c, first, t);
      SlotsStayFree(sys, states, choices, a, b, c[3], t);
      var j2 :| c[2] <= j2 < c[3] && ActsAt(choices, j2, t);
      var second := NextAct(sys, states, choices, a, b, t, first + 1, j2);
      SlotTurn(sys, states, choices, c, second, t);
    }
  }

  lemma {:induction false} NotStalled(sys: System, states: seq<State>, choices: seq<Choice>, c: seq<nat>)
    requires Stalled(sys, states, choices, c)
    ensures forall t | 0 <= t < |sys| :: Finished(states[c[0]].locals[t])
  {
    if exists t | 0 <= t < |sys| :: !Finished(states[c[0]].locals[t]) {
      var t := SomeoneAdvances(sys, states[c[0]]);
      NoneReady(sys, states, choices, c[0], c[4], c[0], c[0], c[1], t);
      SlotsNotStarved(sys, states, choices, c, t);
    }
  }

  lemma {:induction false} RunRanks(sys: System, states: seq<State>, choices: seq<Choice>, i: nat, j: nat)
    requires ValidSystem(sys) && Run(sys, states, choices) && i <= j < |states|
    requires forall k | 0 <= k < |states| :: Inv(sys, states[k])
    ensures AllFit(sys, states[i]) && AllFit(sys, states[j])
    ensures forall t | 0 <= t < |sys| :: RankOf(sys, states[j], t) <= RankOf(sys, states[i], t)
    decreases j
  {
    hide FlocksAgree, MutexesAgree, Step, Rank;
    if i < j {
      RunRanks(sys, states, choices, i, j - 1);
      assert Step(sys, states[j - 1], choices[j - 1], states[j]);
      forall t | 0 <= t < |sys| ensures RankOf(sys, states[j], t) <= RankOf(sys, states[i], t) {
        StepRank(sys, states[j - 1], choices[j - 1], states[j], t);
      }
    }
  }

  lemma {:induction false} RunMeasure(sys: System, states: seq<State>, choices: seq<Choice>, i: nat, j: nat)
    requires ValidSystem(sys) && Run(sys, states, choices) && i <= j < |states|
    requires forall k | 0 <= k < |states| :: Inv(sys, states[k])
    ensures AllFit(sys, states[i]) && AllFit(sys, states[j])
    ensures Measure(sys, states[j]) <= Measure(sys, states[i])
    ensures Measure(sys, states[j]) == Measure(sys, states[i]) ==> SameRanks(sys, states[i], states[j])
  {
    RunRanks(sys, states, choices, i, j);
    SumMonotone(sys, states[i], states[j], |sys|);
  }

  /** Four rounds of any run, from any of its states, bring some thread closer to its end. */
  lemma {:induction false} FourRoundsAdvance(sys: System, states: seq<State>, choices: seq<Choice>, c: seq<nat>)
    requires ValidSystem(sys) && Run(sys, states, choices) && |c| == 5
    requires forall i | 0 <= i < 4 :: Round(states, choices, c[i], c[i + 1])
    ensures c[0] <= c[4] < |states| && AllFit(sys, states[c[0]]) && AllFit(sys, states[c[4]])
    ensures (exists t | 0 <= t < |sys| :: !Finished(states[c[0]].locals[t])) ==>
              Measure(sys, states[c[4]]) < Measure(sys, states[c[0]])
  {
    forall k | 0 <= k < |states| ensures Inv(sys, states[k]) {
      RunInv(sys, states, choices, k);
    }
    assert Round(states, choices, c[0], c[0 + 1]) && Round(states, choices, c[1], c[1 + 1]);
    assert Round(states, choices, c[2], c[2 + 1]) && Round(states, choices, c[3], c[3 + 1]);
    RunMeasure(sys, states, choices, c[0], c[4]);
    if Measure(sys, states[c[4]]) == Measure(sys, states[c[0]]) {
      forall i | c[0] <= i <= c[4] ensures SameRanks(sys, states[c[0]], states[i]) {
        RunMeasure(sys, states, choices, c[0], i);
        RunMeasure(sys, states, choices, i, c[4]);
      }
      NotStalled(sys, states, choices, c);
    }
  }

  lemma {:induction false} RoundsLower(sys: System, states: seq<State>, choices: seq<Choice>, c: seq<nat>, n: nat)
    requires ValidSystem(sys) && Run(sys, states, choices) && |c| == 4 * n + 1
    requires forall i | 0 <= i < 4 * n :: Round(states, choices, c[i], c[i + 1])
    requires c[0] == 0
    ensures c[4 * n] < |states| && AllFit(sys, states[c[4 * n]]) && AllFit(sys, Init(sys))
    ensures Measure(sys, states[c[4 * n]]) + n <= Measure(sys, Init(sys)) || Measure(sys, states[c[4 * n]]) == 0
  {
    if n == 0 {
      RunInv(sys, states, choices, 0);
    } else {
      RoundsLower(sys, states, choices, c[..4 * (n - 1) + 1], n - 1);
      var last := c[4 * (n - 1)..];
      forall i | 0 <= i < 4 ensures Round(states, choices, last[i], last[i + 1]) {
        assert Round(states, choices, c[4 * (n - 1) + i], c[4 * (n - 1) + i + 1]);
      }
      FourRoundsAdvance(sys, states, choices, last);
      if forall t | 0 <= t < |sys| :: Finished(states[last[0]].locals[t]) {
        forall k | 0 <= k < |states| ensures Inv(sys, states[k]) {
          RunInv(sys, states, choices, k);
        }
        assert last[0] <= last[1] <= last[2] <= last[3] <= last[4] by {
          assert Round(states, choices, last[0], last[0 + 1]) && Round(states, choices, last[1], last[1 + 1]);
          assert Round(states, choices, last[2], last[2 + 1]) && Round(states, choices, last[3], last[3 + 1]);
        }
        RunMeasure(sys, states, choices, last[0], last[4]);
        SumOfFinished(sys, states[last[0]], |sys|);
      }
    }
  }

  lemma {:induction false} SumOfFinished(sys: System, s: State, n: nat)
    requires AllFit(sys, s) && n <= |sys| && forall t | 0 <= t < |sys| :: Finished(s.locals[t])
    ensures Sum(sys, s, n) == 0
  {
    if n > 0 {
      SumOfFinished(sys, s, n - 1);
    }
  }

  /** A bound on the steps that count: 4n + 6 for a thread that nests n sections. */
  function TotalWork(sys: System): nat {
    if sys == [] then 0
    else TotalWork(sys[..|sys| - 1]) + 4 * |sys[|sys| - 1].program.plan| + 6
  }

  lemma {:induction false} InitMeasure(sys: System, n: nat)
    requires ValidSystem(sys) && n <= |sys|
    ensures AllFit(sys, Init(sys)) && Sum(sys, Init(sys), n) == TotalWork(sys[..n])
  {
    InitInv(sys);
    if n > 0 {
      InitMeasure(sys, n - 1);
      assert sys[..n][..n - 1] == sys[..n - 1];
      assert Init(sys).locals[n - 1] == StartLocal();
    }
  }

  lemma {:induction false} FinishedToTheEnd(sys: System, states: seq<State>, choices: seq<Choice>, i: nat)
    requires ValidSystem(sys) && Run(sys, states, choices) && i < |states|
    requires AllFit(sys, states[i]) && Measure(sys, states[i]) == 0
    ensures var s := states[|states| - 1];
            |s.locals| == |sys| && forall t | 0 <= t < |sys| :: Finished(s.locals[t])
  {
    forall k | 0 <= k < |states| ensures Inv(sys, states[k]) {
      RunInv(sys, states, choices, k);
    }
    RunMeasure(sys, states, choices, i, |states| - 1);
    SumZero(sys, states[|states| - 1], |sys|);
  }

  /** Deadlock and livelock freedom. Take any number of threads in any number of processes, each running a
      backup, a restore or a prune, and any run of them, with or without failures, timeouts and crashes.
      Once it contains four rounds for each unit of work, every thread has finished. */
  lemma {:induction false} FairRunsFinish(sys: System, states: seq<State>, choices: seq<Choice>, c: seq<nat>)
    requires ValidSystem(sys) && Run(sys, states, choices)
    requires |c| == 4 * TotalWork(sys) + 1 && c[0] == 0
    requires forall i | 0 <= i < 4 * TotalWork(sys) :: Round(states, choices, c[i], c[i + 1])
    ensures var s := states[|states| - 1];
            |s.locals| == |sys| && forall t | 0 <= t < |sys| :: Finished(s.locals[t])
  {
    var n := TotalWork(sys);
    RoundsLower(sys, states, choices, c, n);
    InitMeasure(sys, |sys|);
    assert sys[..|sys|] == sys;
    FinishedToTheEnd(sys, states, choices, c[4 * n]);
  }
}
