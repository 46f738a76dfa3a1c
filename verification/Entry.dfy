/** How a thread gets to its worker: alone, past whatever the others hold (internal/daemon/lock.go,
    internal/daemon/write_limiter.go). These are the runs that show which workers can run at the same time. */
module Entry {
  import opened Text
  import opened Keys
  import opened Protocol
  import opened Safety

  /** The thread waits for its worker. */
  predicate AtWork(s: State, t: nat) {
    t < |s.locals| && s.locals[t].pc == Inside(Working)
  }

  // ---- Runs, one step longer ----

  lemma {:induction false} Extend(sys: System, s: State, choice: Choice, s': State)
    requires Reachable(sys, s) && Step(sys, s, choice, s')
    ensures Reachable(sys, s')
  {
    var states, choices :| Run(sys, states, choices) && states[|states| - 1] == s;
    var longer, more := states + [s'], choices + [choice];
    forall i | 0 <= i < |more| ensures Step(sys, longer[i], more[i], longer[i + 1]) {
      if i < |choices| {
        assert longer[i] == states[i] && longer[i + 1] == states[i + 1] && more[i] == choices[i];
      }
    }
    assert Run(sys, longer, more) && longer[|longer| - 1] == s';
  }

  lemma {:induction false} InitReachable(sys: System)
    ensures Reachable(sys, Init(sys))
  {
    assert Run(sys, [Init(sys)], []) && [Init(sys)][|[Init(sys)]| - 1] == Init(sys);
  }

  predicate Available(sys: System, s: State, t: nat, r: Res)
    requires t < |sys|
  {
    (sys[t].process, r) !in s.mutexes && r !in s.flocks
  }

  /** The thread can enter: the lock is free, or some slot is. */
  ghost predicate Open(sys: System, s: State, t: nat, section: Section)
    requires t < |sys|
  {
    match section
    case Exclusive(id) => Available(sys, s, t, Lock(id))
    case AnySlot(backend, max) => exists i: nat :: SlotAvailable(sys, s, t, backend, max, i)
  }

  predicate SlotAvailable(sys: System, s: State, t: nat, backend: string, max: nat, i: nat)
    requires t < |sys|
  {
    i < max && Available(sys, s, t, Slot(backend, i))
  }

  /** Only thread `t` moved, and nobody crashed. */
  ghost predicate OnlyMoved(s: State, s': State, t: nat) {
    && t < |s.locals| == |s'.locals| && s'.orphans == s.orphans
    && forall u | 0 <= u < |s.locals| && u != t :: s'.locals[u] == s.locals[u]
  }

  /** A free lock, or a free slot, is taken in two steps. */
  lemma {:induction false} Take(sys: System, s: State, t: nat, k: nat) returns (s': State)
    requires Reachable(sys, s) && |s.locals| == |sys| && t < |sys| && k < |sys[t].program.plan|
    requires s.locals[t].pc == Enter(k)
    requires sys[t].program.plan[k].AnySlot? ==> s.locals[t].slot < sys[t].program.plan[k].max
    requires Available(sys, s, t, Target(sys[t].program.plan[k], s.locals[t].slot))
    ensures Reachable(sys, s') && OnlyMoved(s, s', t)
    ensures s'.locals[t] == Inner(sys[t].program, k, s.locals[t].slot)
    ensures var r := Target(sys[t].program.plan[k], s.locals[t].slot);
            s'.mutexes == s.mutexes[(sys[t].process, r) := t] && s'.flocks == s.flocks[r := t]
  {
    var program, l := sys[t].program, s.locals[t];
    var r := Target(program.plan[k], l.slot);
    var c0, c1 := Act(t, TryMutex(r, true)), Act(t, TryFlock(r, Got));
    var s0 := Effect(sys, s, t, c0.action, Local(Locked(k), l.slot));
    assert Step(sys, s, c0, s0);
    Extend(sys, s, c0, s0);
    s' := Effect(sys, s0, t, c1.action, Inner(program, k, l.slot));
    assert Step(sys, s0, c1, s');
    Extend(sys, s0, c1, s');
  }

  /** A slot that is not free is passed, and nothing is kept. */
  lemma {:induction false} Pass(sys: System, s: State, t: nat, k: nat) returns (s': State)
    requires Reachable(sys, s) && |s.locals| == |sys| && t < |sys| && k < |sys[t].program.plan|
    requires s.locals[t].pc == Enter(k)
    requires sys[t].program.plan[k].AnySlot? && s.locals[t].slot < sys[t].program.plan[k].max
    requires !Available(sys, s, t, Target(sys[t].program.plan[k], s.locals[t].slot))
    ensures Reachable(sys, s') && OnlyMoved(s, s', t)
    ensures s'.locals[t] == Local(Enter(k), s.locals[t].slot + 1)
    ensures s'.mutexes == s.mutexes && s'.flocks == s.flocks
  {
    var program, l := sys[t].program, s.locals[t];
    var r := Target(program.plan[k], l.slot);
    var next := Local(Enter(k), l.slot + 1);
    if (sys[t].process, r) in s.mutexes {
      s' := Effect(sys, s, t, TryMutex(r, false), next);
      assert Step(sys, s, Act(t, TryMutex(r, false)), s');
      Extend(sys, s, Act(t, TryMutex(r, false)), s');
    } else {
      var s0 := Effect(sys, s, t, TryMutex(r, true), Local(Locked(k), l.slot));
      assert Step(sys, s, Act(t, TryMutex(r, true)), s0);
      Extend(sys, s, Act(t, TryMutex(r, true)), s0);
      var s1 := Effect(sys, s0, t, TryFlock(r, Busy), Local(Retry(k), l.slot));
      assert Step(sys, s0, Act(t, TryFlock(r, Busy)), s1);
      Extend(sys, s0, Act(t, TryFlock(r, Busy)), s1);
      s' := Effect(sys, s1, t, Unmutex(r), next);
      assert Step(sys, s1, Act(t, Unmutex(r)), s');
      Extend(sys, s1, Act(t, Unmutex(r)), s');
      assert s'.mutexes == s.mutexes;
    }
  }

  /** A scan takes the first free slot. */
  lemma {:induction false} TakeSlot(sys: System, s: State, t: nat, k: nat, i: nat) returns (s': State, slot: nat)
    requires Reachable(sys, s) && |s.locals| == |sys| && t < |sys| && k < |sys[t].program.plan|
    requires s.locals[t].pc == Enter(k) && sys[t].program.plan[k].AnySlot? && s.locals[t].slot <= i
    requires SlotAvailable(sys, s, t, sys[t].program.plan[k].backend, sys[t].program.plan[k].max, i)
    ensures Reachable(sys, s') && OnlyMoved(s, s', t) && slot <= i
    ensures s'.locals[t] == Inner(sys[t].program, k, slot)
    ensures var r := Slot(sys[t].program.plan[k].backend, slot);
            s'.mutexes == s.mutexes[(sys[t].process, r) := t] && s'.flocks == s.flocks[r := t]
    decreases i - s.locals[t].slot
  {
    var here := s.locals[t].slot;
    if Available(sys, s, t, Slot(sys[t].program.plan[k].backend, here)) {
      slot := here;
      s' := Take(sys, s, t, k);
    } else {
      var s0 := Pass(sys, s, t, k);
      s', slot := TakeSlot(sys, s0, t, k, i);
    }
  }

  // ---- All the way in ----

  /** What a section of the plan takes is nothing that a later section needs. */
  lemma {:induction false} StaysOpen(sys: System, s: State, s': State, t: nat, k: nat, j: nat, r: Res)
    requires t < |sys| && Ordered(sys[t].program.plan) && k < j < |sys[t].program.plan|
    requires Open(sys, s, t, sys[t].program.plan[j])
    requires exists slot :: r == Target(sys[t].program.plan[k], slot)
    requires s'.mutexes == s.mutexes[(sys[t].process, r) := t] && s'.flocks == s.flocks[r := t]
    ensures Open(sys, s', t, sys[t].program.plan[j])
  {
    var plan := sys[t].program.plan;
    assert Level(plan[k]) < Level(plan[j]);
    if plan[j].AnySlot? {
      var i: nat :| SlotAvailable(sys, s, t, plan[j].backend, plan[j].max, i);
      assert SlotAvailable(sys, s', t, plan[j].backend, plan[j].max, i);
    }
  }

  /** A thread before section `k` gets to its worker if all sections from `k` on are open. */
  lemma {:induction false} GoIn(sys: System, s: State, t: nat, k: nat) returns (s': State)
    requires Reachable(sys, s) && |s.locals| == |sys| && t < |sys| && ValidProgram(sys[t].program)
    requires k < |sys[t].program.plan| && s.locals[t].pc == Enter(k)
    requires sys[t].program.plan[k].AnySlot? ==> s.locals[t].slot == 0
    requires forall j | k <= j < |sys[t].program.plan| :: Open(sys, s, t, sys[t].program.plan[j])
    ensures Reachable(sys, s') && OnlyMoved(s, s', t) && AtWork(s', t)
    decreases |sys[t].program.plan| - k
  {
    var plan := sys[t].program.plan;
    var slot := s.locals[t].slot;
    assert Open(sys, s, t, plan[k]);
    if plan[k].AnySlot? {
      var i: nat :| SlotAvailable(sys, s, t, plan[k].backend, plan[k].max, i);
      s', slot := TakeSlot(sys, s, t, k, i);
    } else {
      s' := Take(sys, s, t, k);
    }
    if k + 1 < |plan| {
      forall j | k + 1 <= j < |plan| ensures Open(sys, s', t, plan[j]) {
        StaysOpen(sys, s, s', t, k, j, Target(plan[k], slot));
      }
      s' := GoIn(sys, s', t, k + 1);
    } else {
      s' := GoToWork(sys, s', t);
    }
  }

  lemma {:induction false} GoToWork(sys: System, s: State, t: nat) returns (s': State)
    requires Reachable(sys, s) && |s.locals| == |sys| && t < |sys| && sys[t].program.plan != []
    requires s.locals[t].pc == Inside(if sys[t].program.container.Some? then Stopping else Working)
    ensures Reachable(sys, s') && OnlyMoved(s, s', t) && AtWork(s', t)
  {
    if sys[t].program.container.Some? {
      var c := Act(t, Stop(sys[t].program.container.value, true));
      s' := Effect(sys, s, t, c.action, s.locals[t].(pc := Inside(Working)));
      assert Step(sys, s, c, s');
      Extend(sys, s, c, s');
    } else {
      s' := s;
    }
  }

  /** Thread v holds nothing. */
  ghost predicate Idle(sys: System, s: State, v: nat)
    requires AllFit(sys, s) && v < |sys|
  {
    FlocksOf(sys, s, v) == {} && MutexesOf(sys, s, v) == {}
  }

  lemma {:induction false} StartIsIdle(sys: System, s: State, v: nat)
    requires AllFit(sys, s) && v < |sys|
    requires s.locals[v] == StartLocal() || s.locals[v].pc.Dead?
    ensures Idle(sys, s, v)
  {
  }
}
