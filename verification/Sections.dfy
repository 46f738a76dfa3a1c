/** Stop-before-backup sections of one container never interleave (internal/daemon/daemon.go,
    runWorkerWithStoppedContainer), over every run of the lock protocol. */
module Sections {
  import opened Text
  import opened Keys
  import opened Protocol
  import opened Safety
  import opened Entry
  import opened Overlap

  /** What a reader of the event log sees of one container: nobody in a section, thread `t` between its stop
      and its worker, or between its worker and its start; or events out of order. */
  datatype Window = Closed | Stopped(t: nat) | Worked(t: nat) | Broken

  function After(sys: System, w: Window, e: Event, c: string): Window {
    match e
    case Crashed(p) =>
      if (w.Stopped? || w.Worked?) && w.t < |sys| && sys[w.t].process == p then Closed else w
    case Did(t, Stop(d, ok)) =>
      if d != c then w else if w != Closed then Broken else if ok then Stopped(t) else Closed
    case Did(t, Work(_)) =>
      if !(t < |sys| && sys[t].program.container == Some(c)) then w
      else if w == Stopped(t) then Worked(t) else Broken
    case Did(t, Start(d, _)) => if d != c then w else if w == Worked(t) then Closed else Broken
    case Did(_, _) => w
  }

  function Watch(sys: System, trace: seq<Event>, c: string): Window {
    if trace == [] then Closed
    else After(sys, Watch(sys, trace[..|trace| - 1], c), trace[|trace| - 1], c)
  }

  predicate InPhase(sys: System, s: State, t: nat, c: string, phase: Phase) {
    && t < |sys| && t < |s.locals|
    && sys[t].program.container == Some(c) && s.locals[t].pc == Inside(phase)
  }

  /** The log agrees with where the threads are. */
  ghost predicate LogAgrees(sys: System, s: State, c: string) {
    var w := Watch(sys, s.trace, c);
    && w != Broken
    && (forall t: nat :: w == Stopped(t) <==> InPhase(sys, s, t, c, Working))
    && (forall t: nat :: w == Worked(t) <==> InPhase(sys, s, t, c, Starting))
  }

  /** Whoever stops, uses or starts the container holds its lock. */
  lemma {:induction false} InsideHoldsContainer(sys: System, s: State, t: nat, c: string)
    requires ValidSystem(sys) && Inv(sys, s) && t < |sys|
    requires s.locals[t].pc.Inside? && sys[t].program.container == Some(c)
    ensures FlockRecorded(s, t, Lock(ContainerLock(c)))
  {
    var plan := sys[t].program.plan;
    assert ValidProgram(sys[t].program);
    HeldLevels(plan, |plan|, s.locals[t].slot);
    assert Target(plan[|plan| - 1], s.locals[t].slot) == Lock(ContainerLock(c));
    assert Lock(ContainerLock(c)) in FlocksOf(sys, s, t);
  }

  lemma {:induction false} SameInside(sys: System, s: State, t: nat, u: nat, c: string)
    requires ValidSystem(sys) && Inv(sys, s) && t < |sys| && u < |sys|
    requires s.locals[t].pc.Inside? && sys[t].program.container == Some(c)
    requires s.locals[u].pc.Inside? && sys[u].program.container == Some(c)
    ensures t == u
  {
    InsideHoldsContainer(sys, s, t, c);
    InsideHoldsContainer(sys, s, u, c);
  }

  predicate Logged(a: Action) {
    a.Stop? || a.Work? || a.Start?
  }

  lemma {:induction false} OthersStay(sys: System, s: State, t: nat, a: Action, s': State, c: string)
    requires Step(sys, s, Act(t, a), s')
    ensures forall u: nat, phase | u != t :: InPhase(sys, s', u, c, phase) == InPhase(sys, s, u, c, phase)
  {
    assert forall u | 0 <= u < |sys| && u != t :: s'.locals[u] == s.locals[u];
  }

  /** A step that is not logged does not bring a thread before or past its worker. */
  lemma {:induction false} SilentStep(sys: System, s: State, t: nat, a: Action, s': State, c: string)
    requires Step(sys, s, Act(t, a), s') && !Logged(a)
    ensures InPhase(sys, s', t, c, Working) == InPhase(sys, s, t, c, Working)
    ensures InPhase(sys, s', t, c, Starting) == InPhase(sys, s, t, c, Starting)
    ensures s'.trace == s.trace
  {
  }

  /** What a logged step of thread t means for the container, and for nothing else. */
  lemma {:induction false} LoggedStep(sys: System, s: State, t: nat, a: Action, s': State, c: string)
    requires Step(sys, s, Act(t, a), s') && Logged(a)
    ensures s'.trace == s.trace + [Did(t, a)] && s.locals[t].pc.Inside?
    ensures a.Stop? && a.container == c ==>
              && sys[t].program.container == Some(c) && s.locals[t].pc == Inside(Stopping)
              && InPhase(sys, s', t, c, Working) == a.ok
    ensures a.Work? && sys[t].program.container == Some(c) ==>
              InPhase(sys, s, t, c, Working) && InPhase(sys, s', t, c, Starting)
    ensures a.Start? && a.container == c ==> InPhase(sys, s, t, c, Starting)
    ensures InPhase(sys, s', t, c, Working) ==> a.Stop? && a.container == c && a.ok
    ensures InPhase(sys, s', t, c, Starting) ==> a.Work?
    ensures InPhase(sys, s, t, c, Working) ==> a.Work? && sys[t].program.container == Some(c)
    ensures InPhase(sys, s, t, c, Starting) ==> a.Start? && a.container == c
  {
  }

  lemma {:induction false} ActLog(sys: System, s: State, t: nat, a: Action, s': State, c: string)
    requires ValidSystem(sys) && Inv(sys, s) && Step(sys, s, Act(t, a), s')
    requires LogAgrees(sys, s, c)
    ensures LogAgrees(sys, s', c)
  {
    var w := Watch(sys, s.trace, c);
    OthersStay(sys, s, t, a, s', c);
    if Logged(a) {
      LoggedStep(sys, s, t, a, s', c);
      assert s'.trace[..|s'.trace| - 1] == s.trace;
      assert Watch(sys, s'.trace, c) == After(sys, w, Did(t, a), c);
      if a.Stop? && a.container == c && (w.Stopped? || w.Worked?) {
        assert InPhase(sys, s, w.t, c, if w.Stopped? then Working else Starting);
        SameInside(sys, s, t, w.t, c);
      }
    } else {
      SilentStep(sys, s, t, a, s', c);
    }
  }

  lemma {:induction false} CrashWatched(sys: System, s: State, p: nat, s': State, c: string)
    requires Step(sys, s, CrashOf(p), s')
    ensures Watch(sys, s'.trace, c) == After(sys, Watch(sys, s.trace, c), Crashed(p), c)
  {
    assert s'.trace[..|s'.trace| - 1] == s.trace;
  }

  lemma {:induction false} CrashLog(sys: System, s: State, p: nat, s': State, c: string)
    requires ValidSystem(sys) && Inv(sys, s) && Step(sys, s, CrashOf(p), s')
    requires LogAgrees(sys, s, c)
    ensures LogAgrees(sys, s', c)
  {
    hide Inv, ValidSystem, Watch;
    CrashWatched(sys, s, p, s', c);
    assert forall u, phase | 0 <= u < |sys| ::
        InPhase(sys, s', u, c, phase) == (InPhase(sys, s, u, c, phase) && sys[u].process != p);
  }

  lemma {:induction false} RunLog(sys: System, states: seq<State>, choices: seq<Choice>, i: nat, c: string)
    requires ValidSystem(sys) && Run(sys, states, choices) && i < |states|
    ensures LogAgrees(sys, states[i], c)
  {
    if i == 0 {
      assert forall t | 0 <= t < |sys| :: Init(sys).locals[t] == StartLocal();
    } else {
      RunLog(sys, states, choices, i - 1, c);
      RunInv(sys, states, choices, i - 1);
      match choices[i - 1]
      case Act(t, a) => ActLog(sys, states[i - 1], t, a, states[i], c);
      case CrashOf(p) => CrashLog(sys, states[i - 1], p, states[i], c);
    }
  }

  /** In every run the events of a container are stops that failed, and sections of one thread each: stop,
      worker, start attempt. A section is cut short only by a crash of its process. */
  lemma {:induction false} SectionsNeverInterleave(sys: System, s: State, c: string)
    requires ValidSystem(sys) && Reachable(sys, s)
    ensures Watch(sys, s.trace, c) != Broken
  {
    var states, choices :| Run(sys, states, choices) && states[|states| - 1] == s;
    RunLog(sys, states, choices, |states| - 1, c);
  }

  lemma {:induction false} BrokenStays(sys: System, trace: seq<Event>, i: nat, c: string)
    requires i <= |trace| && Watch(sys, trace[..i], c) == Broken
    ensures Watch(sys, trace, c) == Broken
    decreases |trace|
  {
    if i == |trace| {
      assert trace[..i] == trace;
    } else {
      var shorter := trace[..|trace| - 1];
      assert shorter[..i] == trace[..i];
      BrokenStays(sys, shorter, i, c);
    }
  }

  predicate Ends(sys: System, e: Event, t: nat, c: string) {
    || (e.Crashed? && t < |sys| && sys[t].process == e.process)
    || e == Did(t, Start(c, true)) || e == Did(t, Start(c, false))
  }

  lemma {:induction false} OpenStays(sys: System, trace: seq<Event>, i: nat, j: nat, t: nat, c: string)
    requires i < j <= |trace| && Watch(sys, trace[..i + 1], c) == Stopped(t)
    requires forall k | i < k < j :: !Ends(sys, trace[k], t, c)
    ensures Watch(sys, trace[..j], c) != Closed
    ensures var w := Watch(sys, trace[..j], c); w == Stopped(t) || w == Worked(t) || w == Broken
    decreases j
  {
    if j > i + 1 {
      OpenStays(sys, trace, i, j - 1, t, c);
      assert trace[..j][..j - 1] == trace[..j - 1];
      assert !Ends(sys, trace[j - 1], t, c);
    }
  }

  /** Read off the log: after thread t stopped the container, nobody tries to stop it again before t tried
      to start it, unless t's process crashed. */
  lemma {:induction false} NoStopInside(sys: System, s: State, i: nat, j: nat, t: nat, u: nat, ok: bool, c: string)
    requires ValidSystem(sys) && Reachable(sys, s) && i < j < |s.trace|
    requires s.trace[i] == Did(t, Stop(c, true)) && s.trace[j] == Did(u, Stop(c, ok))
    ensures exists k | i < k < j :: Ends(sys, s.trace[k], t, c)
  {
    SectionsNeverInterleave(sys, s, c);
    var trace := s.trace;
    assert trace[..i + 1][..i] == trace[..i] && trace[..j + 1][..j] == trace[..j];
    if Watch(sys, trace[..i + 1], c) == Broken {
      BrokenStays(sys, trace, i + 1, c);
    }
    if forall k | i < k < j :: !Ends(sys, trace[k], t, c) {
      OpenStays(sys, trace, i, j, t, c);
      BrokenStays(sys, trace, j + 1, c);
    }
  }

  // ---- Sections cut short by a crash ----

  /** Thread t stopped the container, its process died while its worker ran, and thread u has just started the
      container again under that worker. */
  ghost predicate StartedUnder(sys: System, s: State, t: nat, u: nat, c: string) {
    && Reachable(sys, s) && t in s.orphans && t < |sys| && sys[t].program.container == Some(c)
    && s.trace != [] && s.trace[|s.trace| - 1] == Did(u, Start(c, true))
  }

  /** That can happen to any two stop-before-backup threads of one container in different processes. */
  lemma {:induction false} StartUnderOrphan(sys: System, t: nat, u: nat, c: string) returns (s: State)
    requires ValidSystem(sys) && t < |sys| && u < |sys| && sys[t].process != sys[u].process
    requires sys[t].program.container == sys[u].program.container == Some(c)
    ensures StartedUnder(sys, s, t, u, c)
  {
    OneTogether(sys, t);
    OneTogether(sys, u);
    forall p: nat ensures Together(sys, OfProcess(sys, {t}, p)) {
      FewerTogether(sys, {t}, OfProcess(sys, {t}, p));
    }
    var s0 := AllLeaveWorkers(sys, {t});
    ReachableInv(sys, s0);
    forall v | 0 <= v < |sys| ensures Idle(sys, s0, v) {
      StartIsIdle(sys, s0, v);
    }
    assert !SharesProcess(sys, {t}, u);
    var s1 := AllGetIn(sys, s0, {u});
    var work, start := Act(u, Work(true)), Act(u, Start(c, true));
    var s2 := Effect(sys, s1, u, work.action, s1.locals[u].(pc := Inside(Starting)));
    assert AtWork(s1, u) && ValidProgram(sys[u].program) && Step(sys, s1, work, s2);
    Extend(sys, s1, work, s2);
    s := Effect(sys, s2, u, start.action, s1.locals[u].(pc := Leave(|sys[u].program.plan| - 1)));
    assert Step(sys, s2, start, s);
    Extend(sys, s2, start, s);
  }

  predicate IsStart(e: Event, c: string) {
    e.Did? && e.action.Start? && e.action.container == c
  }

  /** Once the only thread of a container has started it again, it is past its worker for good. */
  ghost predicate StartIsLast(s: State, t: nat, c: string) {
    (exists i | 0 <= i < |s.trace| :: IsStart(s.trace[i], c)) ==>
      t !in s.orphans && t < |s.locals| && Past(s.locals[t].pc)
  }

  predicate Past(pc: Pc) {
    pc.Leave? || pc.Drop? || pc.Done? || pc.Dead?
  }

  lemma {:induction false} StepStart(sys: System, s: State, choice: Choice, s': State, t: nat, c: string)
    requires Step(sys, s, choice, s') && t < |sys| && StartIsLast(s, t, c)
    requires forall u | 0 <= u < |sys| && u != t :: sys[u].program.container != Some(c)
    requires OrphansAgree(sys, s)
    ensures StartIsLast(s', t, c)
  {
    assert s.trace <= s'.trace;
    match choice
    case Act(u, a) =>
      assert forall v | 0 <= v < |sys| && v != u :: s'.locals[v] == s.locals[v];
      assert a.Start? && a.container == c ==> u == t;
      assert s'.trace == s.trace || s'.trace == s.trace + [Did(u, a)];
    case CrashOf(p) => assert s'.trace == s.trace + [Crashed(p)];
  }

  lemma {:induction false} RunStart(sys: System, states: seq<State>, choices: seq<Choice>, i: nat, t: nat, c: string)
    requires ValidSystem(sys) && Run(sys, states, choices) && i < |states| && t < |sys|
    requires forall u | 0 <= u < |sys| && u != t :: sys[u].program.container != Some(c)
    ensures StartIsLast(states[i], t, c)
  {
    if i > 0 {
      RunStart(sys, states, choices, i - 1, t, c);
      RunOrphans(sys, states, choices, i - 1);
      StepStart(sys, states[i - 1], choices[i - 1], states[i], t, c);
    }
  }

  /** If no other thread handles the container, it stays down: nobody ever tries to start it again. */
  lemma {:induction false} StaysDown(sys: System, s: State, t: nat, c: string)
    requires ValidSystem(sys) && Reachable(sys, s) && t in s.orphans && t < |sys|
    requires forall u | 0 <= u < |sys| && u != t :: sys[u].program.container != Some(c)
    ensures forall i | 0 <= i < |s.trace| :: !IsStart(s.trace[i], c)
  {
    var states, choices :| Run(sys, states, choices) && states[|states| - 1] == s;
    RunStart(sys, states, choices, |states| - 1, t, c);
  }
}
