/** The protocol over printed keys. The other modules speak of locks by what they stand for; the code knows them by
    the keys it prints (internal/daemon/lock.go, with). For parts without NUL the keys tell the locks apart, so
    every run over keys is a run of module Protocol, and what holds there holds of the code's lock tables. */
module Keyed {
  import opened Text
  import opened Keys
  import opened Protocol
  import opened Safety
  import opened Progress

  /** A lock file: of a lock, by its key, or of a slot in the directory of a backend. */
  datatype KeyRes = Key(key: string) | SlotKey(backend: string, index: nat)

  function Printed(r: Res): KeyRes {
    match r
    case Lock(id) => Key(KeyOf(id))
    case Slot(backend, index) => SlotKey(backend, index)
  }

  datatype KeyState = KeyState(
    mutexes: map<(nat, KeyRes), nat>, flocks: map<KeyRes, nat>, locals: seq<Local>, trace: seq<Event>,
    orphans: set<nat>)

  function KeyInit(sys: System): KeyState {
    KeyState(map[], map[], Init(sys).locals, [], {})
  }

  predicate KeyAllowed(sys: System, s: KeyState, t: nat, a: Action)
    requires t < |sys|
  {
    match a
    case TryMutex(r, got) => got == ((sys[t].process, Printed(r)) !in s.mutexes)
    case TryFlock(r, result) =>
      (result == Got ==> Printed(r) !in s.flocks) && (result == Busy ==> Printed(r) in s.flocks)
    case _ => true
  }

  function KeyEffect(sys: System, s: KeyState, t: nat, a: Action, l: Local): KeyState
    requires t < |sys| && t < |s.locals|
  {
    var p := sys[t].process;
    var mutexes :=
      if a.TryMutex? && a.got then s.mutexes[(p, Printed(a.res)) := t]
      else if a.Unmutex? then s.mutexes - {(p, Printed(a.res))} else s.mutexes;
    var flocks :=
      if a.TryFlock? && a.result == Got then s.flocks[Printed(a.res) := t]
      else if a.Unflock? then s.flocks - {Printed(a.res)} else s.flocks;
    var trace := if a.Stop? || a.Work? || a.Start? then s.trace + [Did(t, a)] else s.trace;
    KeyState(mutexes, flocks, s.locals[t := l], trace, s.orphans)
  }

  function KeyCrash(sys: System, s: KeyState, p: nat): KeyState
    requires |s.locals| == |sys|
  {
    KeyState(
      map key | key in s.mutexes && key.0 != p :: s.mutexes[key],
      map r | r in s.flocks && !(s.flocks[r] < |sys| && sys[s.flocks[r]].process == p) :: s.flocks[r],
      seq(|sys|, t requires 0 <= t < |sys| => if sys[t].process == p then Local(Dead, 0) else s.locals[t]),
      s.trace + [Crashed(p)],
      s.orphans + set t | 0 <= t < |sys| && sys[t].process == p && s.locals[t].pc == Inside(Working))
  }

  predicate KeyStep(sys: System, s: KeyState, choice: Choice, s': KeyState) {
    && |s.locals| == |sys|
    && match choice
       case Act(t, a) =>
         && t < |sys| && KeyAllowed(sys, s, t, a)
         && Move(sys[t].program, s.locals[t], a).Some?
         && s' == KeyEffect(sys, s, t, a, Move(sys[t].program, s.locals[t], a).value)
       case CrashOf(p) => s' == KeyCrash(sys, s, p)
  }

  ghost predicate KeyRun(sys: System, states: seq<KeyState>, choices: seq<Choice>) {
    && |states| == |choices| + 1
    && states[0] == KeyInit(sys)
    && forall i | 0 <= i < |choices| :: KeyStep(sys, states[i], choices[i], states[i + 1])
  }

  // ---- Keys without NUL ----

  ghost predicate Clean(r: Res) {
    r.Lock? ==> NulFree(r.id)
  }

  ghost predicate CleanPlan(plan: seq<Section>) {
    forall k | 0 <= k < |plan| && plan[k].Exclusive? :: NulFree(plan[k].id)
  }

  ghost predicate CleanSystem(sys: System) {
    forall t | 0 <= t < |sys| :: CleanPlan(sys[t].program.plan)
  }

  lemma {:induction false} PrintedInjective(r: Res, q: Res)
    requires Clean(r) && Clean(q)
    ensures Printed(r) == Printed(q) <==> r == q
  {
    if r.Lock? && q.Lock? {
      KeysInjective(r.id, q.id);
    }
  }

  /** The keys that a job takes are pairwise distinct: no thread waits for a lock file it holds. */
  lemma {:induction false} PlanKeysDistinct(plan: seq<Section>, slot: nat, j: nat, k: nat)
    requires Ordered(plan) && CleanPlan(plan) && j < k < |plan|
    ensures Printed(Target(plan[j], slot)) != Printed(Target(plan[k], slot))
  {
    PrintedInjective(Target(plan[j], slot), Target(plan[k], slot));
    assert Level(plan[j]) < Level(plan[k]);
  }

  // ---- Every run over keys is a run ----

  ghost predicate SameMutex(s: State, q: KeyState, p: nat, r: Res) {
    && ((p, r) in s.mutexes <==> (p, Printed(r)) in q.mutexes)
    && ((p, r) in s.mutexes ==> s.mutexes[(p, r)] == q.mutexes[(p, Printed(r))])
  }

  ghost predicate SameFlock(s: State, q: KeyState, r: Res) {
    && (r in s.flocks <==> Printed(r) in q.flocks)
    && (r in s.flocks ==> s.flocks[r] == q.flocks[Printed(r)])
  }

  ghost predicate Agrees(s: State, q: KeyState) {
    && s.locals == q.locals && s.trace == q.trace && s.orphans == q.orphans
    && (forall p, r | Clean(r) :: SameMutex(s, q, p, r))
    && (forall r | Clean(r) :: SameFlock(s, q, r))
  }

  predicate Locking(a: Action) {
    a.TryMutex? || a.TryFlock? || a.Unflock? || a.Unmutex?
  }

  /** What a thread of a clean system takes is clean. */
  lemma {:induction false} MovesAreClean(program: Program, l: Local, a: Action)
    requires CleanPlan(program.plan) && Move(program, l, a).Some? && Locking(a)
    ensures Clean(a.res)
  {
  }

  lemma {:induction false} ActAgrees(sys: System, s: State, q: KeyState, t: nat, a: Action, q': KeyState)
      returns (s': State)
    requires CleanSystem(sys) && Agrees(s, q) && KeyStep(sys, q, Act(t, a), q')
    ensures Step(sys, s, Act(t, a), s') && Agrees(s', q')
  {
    var l' := Move(sys[t].program, s.locals[t], a).value;
    s' := Effect(sys, s, t, a, l');
    if Locking(a) {
      MovesAreClean(sys[t].program, s.locals[t], a);
      assert SameMutex(s, q, sys[t].process, a.res) && SameFlock(s, q, a.res);
    }
    forall p, r | Clean(r) ensures SameMutex(s', q', p, r) {
      assert SameMutex(s, q, p, r);
      if Locking(a) {
        PrintedInjective(r, a.res);
      }
    }
    forall r | Clean(r) ensures SameFlock(s', q', r) {
      assert SameFlock(s, q, r);
      if Locking(a) {
        PrintedInjective(r, a.res);
      }
    }
  }

  lemma {:induction false} CrashAgrees(sys: System, s: State, q: KeyState, p: nat, q': KeyState) returns (s': State)
    requires Agrees(s, q) && KeyStep(sys, q, CrashOf(p), q')
    ensures Step(sys, s, CrashOf(p), s') && Agrees(s', q')
  {
    s' := Crash(sys, s, p);
    forall o, r | Clean(r) ensures SameMutex(s', q', o, r) {
      assert SameMutex(s, q, o, r);
    }
    forall r | Clean(r) ensures SameFlock(s', q', r) {
      assert SameFlock(s, q, r);
    }
  }

  lemma {:induction false} KeyRunsAreRuns(sys: System, keyed: seq<KeyState>, choices: seq<Choice>)
      returns (states: seq<State>)
    requires CleanSystem(sys) && KeyRun(sys, keyed, choices)
    ensures Run(sys, states, choices) && |states| == |keyed|
    ensures forall i | 0 <= i < |keyed| :: Agrees(states[i], keyed[i])
    decreases |choices|
  {
    if choices == [] {
      states := [Init(sys)];
    } else {
      var n := |choices| - 1;
      assert KeyRun(sys, keyed[..n + 1], choices[..n]);
      var before := KeyRunsAreRuns(sys, keyed[..n + 1], choices[..n]);
      assert Agrees(before[n], keyed[n]) && KeyStep(sys, keyed[n], choices[n], keyed[n + 1]);
      var last;
      match choices[n] {
        case Act(t, a) => last := ActAgrees(sys, before[n], keyed[n], t, a, keyed[n + 1]);
        case CrashOf(p) => last := CrashAgrees(sys, before[n], keyed[n], p, keyed[n + 1]);
      }
      states := before + [last];
      forall i | 0 <= i < |choices| ensures Step(sys, states[i], choices[i], states[i + 1]) {
        if i < n {
          assert Step(sys, before[i], choices[..n][i], before[i + 1]);
        }
      }
      forall i | 0 <= i < |keyed| ensures Agrees(states[i], keyed[i]) {
        if i < |before| {
          assert Agrees(before[i], keyed[..n + 1][i]);
        }
      }
    }
  }

  // ---- What carries over ----

  /** Every thread that is unfinished at the end of the stretch took at least one step in it. */
  ghost predicate KeyRound(states: seq<KeyState>, choices: seq<Choice>, c: nat, d: nat) {
    && c <= d < |states|
    && forall t | 0 <= t < |states[d].locals| && !Finished(states[d].locals[t]) :: Acts(choices, c, d, t)
  }

  /** Deadlock and livelock freedom over keys. */
  lemma {:induction false} KeyedRunsFinish(sys: System, keyed: seq<KeyState>, choices: seq<Choice>, c: seq<nat>)
    requires ValidSystem(sys) && CleanSystem(sys) && KeyRun(sys, keyed, choices)
    requires |c| == 4 * TotalWork(sys) + 1 && c[0] == 0
    requires forall i | 0 <= i < 4 * TotalWork(sys) :: KeyRound(keyed, choices, c[i], c[i + 1])
    ensures var s := keyed[|keyed| - 1];
            |s.locals| == |sys| && forall t | 0 <= t < |sys| :: Finished(s.locals[t])
  {
    var states := KeyRunsAreRuns(sys, keyed, choices);
    forall i | 0 <= i < 4 * TotalWork(sys) ensures Round(states, choices, c[i], c[i + 1]) {
      assert KeyRound(keyed, choices, c[i], c[i + 1]);
      assert Agrees(states[c[i + 1]], keyed[c[i + 1]]);
    }
    FairRunsFinish(sys, states, choices, c);
    assert Agrees(states[|states| - 1], keyed[|keyed| - 1]);
  }

  /** Exclusion over keys: live threads whose repository keys are printed alike are not in their workers together. */
  lemma {:induction false} KeyedExclusion(sys: System, keyed: seq<KeyState>, choices: seq<Choice>, n: nat,
      t: nat, u: nat)
    requires ValidSystem(sys) && CleanSystem(sys) && KeyRun(sys, keyed, choices) && n < |keyed|
    requires t < |sys| && u < |sys| && t != u
    requires |keyed[n].locals| == |sys| && keyed[n].locals[t].pc.Inside? && keyed[n].locals[u].pc.Inside?
    ensures ValidProgram(sys[t].program) && ValidProgram(sys[u].program)
    ensures Printed(RepositoryOf(sys[t].program)) != Printed(RepositoryOf(sys[u].program))
  {
    var states := KeyRunsAreRuns(sys, keyed, choices);
    assert Agrees(states[n], keyed[n]);
    var first, rest := states[..n + 1], choices[..n];
    assert Run(sys, first, rest) && first[|first| - 1] == states[n];
    RepositoryExclusion(sys, states[n], t, u);
    PrintedInjective(RepositoryOf(sys[t].program), RepositoryOf(sys[u].program));
  }
}
