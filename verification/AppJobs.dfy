/** Jobs as the daemon and the commands build them, from profiles and backup specifications
    (internal/daemon/daemon.go, internal/app/app.go). Here the identity code of module Config meets the
    safety of module Safety: which apps exclude each other, and which share a bound on writers. */
module AppJobs {
  import opened Text
  import opened Config
  import opened Sources
  import opened Keys
  import opened Protocol
  import opened Safety
  import opened Entry
  import opened Overlap
  import Jobs
  import Logs
  import Restoring

  /** `max` is the capacity of the write limiter, None if there is no limiter. */
  datatype Request =
    | BackupApp(profile: Profile, max: Option<int>, spec: Spec, stopBeforeBackup: bool)
    | RestoreSource(profile: Profile, max: Option<int>, profileName: string, spec: Spec, source: Source)
    | PruneApp(profile: Profile, max: Option<int>, app: string)

  function AppOf(r: Request): string {
    if r.PruneApp? then r.app else r.spec.name
  }

  /** WriteLimiter.With takes no slot without a limiter or with a capacity that is not positive. */
  function LimitOf(max: Option<int>, p: Profile, lib: Library): Limit {
    if max.Some? && max.value > 0 then AtMost(BackendKey(p, lib), max.value) else NoLimit
  }

  /** shouldStopBeforeBackup. */
  function ContainerToStop(spec: Spec, stopBeforeBackup: bool): Option<string> {
    if spec.stop.GetOr(stopBeforeBackup) && spec.running && spec.containerID != "" then Some(spec.containerID) else None
  }

  /** A container is stopped for its backup exactly if it runs, has an id, and its label says so, or the default where
      there is no label. */
  lemma {:induction false} StopIff(spec: Spec, stopBeforeBackup: bool, id: string)
    ensures ContainerToStop(spec, stopBeforeBackup) == Some(id) <==>
              && spec.running && spec.containerID == id != ""
              && (spec.stop == Some(true) || (spec.stop == None && stopBeforeBackup))
  {
  }

  function JobOf(r: Request, lib: Library): (job: Job)
    ensures ValidJob(job)
  {
    var app := ForApp(r.profile, AppOf(r), lib);
    var repository, limit := LockOfRepository(app), LimitOf(r.max, app, lib);
    match r
    case BackupApp(_, _, spec, stop) => Backup(repository, limit, ContainerToStop(spec, stop))
    case RestoreSource(_, _, name, spec, source) => Restore(repository, LockOfSource(name, spec, source), limit)
    case PruneApp(_, _, _) => Prune(repository, limit)
  }

  // ---- The entry points ----

  /** RunSpecJobs. */
  method RunSpecJobs(locks: Jobs.LockManager<string>, slots: Jobs.LockManager<(string, nat)>, profile: Profile,
                     max: Option<int>, spec: Spec, stopBeforeBackup: bool, commands: nat, lib: Library,
                     world: Logs.World)
    returns (s: Jobs.Session, jobsStarted: nat, ok: bool)
    requires locks.Valid() && slots.Valid() && Logs.Timely(world)
    modifies locks, slots
    ensures fresh(s) && s.Valid() && s.locks == locks && s.slots == slots && s.world == world
    ensures Logs.TriedFirst(s.program, s.log) && (ok ==> Work(true) in s.log)
    ensures s.program == ProgramOf(JobOf(BackupApp(profile, max, spec, stopBeforeBackup), lib))
    ensures s.at.pc == Done && s.mutexes == {} && s.flocks == {}
    ensures ok <==> !Logs.Fails(s.log)
    ensures jobsStarted == if ok then commands else 0
  {
    hide Jobs.Session.Valid, Logs.Fails;
    var appProfile := ForApp(profile, spec.name, lib);
    s, jobsStarted, ok := Jobs.RunSpecJobs(
      locks, slots, LockOfRepository(appProfile), LimitOf(max, appProfile, lib),
      ContainerToStop(spec, stopBeforeBackup), commands, world);
  }

  /** restoreCandidateWithSnapshot. */
  method RestoreCandidate(locks: Jobs.LockManager<string>, slots: Jobs.LockManager<(string, nat)>, profile: Profile,
                          max: Option<int>, profileName: string, lib: Library, host: Restoring.Host,
                          listed: Option<seq<Restoring.Container>>, spec: Spec, source: Source, snapshotID: string,
                          skipPreBackup: bool, patterns: Option<seq<string>>, world: Logs.World)
    returns (s: Jobs.Session, ok: bool, ghost entered: bool, ghost err: seq<Restoring.Failure>,
             ghost h: Restoring.History)
    requires locks.Valid() && slots.Valid() && Logs.Timely(world) && host.Valid() && snapshotID != "latest"
    modifies locks, slots, host`running, host`volume, host`stored, host`ticks, host`log
    ensures fresh(s) && s.Valid() && s.locks == locks && s.slots == slots && s.world == world && host.Valid()
    ensures Logs.TriedFirst(s.program, s.log) && (ok ==> Work(true) in s.log)
    ensures s.program == ProgramOf(JobOf(RestoreSource(profile, max, profileName, spec, source), lib))
    ensures s.at.pc == Done && s.mutexes == {} && s.flocks == {}
    ensures ok <==> !Logs.Fails(s.log)
    ensures ok <==> entered && err == []
    ensures !entered ==> host.Now() == old(host.Now())
    ensures entered ==>
              host.setting.Restores(old(host.Now()), host.Now(), listed, spec, source, snapshotID, skipPreBackup,
                                    patterns, err, h)
  {
    hide Jobs.Session.Valid, Logs.Fails, Restoring.Setting.Restores, Restoring.Host.Valid;
    var appProfile := ForApp(profile, spec.name, lib);
    s, ok, entered, err, h := Jobs.RestoreCandidate(
      locks, slots, LockOfRepository(appProfile), LockOfSource(profileName, spec, source),
      LimitOf(max, appProfile, lib), host, listed, spec, source, snapshotID, skipPreBackup, patterns, world);
  }

  /** runPruneJob. */
  method RunPruneJob(locks: Jobs.LockManager<string>, slots: Jobs.LockManager<(string, nat)>, profile: Profile,
                     max: Option<int>, app: string, lib: Library, world: Logs.World)
    returns (s: Jobs.Session, ok: bool)
    requires locks.Valid() && slots.Valid() && Logs.Timely(world)
    modifies locks, slots
    ensures fresh(s) && s.Valid() && s.locks == locks && s.slots == slots && s.world == world
    ensures Logs.TriedFirst(s.program, s.log) && (ok ==> Work(true) in s.log)
    ensures s.program == ProgramOf(JobOf(PruneApp(profile, max, app), lib))
    ensures s.at.pc == Done && s.mutexes == {} && s.flocks == {}
    ensures ok <==> !Logs.Fails(s.log)
  {
    hide Jobs.Session.Valid, Logs.Fails;
    var appProfile := ForApp(profile, app, lib);
    s, ok := Jobs.RunPruneJob(locks, slots, LockOfRepository(appProfile), LimitOf(max, appProfile, lib), world);
  }

  // ---- Many requests at once ----

  /** One thread for each request, in the given processes. */
  function SystemOf(processes: seq<nat>, requests: seq<Request>, lib: Library): (sys: System)
    requires |processes| == |requests|
    ensures |sys| == |requests|
  {
    seq(|requests|, t requires 0 <= t < |requests| => Thread(processes[t], ProgramOf(JobOf(requests[t], lib))))
  }

  lemma {:induction false} RequestsAreValid(processes: seq<nat>, requests: seq<Request>, lib: Library)
    requires |processes| == |requests|
    ensures ValidSystem(SystemOf(processes, requests, lib))
  {
    var sys := SystemOf(processes, requests, lib);
    forall t | 0 <= t < |sys| ensures ValidProgram(sys[t].program) {
      JobsAreValid(JobOf(requests[t], lib));
    }
  }

  function AppProfile(r: Request, lib: Library): Profile {
    ForApp(r.profile, AppOf(r), lib)
  }

  // ---- Which jobs can be at work together ----

  predicate SameRepository(a: Request, b: Request, lib: Library) {
    LockOfRepository(AppProfile(a, lib)) == LockOfRepository(AppProfile(b, lib))
  }

  /** Two restores of one volume, host path, or source of an app. */
  predicate SameSource(a: Request, b: Request) {
    && a.RestoreSource? && b.RestoreSource?
    && LockOfSource(a.profileName, a.spec, a.source) == LockOfSource(b.profileName, b.spec, b.source)
  }

  /** Two backups that stop one container. */
  predicate SameContainer(a: Request, b: Request) {
    && a.BackupApp? && b.BackupApp?
    && ContainerToStop(a.spec, a.stopBeforeBackup).Some?
    && ContainerToStop(a.spec, a.stopBeforeBackup) == ContainerToStop(b.spec, b.stopBeforeBackup)
  }

  /** One backend, and both limiters have room for one. */
  predicate OneSlot(a: Request, b: Request, lib: Library) {
    && a.max == Some(1) && b.max == Some(1)
    && BackendKey(AppProfile(a, lib), lib) == BackendKey(AppProfile(b, lib), lib)
  }

  predicate KeptApart(a: Request, b: Request, lib: Library) {
    SameRepository(a, b, lib) || SameSource(a, b) || SameContainer(a, b) || OneSlot(a, b, lib)
  }

  /** The sections of a job, told apart by their kind. */
  lemma {:induction false} PlanSections(r: Request, lib: Library, section: Section)
    ensures section in Plan(JobOf(r, lib)) <==>
              || section == Exclusive(LockOfRepository(AppProfile(r, lib)))
              || (r.RestoreSource? && section == Exclusive(LockOfSource(r.profileName, r.spec, r.source)))
              || (r.BackupApp? && ContainerToStop(r.spec, r.stopBeforeBackup).Some?
                  && section == Exclusive(ContainerLock(ContainerToStop(r.spec, r.stopBeforeBackup).value)))
              || (r.max.Some? && r.max.value > 0
                  && section == AnySlot(BackendKey(AppProfile(r, lib), lib), r.max.value))
  {
    hide ForApp, LockOfRepository, LockOfSource, BackendKey, ContainerToStop;
    var plan, slots := Plan(JobOf(r, lib)), SlotSections(LimitOf(r.max, AppProfile(r, lib), lib));
    var first := [Exclusive(LockOfRepository(AppProfile(r, lib)))];
    assert section in slots <==> r.max.Some? && r.max.value > 0
                                 && section == AnySlot(BackendKey(AppProfile(r, lib), lib), r.max.value);
    match r
    case BackupApp(_, _, spec, stop) =>
      var container := ContainerToStop(spec, stop);
      assert plan == first + slots + (if container.Some? then [Exclusive(ContainerLock(container.value))] else []);
    case RestoreSource(_, _, name, spec, source) =>
      assert plan == first + [Exclusive(LockOfSource(name, spec, source))] + slots;
    case PruneApp(_, _, _) => assert plan == first + slots;
  }

  lemma {:induction false} ApartIfNotKept(a: Request, b: Request, lib: Library, x: Section, y: Section)
    ensures !KeptApart(a, b, lib) && x in Plan(JobOf(a, lib)) && y in Plan(JobOf(b, lib)) ==> Apart(x, y)
  {
    hide ForApp, BackendKey, ContainerToStop, Plan, JobOf;
    PlanSections(a, lib, x);
    PlanSections(b, lib, y);
  }

  lemma {:induction false} KeptApartIff(a: Request, b: Request, lib: Library)
    ensures Compatible(ProgramOf(JobOf(a, lib)), ProgramOf(JobOf(b, lib))) <==> !KeptApart(a, b, lib)
  {
    hide ForApp, LockOfRepository, LockOfSource, BackendKey, ContainerToStop, Plan, JobOf;
    var p, q := Plan(JobOf(a, lib)), Plan(JobOf(b, lib));
    if KeptApart(a, b, lib) {
      var x, y := SharedSections(a, b, lib);
      var j, k :| 0 <= j < |p| && p[j] == x && 0 <= k < |q| && q[k] == y;
      assert !Apart(p[j], q[k]);
    } else {
      forall j, k | 0 <= j < |p| && 0 <= k < |q| ensures Apart(p[j], q[k]) {
        ApartIfNotKept(a, b, lib, p[j], q[k]);
      }
    }
  }

  lemma {:induction false} SharedSections(a: Request, b: Request, lib: Library) returns (x: Section, y: Section)
    requires KeptApart(a, b, lib)
    ensures x in Plan(JobOf(a, lib)) && y in Plan(JobOf(b, lib)) && !Apart(x, y)
  {
    hide ForApp, LockOfRepository, LockOfSource, BackendKey, ContainerToStop, Plan, JobOf;
    if SameRepository(a, b, lib) {
      x := Exclusive(LockOfRepository(AppProfile(a, lib)));
      y := x;
    } else if SameSource(a, b) {
      x := Exclusive(LockOfSource(a.profileName, a.spec, a.source));
      y := x;
    } else if SameContainer(a, b) {
      x := Exclusive(ContainerLock(ContainerToStop(a.spec, a.stopBeforeBackup).value));
      y := x;
    } else {
      x := AnySlot(BackendKey(AppProfile(a, lib), lib), 1);
      y := x;
    }
    PlanSections(a, lib, x);
    PlanSections(b, lib, y);
  }

  ghost predicate RunBoth(processes: seq<nat>, requests: seq<Request>, lib: Library, t: nat, u: nat)
    requires |processes| == |requests|
  {
    exists s :: BothAtWork(SystemOf(processes, requests, lib), s, t, u)
  }

  /** For any requests in any processes: two of them can be at work together exactly when they have no
      repository, restored source or stopped container in common and do not share a backend with room for one. */
  lemma {:induction false} OverlapIff(processes: seq<nat>, requests: seq<Request>, lib: Library, t: nat, u: nat)
    requires |processes| == |requests| && t < |requests| && u < |requests| && t != u
    ensures RunBoth(processes, requests, lib, t, u) <==> !KeptApart(requests[t], requests[u], lib)
  {
    RequestsAreValid(processes, requests, lib);
    WorkTogetherIff(SystemOf(processes, requests, lib), t, u);
    KeptApartIff(requests[t], requests[u], lib);
  }

  /** The same, counting workers that outlive their process: different processes are no longer kept apart. */
  lemma {:induction false} WorkersOverlapIff(processes: seq<nat>, requests: seq<Request>, lib: Library, t: nat, u: nat)
    requires |processes| == |requests| && t < |requests| && u < |requests| && t != u
    ensures (exists s :: BothRun(SystemOf(processes, requests, lib), s, t, u))
            <==> !KeptApart(requests[t], requests[u], lib) || processes[t] != processes[u]
  {
    RequestsAreValid(processes, requests, lib);
    RunTogetherIff(SystemOf(processes, requests, lib), t, u);
    KeptApartIff(requests[t], requests[u], lib);
  }

  /** The repository locks of two apps of one profile differ if the directories do. */
  lemma {:induction false} SameDirectory(p: Profile, app0: string, app1: string, lib: Library)
    requires Sound(lib) && !p.kind.Other?
    ensures LockOfRepository(ForApp(p, app0, lib)) == LockOfRepository(ForApp(p, app1, lib))
            <==> AppDir(app0, lib) == AppDir(app1, lib)
  {
    if AppDir(app0, lib) != AppDir(app1, lib) {
      DifferentDirectories(p, app0, app1, lib);
    }
  }

  lemma {:induction false} DifferentDirectories(p: Profile, app0: string, app1: string, lib: Library)
    requires Sound(lib) && !p.kind.Other? && AppDir(app0, lib) != AppDir(app1, lib)
    ensures LockOfRepository(ForApp(p, app0, lib)) != LockOfRepository(ForApp(p, app1, lib))
  {
    hide RepositoryLockKey, ForApp, AppDir, LockOfRepository, KeyOf;
    SameRepositoryLock(p, app0, app1, lib);
    var none := Spec("", "", false, "", "", "", [], None, [], []);
    KeysOfLocks("", none, Source("", "", "", "", "", false), ForApp(p, app0, lib), "");
    KeysOfLocks("", none, Source("", "", "", "", "", false), ForApp(p, app1, lib), "");
  }

  /** Jobs of one S3 or WebDAV profile, in the terms of the configuration. The repository is that of the app; lines
      187-191 of Volust's README speak of one for the node. */
  lemma {:induction false} ProfileOverlapIff(processes: seq<nat>, requests: seq<Request>, lib: Library, t: nat, u: nat)
    requires Sound(lib) && |processes| == |requests| && t < |requests| && u < |requests| && t != u
    requires requests[t].profile == requests[u].profile && !requests[t].profile.kind.Other?
    ensures var a, b := requests[t], requests[u];
            var dir0, dir1 := AppDir(AppOf(a), lib), AppDir(AppOf(b), lib);
            RunBoth(processes, requests, lib, t, u) <==>
              && dir0 != dir1 && !SameSource(a, b) && !SameContainer(a, b)
              && !(a.max == Some(1) && b.max == Some(1) && SharesBackend(a.profile, dir0, dir1, lib))
  {
    var a, b := requests[t], requests[u];
    OverlapIff(processes, requests, lib, t, u);
    SameDirectory(a.profile, AppOf(a), AppOf(b), lib);
    SharedBackendIff(a.profile, AppOf(a), AppOf(b), lib);
  }

  /** Backups of two apps under one profile, in one process or two, with the default limit of four: they can be at
      work together. */
  lemma {:induction false} TwoBackupsOverlap(p: Profile, spec0: Spec, spec1: Spec, q0: nat, q1: nat, lib: Library)
    requires Sound(lib) && !p.kind.Other?
    requires spec0.name == "blog" && spec1.name == "wiki" && spec0.stop == spec1.stop == Some(false)
    ensures RunBoth([q0, q1], [BackupApp(p, Some(4), spec0, false), BackupApp(p, Some(4), spec1, false)], lib, 0, 1)
  {
    hide RunBoth;
    var requests := [BackupApp(p, Some(4), spec0, false), BackupApp(p, Some(4), spec1, false)];
    AppDirFixed("blog", lib);
    AppDirFixed("wiki", lib);
    assert "blog"[0] != "wiki"[0];
    ProfileOverlapIff([q0, q1], requests, lib, 0, 1);
  }

  /** Two live jobs on one repository, whatever their profiles, are never inside all their locks together. */
  lemma {:induction false} DirectoryExclusion(processes: seq<nat>, requests: seq<Request>, lib: Library, s: State,
      t: nat, u: nat)
    requires |processes| == |requests| && t < |requests| && u < |requests|
    requires Reachable(SystemOf(processes, requests, lib), s)
    ensures AllFit(SystemOf(processes, requests, lib), s)
    ensures var sys := SystemOf(processes, requests, lib);
            SameRepository(requests[t], requests[u], lib) ==>
              InsideWorker(sys, s, t) && InsideWorker(sys, s, u) ==> t == u
  {
    var sys := SystemOf(processes, requests, lib);
    RequestsAreValid(processes, requests, lib);
    RepositoryExclusion(sys, s, t, u);
    assert SameRepository(requests[t], requests[u], lib) ==>
        RepositoryOf(sys[t].program) == RepositoryOf(sys[u].program);
  }

  /** Two requests on one repository have workers at once only if one worker outlived its process. */
  lemma {:induction false} RepositoryOverlap(processes: seq<nat>, requests: seq<Request>, lib: Library, s: State,
      t: nat, u: nat)
    requires |processes| == |requests| && t < |requests| && u < |requests| && t != u
    requires Reachable(SystemOf(processes, requests, lib), s)
    ensures WorkerRuns(s, t) && WorkerRuns(s, u) && SameRepository(requests[t], requests[u], lib) ==>
              (t in s.orphans || u in s.orphans) && processes[t] != processes[u]
  {
    var sys := SystemOf(processes, requests, lib);
    RequestsAreValid(processes, requests, lib);
    KeptApartIff(requests[t], requests[u], lib);
    if WorkerRuns(s, t) && WorkerRuns(s, u) && SameRepository(requests[t], requests[u], lib) {
      OnlyOrphansOverlap(sys, s, t, u);
    }
  }

  // ---- The write limit ----

  /** A request that writes to this backend, under a limiter of capacity 1 to m. */
  ghost predicate WritesTo(r: Request, backend: string, m: nat, lib: Library) {
    BackendKey(AppProfile(r, lib), lib) == backend && r.max.Some? && 0 < r.max.value <= m
  }

  lemma {:induction false} WriterCounts(r: Request, backend: string, m: nat, lib: Library)
    ensures UnderLimiter(ProgramOf(JobOf(r, lib)), backend, m) <==> WritesTo(r, backend, m, lib)
  {
    hide ForApp, LockOfRepository, LockOfSource, BackendKey, ContainerToStop;
    var plan := Plan(JobOf(r, lib));
    var k := if r.RestoreSource? then 2 else 1;
    assert WritesTo(r, backend, m, lib) ==> SlotOf(plan[k], backend, m);
  }

  /** The writers among some of the requests. */
  ghost function WritersAmong(requests: seq<Request>, ts: set<nat>, backend: string, m: nat, lib: Library): set<nat> {
    set t | t in ts && t < |requests| && WritesTo(requests[t], backend, m, lib)
  }

  lemma {:induction false} WritersAreLimited(processes: seq<nat>, requests: seq<Request>, lib: Library,
      ts: set<nat>, backend: string, m: nat)
    requires |processes| == |requests|
    ensures WritersAmong(requests, ts, backend, m, lib)
         == Limited(SystemOf(processes, requests, lib), ts, backend, m)
  {
    forall t | t in ts && t < |requests| ensures
      WritesTo(requests[t], backend, m, lib)
      <==> UnderLimiter(SystemOf(processes, requests, lib)[t].program, backend, m)
    {
      WriterCounts(requests[t], backend, m, lib);
    }
  }

  /** At most m jobs are inside their limiter and write to one backend at a time, counted over all apps, profiles,
      processes and kinds of jobs whose limiters have capacities from 1 to m; workers that outlived their process
      come on top, but the jobs of one process and the workers it left behind are never more than m. */
  lemma {:induction false} BackendBound(processes: seq<nat>, requests: seq<Request>, lib: Library, s: State,
      backend: string, m: nat, p: nat)
    requires |processes| == |requests| && Reachable(SystemOf(processes, requests, lib), s)
    ensures AllFit(SystemOf(processes, requests, lib), s)
    ensures |set t: nat | t < |requests| && Writing(SystemOf(processes, requests, lib), s, t, backend, m)|
            <= m + |WritersAmong(requests, s.orphans, backend, m, lib)|
    ensures |set t: nat | t < |requests| && processes[t] == p
                          && Writing(SystemOf(processes, requests, lib), s, t, backend, m)| <= m
  {
    hide Writing;
    var sys := SystemOf(processes, requests, lib);
    RequestsAreValid(processes, requests, lib);
    WriteBoundWithOrphans(sys, s, backend, m);
    WritersAreLimited(processes, requests, lib, s.orphans, backend, m);
    ProcessWriteBound(sys, s, backend, m, p);
    assert (set t: nat | t < |requests| && processes[t] == p && Writing(sys, s, t, backend, m))
        == set t: nat | t < |sys| && sys[t].process == p && Writing(sys, s, t, backend, m);
  }

  /** A job at work that writes to the backend is one of those that are counted. */
  lemma {:induction false} WorkersAreCounted(processes: seq<nat>, requests: seq<Request>, lib: Library, s: State,
      t: nat, backend: string, m: nat)
    requires |processes| == |requests| && Reachable(SystemOf(processes, requests, lib), s) && t < |requests|
    ensures AllFit(SystemOf(processes, requests, lib), s)
    ensures WorkerRuns(s, t) && WritesTo(requests[t], backend, m, lib) ==>
              Writing(SystemOf(processes, requests, lib), s, t, backend, m)
  {
    var sys := SystemOf(processes, requests, lib);
    RequestsAreValid(processes, requests, lib);
    ReachableInv(sys, s);
    WriterCounts(requests[t], backend, m, lib);
  }

  // ---- Sets of requests ----

  predicate SharesLock(a: Request, b: Request, lib: Library) {
    SameRepository(a, b, lib) || SameSource(a, b) || SameContainer(a, b)
  }

  /** No repository, restored source or stopped container in common, and for every backend and n at most n writers
      under limiters of capacity 1 to n. */
  ghost predicate GoTogether(requests: seq<Request>, ts: set<nat>, lib: Library) {
    && (forall t | t in ts :: t < |requests|)
    && (forall t, u | t in ts && u in ts && t != u :: !SharesLock(requests[t], requests[u], lib))
    && (forall backend, n: nat :: |WritersAmong(requests, ts, backend, n, lib)| <= n)
  }

  lemma {:induction false} SharesLockIff(a: Request, b: Request, lib: Library)
    ensures NoSharedLock(ProgramOf(JobOf(a, lib)), ProgramOf(JobOf(b, lib))) <==> !SharesLock(a, b, lib)
  {
    hide ForApp, LockOfRepository, LockOfSource, BackendKey, ContainerToStop, Plan, JobOf;
    var p, q := Plan(JobOf(a, lib)), Plan(JobOf(b, lib));
    if SharesLock(a, b, lib) {
      var x := SharedLock(a, b, lib);
      var j, k :| 0 <= j < |p| && p[j] == x && 0 <= k < |q| && q[k] == x;
      assert !NoSharedLock(ProgramOf(JobOf(a, lib)), ProgramOf(JobOf(b, lib)));
    } else {
      forall j, k | 0 <= j < |p| && 0 <= k < |q| && p[j].Exclusive? && q[k].Exclusive? ensures p[j] != q[k] {
        NotShared(a, b, lib, p[j]);
      }
    }
  }

  lemma {:induction false} SharedLock(a: Request, b: Request, lib: Library) returns (x: Section)
    requires SharesLock(a, b, lib)
    ensures x in Plan(JobOf(a, lib)) && x in Plan(JobOf(b, lib)) && x.Exclusive?
  {
    hide ForApp, LockOfRepository, LockOfSource, BackendKey, ContainerToStop, Plan, JobOf;
    x := if SameRepository(a, b, lib) then Exclusive(LockOfRepository(AppProfile(a, lib)))
         else if SameSource(a, b) then Exclusive(LockOfSource(a.profileName, a.spec, a.source))
         else Exclusive(ContainerLock(ContainerToStop(a.spec, a.stopBeforeBackup).value));
    PlanSections(a, lib, x);
    PlanSections(b, lib, x);
  }

  lemma {:induction false} NotShared(a: Request, b: Request, lib: Library, x: Section)
    ensures !SharesLock(a, b, lib) && x.Exclusive? && x in Plan(JobOf(a, lib)) ==> x !in Plan(JobOf(b, lib))
  {
    hide ForApp, BackendKey, ContainerToStop, Plan, JobOf;
    PlanSections(a, lib, x);
    PlanSections(b, lib, x);
  }

  lemma {:induction false} TogetherIff(processes: seq<nat>, requests: seq<Request>, lib: Library, ts: set<nat>)
    requires |processes| == |requests|
    ensures Together(SystemOf(processes, requests, lib), ts) <==> GoTogether(requests, ts, lib)
  {
    hide SharesLock, NoSharedLock, WritersAmong, Limited;
    var sys := SystemOf(processes, requests, lib);
    forall t, u | t in ts && u in ts && t < |requests| && u < |requests|
      ensures NoSharedLock(sys[t].program, sys[u].program) <==> !SharesLock(requests[t], requests[u], lib)
    {
      SharesLockIff(requests[t], requests[u], lib);
    }
    forall backend, n: nat
      ensures WritersAmong(requests, ts, backend, n, lib) == Limited(sys, ts, backend, n)
    {
      WritersAreLimited(processes, requests, lib, ts, backend, n);
    }
  }

  /** Any set of requests can be at work at once exactly when it goes together. */
  lemma {:induction false} RequestsAtWorkIff(processes: seq<nat>, requests: seq<Request>, lib: Library, ts: set<nat>)
    requires |processes| == |requests| && forall t | t in ts :: t < |requests|
    ensures (exists s :: AllAtWork(SystemOf(processes, requests, lib), s, ts)) <==> GoTogether(requests, ts, lib)
  {
    RequestsAreValid(processes, requests, lib);
    SetAtWorkIff(SystemOf(processes, requests, lib), ts);
    TogetherIff(processes, requests, lib, ts);
  }

  /** Counting workers that outlive their process: exactly when the requests of each process go together. */
  lemma {:induction false} RequestsRunIff(processes: seq<nat>, requests: seq<Request>, lib: Library, ts: set<nat>)
    requires |processes| == |requests| && forall t | t in ts :: t < |requests|
    ensures (exists s :: AllRun(SystemOf(processes, requests, lib), s, ts))
            <==> forall p: nat :: GoTogether(requests, OfProcess(SystemOf(processes, requests, lib), ts, p), lib)
  {
    var sys := SystemOf(processes, requests, lib);
    RequestsAreValid(processes, requests, lib);
    SetRunsIff(sys, ts);
    forall p: nat ensures Together(sys, OfProcess(sys, ts, p)) <==> GoTogether(requests, OfProcess(sys, ts, p), lib) {
      TogetherIff(processes, requests, lib, OfProcess(sys, ts, p));
    }
  }

  // ---- A daemon and its successor ----

  /** Backups of some apps of one profile, under a limit of m. */
  function BackupsOf(p: Profile, m: int, specs: seq<Spec>): (r: seq<Request>)
    ensures |r| == |specs|
  {
    seq(|specs|, i requires 0 <= i < |specs| => BackupApp(p, Some(m), specs[i], false))
  }

  function Numbers(a: nat, b: nat): (r: set<nat>)
    requires a <= b
    ensures |r| == b - a && forall i :: i in r <==> a <= i < b
    decreases b - a
  {
    if a == b then {} else Numbers(a + 1, b) + {a}
  }

  ghost predicate DifferentDirectoriesAll(specs: seq<Spec>, lib: Library) {
    forall i, j | 0 <= i < j < |specs| :: AppDir(specs[i].name, lib) != AppDir(specs[j].name, lib)
  }

  /** Backups of m apps with different directories, none of which stops its container, go together under limit m. */
  lemma {:induction false} BackupsGoTogether(p: Profile, m: nat, specs: seq<Spec>, requests: seq<Request>, a: nat,
      lib: Library)
    requires Sound(lib) && !p.kind.Other? && m > 0 && |specs| == m
    requires DifferentDirectoriesAll(specs, lib) && forall i | 0 <= i < m :: ContainerToStop(specs[i], false).None?
    requires a + m <= |requests|
    requires forall t: nat | a <= t < a + m :: requests[t] == BackupApp(p, Some(m), specs[t - a], false)
    ensures GoTogether(requests, Numbers(a, a + m), lib)
  {
    hide ContainerToStop, ForApp, AppDir, BackendKey, LockOfRepository;
    var ts := Numbers(a, a + m);
    forall t, u | t in ts && u in ts && t != u ensures !SharesLock(requests[t], requests[u], lib) {
      SameDirectory(p, specs[t - a].name, specs[u - a].name, lib);
      var i, j := if t < u then t - a else u - a, if t < u then u - a else t - a;
      assert AppDir(specs[i].name, lib) != AppDir(specs[j].name, lib);
    }
    forall backend, n: nat ensures |WritersAmong(requests, ts, backend, n, lib)| <= n {
      var writers := WritersAmong(requests, ts, backend, n, lib);
      SubsetSize(writers, ts);
      assert n < m ==> writers == {};
    }
  }

  /** The backups of a daemon, and the same of the one that follows it. */
  function Doubled(p: Profile, m: int, specs: seq<Spec>): (r: seq<Request>)
    ensures |r| == 2 * |specs|
  {
    BackupsOf(p, m, specs) + BackupsOf(p, m, specs)
  }

  function TwoDaemons(m: nat): (processes: seq<nat>)
    ensures |processes| == 2 * m && forall i | 0 <= i < 2 * m :: processes[i] == if i < m then 0 else 1
  {
    seq(2 * m, i => if i < m then 0 else 1)
  }

  lemma {:induction false} DoubledWrite(p: Profile, m: nat, specs: seq<Spec>, lib: Library, t: nat)
    requires Sound(lib) && m > 0 && |specs| == m && t < 2 * m && KeepsBackend(p)
    ensures WritesTo(Doubled(p, m, specs)[t], BackendKey(p, lib), m, lib)
  {
    ForAppKeepsBackend(p, AppOf(Doubled(p, m, specs)[t]), lib);
  }

  /** parseS3RepositoryRoot accepts the repository, or there is nothing to parse. */
  predicate KeepsBackend(p: Profile) {
    p.kind.S3? ==> ParseS3Root(p.repository).Some?
  }

  lemma {:induction false} DoubledAt(p: Profile, m: nat, specs: seq<Spec>, t: nat)
    requires |specs| == m && t < 2 * m
    ensures Doubled(p, m, specs)[t] == BackupApp(p, Some(m), specs[if t < m then t else t - m], false)
  {
  }

  lemma {:induction false} DoubledTogether(p: Profile, m: nat, specs: seq<Spec>, lib: Library)
    requires Sound(lib) && !p.kind.Other? && m > 0 && |specs| == m
    requires DifferentDirectoriesAll(specs, lib) && forall i | 0 <= i < m :: ContainerToStop(specs[i], false).None?
    ensures GoTogether(Doubled(p, m, specs), Numbers(0, m), lib)
    ensures GoTogether(Doubled(p, m, specs), Numbers(m, 2 * m), lib)
  {
    hide GoTogether, DifferentDirectoriesAll, ContainerToStop, BackupsOf, Doubled, Sound, Numbers;
    var requests := Doubled(p, m, specs);
    forall t: nat | t < 2 * m ensures requests[t] == BackupApp(p, Some(m), specs[if t < m then t else t - m], false) {
      DoubledAt(p, m, specs, t);
    }
    BackupsGoTogether(p, m, specs, requests, 0, lib);
    BackupsGoTogether(p, m, specs, requests, m, lib);
  }

  /** The limit is overrun by a daemon that dies and the one that follows it: with a limit of m, m backups of the
      first leave their workers behind, and m backups of the second, of the same apps even, run beside them. By
      default that makes eight writers on one backend where four are allowed. */
  lemma {:induction false} SuccessorDoubles(p: Profile, m: nat, specs: seq<Spec>, lib: Library) returns (s: State)
    requires Sound(lib) && !p.kind.Other? && m > 0 && |specs| == m
    requires DifferentDirectoriesAll(specs, lib) && forall i | 0 <= i < m :: ContainerToStop(specs[i], false).None?
    ensures var ts := Numbers(0, 2 * m);
            && |ts| == 2 * m && AllRun(SystemOf(TwoDaemons(m), Doubled(p, m, specs), lib), s, ts)
            && (KeepsBackend(p) ==> WritersAmong(Doubled(p, m, specs), ts, BackendKey(p, lib), m, lib) == ts)
  {
    hide GoTogether, Together, AllRun, WritesTo, BackendKey, DifferentDirectoriesAll, ContainerToStop, KeepsBackend,
      Numbers, ProgramOf, JobOf, Doubled;
    var processes, requests := TwoDaemons(m), Doubled(p, m, specs);
    var sys := SystemOf(processes, requests, lib);
    var first, second, ts := Numbers(0, m), Numbers(m, 2 * m), Numbers(0, 2 * m);
    RequestsAreValid(processes, requests, lib);
    DoubledTogether(p, m, specs, lib);
    TogetherIff(processes, requests, lib, first);
    TogetherIff(processes, requests, lib, second);
    s := TwoProcesses(sys, first, second, 0, 1);
    assert first + second == ts;
    if KeepsBackend(p) {
      forall t | t in ts ensures WritesTo(requests[t], BackendKey(p, lib), m, lib) {
        DoubledWrite(p, m, specs, lib, t);
      }
    }
  }

  function SpecOf(app: string): Spec {
    Spec("", "", false, app, "", "", [], None, [], [])
  }

  /** Four apps under the default limit of four: eight workers run on a backend that four may write to. */
  lemma {:induction false} EightWriters(p: Profile, lib: Library) returns (s: State)
    requires Sound(lib) && !p.kind.Other? && KeepsBackend(p)
    ensures var requests := Doubled(p, 4, [SpecOf("a"), SpecOf("b"), SpecOf("c"), SpecOf("d")]);
            var writers := WritersAmong(requests, Numbers(0, 8), BackendKey(p, lib), 4, lib);
            |writers| == 8 && AllRun(SystemOf(TwoDaemons(4), requests, lib), s, writers)
  {
    hide AllRun, WritesTo, BackendKey, WritersAmong, KeepsBackend, AppDir;
    var specs := [SpecOf("a"), SpecOf("b"), SpecOf("c"), SpecOf("d")];
    var names := ["a", "b", "c", "d"];
    forall i | 0 <= i < 4 ensures specs[i].name == names[i] && AppDir(names[i], lib) == names[i] {
      AppDirFixed(names[i], lib);
    }
    forall i, j | 0 <= i < j < 4 ensures names[i] != names[j] {
      assert names[i][0] != names[j][0];
    }
    s := SuccessorDoubles(p, 4, specs, lib);
  }
}
