/** The section of a restore that runs under its locks: containers that use the source are stopped, a worker
    takes a safety backup and restores, and the containers are started again (internal/app/app.go,
    stopMountedContainers, restoreWithStoppedContainers, restartContainers, resolveSnapshot).
    Docker and the repository are a state whose operations succeed or fail at will. */
module Restoring {
  import opened Text
  import opened Sources
  import opened Restic
  import opened Snapshots

  datatype Container = Container(id: string, running: bool, mounts: seq<Mount>)

  /** Contents of a volume are only ever copied and compared. */
  type Content = int

  /** A snapshot of one path. */
  datatype Stored = Stored(snapshot: Snapshot, path: string, content: Content)

  datatype Event =
    | Stop(id: string, ok: bool)
    | Worker(ok: bool)
    | Backup(ok: bool)
    | Restore(ok: bool)
    | Start(id: string, ok: bool)

  /** The parts of an error value; the empty list is nil. */
  datatype Failure = ListFailure | StopFailure(id: string) | ExcludesFailure | WorkerFailure | StartFailure(id: string)

  datatype Command = BackupCommand(spec: Spec, source: Source) | RestoreCommand(request: RestoreRequest)

  // ---- The users of a source ----

  ghost predicate MountUses(mount: Mount, source: Source) {
    && mount.kind == source.kind
    && if source.kind == "volume" then mount.name != "" && mount.name == source.volumeName
       else mount.source != "" && mount.source == source.hostSource
  }

  method UsesSource(container: Container, source: Source) returns (uses: bool)
    ensures uses <==> exists m | m in container.mounts :: MountUses(m, source)
  {
    for i := 0 to |container.mounts|
      invariant forall j | 0 <= j < i :: !MountUses(container.mounts[j], source)
    {
      var mount := container.mounts[i];
      if mount.kind != source.kind {
        continue;
      }
      if source.kind == "volume" && mount.name != "" && mount.name == source.volumeName {
        assert MountUses(container.mounts[i], source);
        return true;
      }
      if source.kind != "volume" && mount.source != "" && mount.source == source.hostSource {
        assert MountUses(container.mounts[i], source);
        return true;
      }
    }
    return false;
  }

  ghost predicate IsUser(container: Container, source: Source) {
    container.running && container.id != "" && exists m | m in container.mounts :: MountUses(m, source)
  }

  /** The ids of the running containers that use the source, in listing order. */
  ghost function Users(listed: seq<Container>, source: Source): seq<string> {
    if listed == [] then []
    else
      var last := listed[|listed| - 1];
      Users(listed[..|listed| - 1], source) + (if IsUser(last, source) then [last.id] else [])
  }

  lemma {:induction false} UsersPrefix(listed: seq<Container>, i: nat, source: Source)
    requires i <= |listed|
    ensures Users(listed[..i], source) <= Users(listed, source)
    decreases |listed|
  {
    if i < |listed| {
      var shorter := listed[..|listed| - 1];
      assert shorter[..i] == listed[..i];
      UsersPrefix(shorter, i, source);
    } else {
      assert listed[..i] == listed;
    }
  }

  /** The running container that a source was resolved from is among its users: a restore stops it. */
  lemma {:induction false} OwnContainerIsUser(listed: seq<Container>, i: nat, mount: Mount, source: Source,
      path: string)
    requires i < |listed| && listed[i].running && listed[i].id != ""
    requires mount in listed[i].mounts && StandsFor(source, path, mount)
    requires if mount.kind == "volume" then mount.name != "" else mount.source != ""
    ensures listed[i].id in Users(listed, source)
    decreases |listed|
  {
    var n := |listed| - 1;
    if i < n {
      OwnContainerIsUser(listed[..n], i, mount, source, path);
    } else {
      assert MountUses(mount, source) && IsUser(listed[n], source);
    }
  }

  // ---- Traces ----

  ghost function Stops(ids: seq<string>): seq<Event> {
    seq(|ids|, i requires 0 <= i < |ids| => Stop(ids[i], true))
  }

  /** Start attempts from the last id backwards, one for each result. */
  ghost function Starts(ids: seq<string>, results: seq<bool>): (events: seq<Event>)
    requires |results| <= |ids|
    ensures |events| == |results|
    ensures forall i | 0 <= i < |events| :: events[i] == Start(ids[|ids| - 1 - i], results[i])
  {
    seq(|results|, i requires 0 <= i < |results| => Start(ids[|ids| - 1 - i], results[i]))
  }

  ghost function StartFailures(ids: seq<string>, results: seq<bool>): seq<Failure>
    requires |results| <= |ids|
  {
    if results == [] then []
    else
      var n := |results| - 1;
      StartFailures(ids, results[..n]) + (if results[n] then [] else [StartFailure(ids[|ids| - 1 - n])])
  }

  ghost function SetOf(ids: seq<string>): set<string> {
    set id | id in ids
  }

  ghost function FailedStarts(ids: seq<string>, results: seq<bool>): set<string>
    requires |results| <= |ids|
  {
    set i | 0 <= i < |results| && !results[i] :: ids[|ids| - 1 - i]
  }

  lemma {:induction false} NoStarts(ids: seq<string>)
    ensures Starts(ids, []) == [] && StartFailures(ids, []) == []
  {
  }

  lemma {:induction false} OneMoreStart(ids: seq<string>, results: seq<bool>, ok: bool)
    requires |results| < |ids|
    ensures FailedStarts(ids, results + [ok])
         == FailedStarts(ids, results) + (if ok then {} else {ids[|ids| - 1 - |results|]})
    ensures StartFailures(ids, results + [ok])
         == StartFailures(ids, results) + (if ok then [] else [StartFailure(ids[|ids| - 1 - |results|])])
    ensures Starts(ids, results + [ok]) == Starts(ids, results) + [Start(ids[|ids| - 1 - |results|], ok)]
  {
    assert (results + [ok])[..|results|] == results;
    var longer := results + [ok];
    assert longer[|results|] == ok && forall i | 0 <= i < |results| :: longer[i] == results[i];
    forall id | id in FailedStarts(ids, results) ensures id in FailedStarts(ids, longer) {
      var i :| 0 <= i < |results| && !results[i] && ids[|ids| - 1 - i] == id;
      assert !longer[i];
    }
  }

  ghost predicate AllTrue(results: seq<bool>) {
    forall i | 0 <= i < |results| :: results[i]
  }

  lemma {:induction false} NoStartFailure(ids: seq<string>, results: seq<bool>)
    requires |results| <= |ids|
    ensures StartFailures(ids, results) == [] <==> AllTrue(results)
  {
    if results != [] {
      NoStartFailure(ids, results[..|results| - 1]);
    }
  }

  /** What a worker of a restore may do: not start, fail in the safety backup, or reach the restore. */
  ghost predicate WorkerTrace(events: seq<Event>, safety: bool) {
    || events == [Worker(false)]
    || (safety && events == [Worker(true), Backup(false)])
    || (exists ok :: events == (if safety then [Worker(true), Backup(true)] else [Worker(true)]) + [Restore(ok)])
  }

  ghost predicate Restored(events: seq<Event>) {
    events != [] && events[|events| - 1] == Restore(true)
  }

  /** How a restore went: how many users were stopped, what the worker did, how the starts ended. */
  datatype History = History(stopped: nat, worker: seq<Event>, results: seq<bool>)

  /** The worker is reached only with all users stopped, and every stopped one gets one start attempt. */
  ghost predicate Compensated(users: seq<string>, h: History, safety: bool) {
    && h.stopped <= |users| && |h.results| == h.stopped
    && (h.stopped < |users| ==> h.worker == [])
    && (h.worker == [] || WorkerTrace(h.worker, safety))
  }

  ghost predicate RestoredBy(users: seq<string>, h: History, before: seq<Event>, after: seq<Event>) {
    h.stopped <= |users| && |h.results| == h.stopped && Restored(h.worker) && after == before + Trace(users, h)
  }

  ghost function Trace(users: seq<string>, h: History): seq<Event>
    requires h.stopped <= |users| && |h.results| == h.stopped
  {
    Stops(users[..h.stopped])
    + (if h.stopped < |users| then [Stop(users[h.stopped], false)] else [])
    + h.worker
    + Starts(users[..h.stopped], h.results)
  }

  lemma {:induction false} TraceIs(before: seq<Event>, users: seq<string>, h: History, stopped: seq<string>)
    requires stopped <= users && h.stopped == |stopped| == |h.results|
    ensures users[..h.stopped] == stopped
    ensures h.stopped == |users| ==>
              before + Trace(users, h) == before + Stops(stopped) + h.worker + Starts(stopped, h.results)
    ensures h.stopped < |users| && h.worker == [] ==>
              before + Trace(users, h)
              == before + Stops(stopped) + [Stop(users[h.stopped], false)] + Starts(stopped, h.results)
  {
    var stops, starts := Stops(stopped), Starts(stopped, h.results);
    assert users[..h.stopped] == stopped;
    if h.stopped == |users| {
      assert Trace(users, h) == stops + h.worker + starts;
    } else if h.worker == [] {
      assert Trace(users, h) == stops + [Stop(users[h.stopped], false)] + starts;
    }
  }

  // ---- Snapshot names ----

  /** Restic finds a snapshot by a prefix of its id. */
  ghost predicate Named(s: Stored, name: string) {
    name <= s.snapshot.id
  }

  /** The one snapshot a name stands for; restic refuses a name that stands for several or for none. */
  ghost predicate Denotes(stored: seq<Stored>, name: string, i: nat) {
    i < |stored| && Named(stored[i], name) && forall j | 0 <= j < |stored| && Named(stored[j], name) :: j == i
  }

  /** The one snapshot of this name, and it holds the path. */
  ghost predicate Serves(stored: seq<Stored>, name: string, path: string, i: nat) {
    Denotes(stored, name, i) && stored[i].path == path
  }

  ghost predicate CanRestore(stored: seq<Stored>, name: string, path: string) {
    exists i: nat :: Serves(stored, name, path, i)
  }

  ghost predicate RestoredFrom(stored: seq<Stored>, name: string, path: string, content: Content) {
    exists i: nat :: Serves(stored, name, path, i) && content == stored[i].content
  }

  ghost predicate Hexadecimal(s: string) {
    forall c | c in s :: c in "0123456789abcdef"
  }

  /** Ids are hexadecimal, and a short id, where there is one, is a prefix of the id. */
  ghost predicate WellNamed(s: Snapshot) {
    Hexadecimal(s.id) && s.shortID <= s.id
  }

  lemma {:induction false} NameOfSnapshot(s: Snapshot)
    requires WellNamed(s)
    ensures SnapshotID(s) <= s.id && SnapshotID(s) != "latest"
  {
    assert s.id != "" ==> s.id[0] in s.id;
  }

  /** Short ids of one length. */
  ghost predicate ShortIds(stored: seq<Stored>, length: nat) {
    forall i | 0 <= i < |stored| :: |stored[i].snapshot.shortID| == length > 0
  }

  /** Where all snapshots have short ids of one length, a snapshot goes by its short id, and that name denotes it and
      nothing else exactly if no other has its short id. */
  lemma {:induction false} NameDenotesIff(stored: seq<Stored>, length: nat, i: nat)
    requires ShortIds(stored, length) && (forall j | 0 <= j < |stored| :: WellNamed(stored[j].snapshot)) && i < |stored|
    ensures SnapshotID(stored[i].snapshot) == stored[i].snapshot.shortID
    ensures Denotes(stored, SnapshotID(stored[i].snapshot), i)
       <==> forall j | 0 <= j < |stored| && j != i :: stored[j].snapshot.shortID != stored[i].snapshot.shortID
  {
    var name := stored[i].snapshot.shortID;
    forall j | 0 <= j < |stored| ensures Named(stored[j], name) <==> stored[j].snapshot.shortID == name {
      var s := stored[j].snapshot;
      assert s.shortID == s.id[..length];
      assert name <= s.id ==> name == s.id[..length];
    }
  }

  /** A candidate, as the code that lists and selects candidates builds it. */
  function Request(spec: Spec, source: Source, snapshotID: string): RestoreRequest {
    RestoreRequest(snapshotID, spec.name, spec.containerName, spec.profile, source.id, TARGET)
  }

  /** Where a worker mounts the volume that it restores. */
  const TARGET: string := "/volust/target"

  /** A restore of a source asks for the path and for the tags that its backups store. */
  lemma {:induction false} RequestAsksForSource(spec: Spec, source: Source, snapshotID: string)
    requires spec.name != "" && spec.containerName != "" && spec.profile != "" && source.id != ""
    ensures var request := Request(spec, source, snapshotID);
            && request.snapshotID == snapshotID && request.target == "/volust/target"
            && RequestSourcePath(request) == SourcePath(spec, source)
            && RequestTags(request) == SnapshotTags(spec, source.id)
  {
  }

  function WantedOf(spec: Spec, source: Source): Wanted {
    Wanted(spec.name, spec.containerName, spec.profile, source.id)
  }

  /** Of the snapshots that backups made, a restore looks for those of its own source alone. */
  lemma {:induction false} WantsOwnSource(spec: Spec, source: Source, s: Snapshot, other: Spec, id: string)
    requires s.tags == SnapshotTags(other, id) && spec.containerName != ""
    ensures Matches(s, WantedOf(spec, source)) <==>
              && other.name == spec.name && other.containerName == spec.containerName
              && other.profile == spec.profile && id == source.id
  {
    SnapshotIdentity(s, other, id, WantedOf(spec, source));
  }

  ghost predicate Earlier(a: string, b: string) {
    StrLe(a, b) && a != b
  }

  /** LoadExcludeFiles adds the patterns it read. */
  function Effective(spec: Spec, patterns: Option<seq<string>>): Spec {
    spec.(excludes := spec.excludes + patterns.GetOr([]))
  }

  ghost predicate Newest(stored: seq<Stored>, w: Wanted, i: nat) {
    && i < |stored| && Matches(stored[i].snapshot, w)
    && forall j | 0 <= j < |stored| && Matches(stored[j].snapshot, w) ::
         StrLe(stored[j].snapshot.time, stored[i].snapshot.time)
  }

  /** Snapshot i is a newest matching one, and `name` is its name. */
  ghost predicate Pins(stored: seq<Stored>, w: Wanted, name: string, i: nat) {
    Newest(stored, w, i) && name == SnapshotID(stored[i].snapshot)
  }

  ghost predicate ListsNewest(stored: seq<Stored>, listed: seq<Snapshot>, w: Wanted) {
    || (forall s | s in listed :: !Matches(s, w))
    || (exists i: nat :: Newest(stored, w, i) && stored[i].snapshot in listed)
  }

  /** What a query for snapshots of this source may list. */
  ghost predicate Answers(stored: seq<Stored>, listed: seq<Snapshot>, w: Wanted, snapshotID: string) {
    && (forall s | s in listed :: exists i | 0 <= i < |stored| :: stored[i].snapshot == s)
    && (if snapshotID == "latest" then ListsNewest(stored, listed, w) else forall s | s in listed :: snapshotID <= s.id)
  }

  /** No listed snapshot matches, or a newest of those that do has no id. */
  ghost predicate NothingToPin(listed: seq<Snapshot>, w: Wanted) {
    || (forall s | s in listed :: !Matches(s, w))
    || (exists s | s in listed :: Matches(s, w) && SnapshotID(s) == ""
                               && forall other | other in listed && Matches(other, w) :: StrLe(other.time, s.time))
  }

  lemma {:induction false} NewestListed(stored: seq<Stored>, listed: seq<Snapshot>, latest: Snapshot, w: Wanted)
    requires ListsNewest(stored, listed, w)
    requires forall s | s in listed :: exists i | 0 <= i < |stored| :: stored[i].snapshot == s
    requires latest in listed && Matches(latest, w)
    requires forall s | s in listed && Matches(s, w) :: StrLe(s.time, latest.time)
    ensures exists i: nat :: Pins(stored, w, SnapshotID(latest), i) && stored[i].snapshot == latest
  {
    var n: nat :| Newest(stored, w, n) && stored[n].snapshot in listed;
    var i: nat :| i < |stored| && stored[i].snapshot == latest;
    forall j | 0 <= j < |stored| && Matches(stored[j].snapshot, w)
      ensures StrLe(stored[j].snapshot.time, latest.time)
    {
      StrLeTransitive(stored[j].snapshot.time, stored[n].snapshot.time, latest.time);
    }
    assert Pins(stored, w, SnapshotID(latest), i);
  }

  datatype View = View(running: set<string>, volume: Content, stored: seq<Stored>, ticks: nat, log: seq<Event>)

  /** What a restore meets. The n-th snapshot ever made gets id names(n) and time clock(n). After each log of calls
      `replies` says whether the next one succeeds, and `lists` what restic answers to a query for snapshots, if it
      answers. What a backup keeps of a volume is up to its excludes. If `gentle`, a stop that fails leaves the
      container running. */
  datatype Setting = Setting(
    clock: nat -> string, names: nat -> string, gentle: bool, replies: seq<Event> -> bool,
    lists: (seq<Event>, seq<Stored>, Wanted, string) -> Option<seq<Snapshot>>, keeps: (seq<string>, Content) -> Content)
  {
    /** Restic lists stored snapshots only. Asked for "latest", it lists a newest matching one if it lists a matching
        one at all: it may answer with all snapshots or with one. */
    ghost predicate Sound() {
      && (forall n :: Hexadecimal(names(n)))
      && (forall content :: keeps([], content) == content)
      && (forall log, stored, w, id | lists(log, stored, w, id).Some? ::
            Answers(stored, lists(log, stored, w, id).value, w, id))
    }

    function Taken(spec: Spec, source: Source, tick: nat): Snapshot {
      var id := names(tick);
      Snapshot(id, if |id| > 8 then id[..8] else id, clock(tick), SnapshotTags(spec, source.id))
    }

    /** One snapshot was added: it holds what the excludes keep of `content`. */
    ghost predicate Saved(before: seq<Stored>, after: seq<Stored>, spec: Spec, source: Source, tick: nat,
                          content: Content)
    {
      && |after| == |before| + 1 && before <= after
      && after[|before|].snapshot == Taken(spec, source, tick) && after[|before|].path == SourcePath(spec, source)
      && after[|before|].content == keeps(spec.excludes, content)
    }

    /** Every call ended as Docker replied; none of them was a restore. */
    ghost predicate Answered(before: seq<Event>, after: seq<Event>) {
      && before <= after
      && forall i | |before| <= i < |after| :: after[i].ok == replies(after[..i]) && !after[i].Restore?
    }

    lemma {:induction false} AnsweredOneMore(before: seq<Event>, log: seq<Event>, e: Event)
      requires Answered(before, log) && e.ok == replies(log) && !e.Restore?
      ensures Answered(before, log + [e])
    {
      var longer := log + [e];
      assert longer[..|log|] == log;
      assert forall i | |before| <= i < |log| :: longer[..i] == log[..i];
    }

    lemma {:induction false} AnsweredIsReplied(before: seq<Event>, after: seq<Event>, canRestore: bool)
      requires Answered(before, after)
      ensures Replied(before, after, canRestore)
    {
    }

    lemma {:induction false} RepliedThenReplied(a: seq<Event>, b: seq<Event>, c: seq<Event>, canRestore: bool)
      requires Replied(a, b, canRestore) && Replied(b, c, canRestore)
      ensures Replied(a, c, canRestore)
    {
      assert forall i | |a| <= i < |b| :: c[..i] == b[..i] && c[i] == b[i];
    }

    lemma {:induction false} AnsweredThenAnswered(a: seq<Event>, b: seq<Event>, c: seq<Event>)
      requires Answered(a, b) && Answered(b, c)
      ensures Answered(a, c)
    {
      assert forall i | |a| <= i < |b| :: c[..i] == b[..i] && c[i] == b[i];
    }

    lemma {:induction false} RepliedOneMore(before: seq<Event>, log: seq<Event>, e: Event, canRestore: bool)
      requires Replied(before, log, canRestore) && e.ok == (replies(log) && (e.Restore? ==> canRestore))
      ensures Replied(before, log + [e], canRestore)
    {
      var longer := log + [e];
      assert longer[..|log|] == log;
      assert forall i | |before| <= i < |log| :: longer[..i] == log[..i];
    }

    /** Every call ended as Docker or restic replied. A restore needs a snapshot as well. */
    ghost predicate Replied(before: seq<Event>, after: seq<Event>, canRestore: bool) {
      && before <= after
      && forall i | |before| <= i < |after| ::
           after[i].ok == (replies(after[..i]) && (after[i].Restore? ==> canRestore))
    }

    /** What a restore does under its locks, for every pattern of failures. The users of the source are stopped in
        order up to the first failure, the worker runs only if all of them stopped, and what was stopped is started
        again, last first, each once. There is no error exactly when nothing failed. Only a container whose own
        start, or own stop, failed can end up down. The volume changes only after its old content was saved,
        unless the safety backup was skipped. */
    ghost predicate Restores(was: View, now: View, listed: Option<seq<Container>>, spec: Spec, source: Source,
                             snapshotID: string, skipPreBackup: bool, patterns: Option<seq<string>>,
                             err: seq<Failure>, h: History)
    {
      && was.stored <= now.stored && now.ticks >= was.ticks
      && Replied(was.log, now.log, CanRestore(now.stored, snapshotID, SourcePath(spec, source)))
      && (listed.None? ==> err == [ListFailure] && now == was)
      && (listed.Some? ==>
            var users := Users(listed.value, source);
            && Compensated(users, h, !skipPreBackup)
            && now.log == was.log + Trace(users, h)
            && (h.worker == [] <==> h.stopped < |users| || (!skipPreBackup && patterns.None?))
            && (err == [] <==> h.stopped == |users| && Restored(h.worker) && AllTrue(h.results))
            && (SetOf(users) <= was.running ==> now.running <= was.running)
            && was.running - now.running <= FailedStarts(users[..h.stopped], h.results)
                 + (if gentle || h.stopped == |users| then {} else {users[h.stopped]}))
      && ((now.volume != was.volume || err == []) && !skipPreBackup ==>
            && patterns.Some? && now.ticks == was.ticks + 1
            && Saved(was.stored, now.stored, spec.(excludes := spec.excludes + patterns.value), source, was.ticks,
                     was.volume))
      && (skipPreBackup ==> now.stored == was.stored && now.ticks == was.ticks)
      && (err == [] ==> RestoredFrom(now.stored, snapshotID, SourcePath(spec, source), now.volume))
    }
  }

  ghost predicate SomeFailed(events: seq<Event>) {
    exists i | 0 <= i < |events| :: !events[i].ok
  }

  /** A restore that fails has a cause: the listing, the exclude files, or a call that failed. */
  lemma {:induction false} ErrorHasCause(setting: Setting, was: View, now: View, listed: Option<seq<Container>>,
      spec: Spec, source: Source, snapshotID: string, skipPreBackup: bool, patterns: Option<seq<string>>,
      err: seq<Failure>, h: History)
    requires setting.Restores(was, now, listed, spec, source, snapshotID, skipPreBackup, patterns, err, h)
    requires listed.Some? && (skipPreBackup || patterns.Some?)
    ensures err != [] <==> SomeFailed(Trace(Users(listed.value, source), h))
  {
    hide FailedStarts, Setting.Replied, Setting.Saved, RestoredFrom, Stops, Starts;
    var users := Users(listed.value, source);
    var stops, starts := Stops(users[..h.stopped]), Starts(users[..h.stopped], h.results);
    var refused := if h.stopped < |users| then [Stop(users[h.stopped], false)] else [];
    assert Trace(users, h) == stops + refused + h.worker + starts;
    FailedParts(stops, refused);
    FailedParts(stops + refused, h.worker);
    FailedParts(stops + refused + h.worker, starts);
    StopsSucceed(users[..h.stopped]);
    StartsFail(users[..h.stopped], h.results);
    if h.stopped < |users| {
      assert !refused[0].ok;
    } else {
      WorkerFails(h.worker, !skipPreBackup);
    }
  }

  lemma {:induction false} FailedParts(a: seq<Event>, b: seq<Event>)
    ensures SomeFailed(a + b) <==> SomeFailed(a) || SomeFailed(b)
  {
    var both := a + b;
    if i :| 0 <= i < |a| && !a[i].ok {
      assert both[i] == a[i];
    }
    if i :| 0 <= i < |b| && !b[i].ok {
      assert both[|a| + i] == b[i];
    }
  }

  lemma {:induction false} StopsSucceed(ids: seq<string>)
    ensures !SomeFailed(Stops(ids))
  {
  }

  lemma {:induction false} StartsFail(ids: seq<string>, results: seq<bool>)
    requires |results| <= |ids|
    ensures SomeFailed(Starts(ids, results)) <==> !AllTrue(results)
  {
    if i :| 0 <= i < |results| && !results[i] {
      assert !Starts(ids, results)[i].ok;
    }
  }

  lemma {:induction false} WorkerFails(worker: seq<Event>, safety: bool)
    requires WorkerTrace(worker, safety)
    ensures SomeFailed(worker) <==> !Restored(worker)
  {
    assert Restored(worker) <==> worker[|worker| - 1] == Restore(true);
  }

  /** Docker, one volume and one repository, while a restore holds their locks. */
  class Host {
    const setting: Setting
    var running: set<string>
    var volume: Content
    var stored: seq<Stored>
    var ticks: nat
    var log: seq<Event>

    constructor (setting: Setting, running: set<string>, volume: Content)
      requires setting.Sound()
      ensures Valid() && this.setting == setting
      ensures this.running == running && this.volume == volume && stored == [] && ticks == 0 && log == []
    {
      this.setting, this.running, this.volume := setting, running, volume;
      stored, ticks, log := [], 0, [];
    }

    /** In the middle of its life. */
    constructor At(setting: Setting, now: View)
      requires setting.Sound()
      requires forall i | 0 <= i < |now.stored| :: WellNamed(now.stored[i].snapshot)
      ensures this.setting == setting && Valid() && Now() == now
    {
      this.setting := setting;
      running, volume, stored, ticks, log := now.running, now.volume, now.stored, now.ticks, now.log;
    }

    ghost predicate Valid()
      reads this
    {
      && (forall i | 0 <= i < |stored| :: WellNamed(stored[i].snapshot))
      && setting.Sound()
    }

    // ---- Docker ----

    method StopContainer(id: string) returns (ok: bool)
      modifies this`running, this`log
      ensures ok == setting.replies(old(log)) && log == old(log) + [Stop(id, ok)]
      ensures ok ==> running == old(running) - {id}
      ensures !ok ==> running == old(running) || (!setting.gentle && running == old(running) - {id})
    {
      var changed: bool := *;
      ok := setting.replies(log);
      if ok || (changed && !setting.gentle) {
        running := running - {id};
      }
      log := log + [Stop(id, ok)];
    }

    method StartContainer(id: string) returns (ok: bool)
      modifies this`running, this`log
      ensures ok == setting.replies(old(log)) && log == old(log) + [Start(id, ok)]
      ensures ok ==> running == old(running) + {id}
      ensures !ok ==> running == old(running) || running == old(running) + {id}
    {
      var changed: bool := *;
      ok := setting.replies(log);
      if ok || changed {
        running := running + {id};
      }
      log := log + [Start(id, ok)];
    }

    lemma {:induction false} NothingYet(events: seq<Event>)
      ensures setting.Answered(events, events)
    {
    }

    /** restartContainers: every id is tried once, last stopped first, whatever happens. */
    method RestartContainers(ids: seq<string>, cause: seq<Failure>)
      returns (err: seq<Failure>, ghost results: seq<bool>)
      modifies this`running, this`log
      ensures |results| == |ids| && log == old(log) + Starts(ids, results) && setting.Answered(old(log), log)
      ensures err == cause + StartFailures(ids, results)
      ensures old(running) <= running <= old(running) + SetOf(ids)
      ensures SetOf(ids) - running <= FailedStarts(ids, results)
    {
      hide FailedStarts, Starts, StartFailures, Setting.Answered;
      NoStarts(ids);
      NothingYet(log);
      var startErrs: seq<Failure> := [];
      results := [];
      var i := |ids|;
      while i > 0
        invariant 0 <= i <= |ids| && |results| == |ids| - i
        invariant log == old(log) + Starts(ids, results) && setting.Answered(old(log), log)
        invariant startErrs == StartFailures(ids, results)
        invariant old(running) <= running <= old(running) + SetOf(ids)
        invariant SetOf(ids[i..]) - running <= FailedStarts(ids, results)
      {
        i := i - 1;
        ghost var before := log;
        var ok := StartContainer(ids[i]);
        setting.AnsweredOneMore(old(log), before, Start(ids[i], ok));
        if !ok {
          startErrs := startErrs + [StartFailure(ids[i])];
        }
        OneMoreStart(ids, results, ok);
        assert SetOf(ids[i..]) == SetOf(ids[i + 1..]) + {ids[i]} by {
          assert ids[i..] == [ids[i]] + ids[i + 1..];
        }
        results := results + [ok];
      }
      assert ids[0..] == ids;
      err := cause + startErrs;
    }

    /** stopMountedContainers: all running users of the source are stopped in listing order, or none stays
        stopped that can be started again. `listed` is None when the listing fails. */
    method StopMountedContainers(listed: Option<seq<Container>>, source: Source)
      returns (stopped: seq<string>, err: seq<Failure>, ghost results: seq<bool>)
      modifies this`running, this`log
      ensures setting.Answered(old(log), log)
      ensures listed.None? ==> stopped == [] && err == [ListFailure] && running == old(running) && log == old(log)
      ensures listed.Some? && err == [] ==>
                && stopped == Users(listed.value, source) && log == old(log) + Stops(stopped)
                && running == old(running) - SetOf(stopped)
      ensures listed.Some? && err != [] ==>
                && |stopped| < |Users(listed.value, source)| && stopped <= Users(listed.value, source)
                && |results| == |stopped|
                && var failing := Users(listed.value, source)[|stopped|];
                && log == old(log) + Stops(stopped) + [Stop(failing, false)] + Starts(stopped, results)
                && err == [StopFailure(failing)] + StartFailures(stopped, results)
                && running <= old(running) + SetOf(stopped)
                && old(running) - running <= FailedStarts(stopped, results) + (if setting.gentle then {} else {failing})
    {
      hide FailedStarts, StartFailures, MountUses, Setting.Answered;
      stopped, err, results := [], [], [];
      NothingYet(log);
      if listed.None? {
        return [], [ListFailure], [];
      }
      var containers := listed.value;
      for i := 0 to |containers|
        invariant stopped == Users(containers[..i], source) && log == old(log) + Stops(stopped)
        invariant setting.Answered(old(log), log)
        invariant running == old(running) - SetOf(stopped)
      {
        assert containers[..i + 1][..i] == containers[..i];
        UsersPrefix(containers, i, source);
        UsersPrefix(containers, i + 1, source);
        var container := containers[i];
        if !container.running || container.id == "" {
          continue;
        }
        var uses := UsesSource(container, source);
        if !uses {
          continue;
        }
        ghost var before := log;
        var ok := StopContainer(container.id);
        setting.AnsweredOneMore(old(log), before, Stop(container.id, ok));
        ghost var halfway := log;
        assert Users(containers[..i + 1], source) == stopped + [container.id];
        if !ok {
          err, results := RestartContainers(stopped, [StopFailure(container.id)]);
          setting.AnsweredThenAnswered(old(log), halfway, log);
          return;
        }
        stopped := stopped + [container.id];
      }
      assert containers[..|containers|] == containers;
    }

    // ---- The worker ----

    /** The backup command. A backup that fails may leave a partial snapshot. */
    method ExecBackup(spec: Spec, source: Source) returns (ok: bool)
      requires Valid()
      modifies this`stored, this`ticks, this`log
      ensures Valid() && log == old(log) + [Backup(ok)] && old(stored) <= stored && ticks >= old(ticks)
      ensures ok == setting.replies(old(log))
      ensures ok ==> setting.Saved(old(stored), stored, spec, source, old(ticks), volume) && ticks == old(ticks) + 1
    {
      var partial: bool, part: Content := *, *;
      ok := setting.replies(log);
      if ok || partial {
        var content := if ok then setting.keeps(spec.excludes, volume) else part;
        stored := stored + [Stored(setting.Taken(spec, source, ticks), SourcePath(spec, source), content)];
        ticks := ticks + 1;
      }
      log := log + [Backup(ok)];
    }

    /** The restore command: it succeeds only with the one snapshot that has the name, and only if that holds the path
        that is asked for. It works on the volume if that is mounted at the request's target; if it fails the volume
        may then be left in any state. */
    method ExecRestore(request: RestoreRequest) returns (ok: bool)
      requires request.snapshotID != "latest"
      modifies this`volume, this`log
      ensures log == old(log) + [Restore(ok)]
      ensures ok == (setting.replies(old(log)) && CanRestore(stored, request.snapshotID, RequestSourcePath(request)))
      ensures ok && request.target == TARGET ==>
                RestoredFrom(stored, request.snapshotID, RequestSourcePath(request), volume)
      ensures request.target != TARGET ==> volume == old(volume)
    {
      var partial: Content, path := *, RequestSourcePath(request);
      ok := setting.replies(log);
      var found := FindSnapshot(request.snapshotID);
      ok := ok && found.Some? && stored[found.value].path == path;
      if ok {
        assert Serves(stored, request.snapshotID, path, found.value);
      }
      if request.target == TARGET {
        volume := if ok then stored[found.value].content else partial;
      }
      log := log + [Restore(ok)];
    }

    method FindSnapshot(name: string) returns (r: Option<nat>)
      ensures r.Some? ==> Denotes(stored, name, r.value)
      ensures r.None? ==> forall i: nat :: !Denotes(stored, name, i)
    {
      r := None;
      for i := 0 to |stored|
        invariant r.None? ==> forall j | 0 <= j < i :: !Named(stored[j], name)
        invariant r.Some? ==> r.value < i && Named(stored[r.value], name)
        invariant r.Some? ==> forall j | 0 <= j < i && Named(stored[j], name) :: j == r.value
      {
        if name <= stored[i].snapshot.id {
          if r.Some? {
            assert Named(stored[i], name) && Named(stored[r.value], name);
            return None;
          }
          r := Some(i);
        }
      }
    }

    /** The command list of a restore. */
    function Commands(safety: bool, spec: Spec, source: Source, request: RestoreRequest): seq<Command> {
      (if safety then [BackupCommand(spec, source)] else []) + [RestoreCommand(request)]
    }

    /** runWorker on the commands of a restore: up to the first that fails. */
    method RunWorker(commands: seq<Command>, ghost safety: bool, ghost spec: Spec, ghost source: Source,
                     ghost request: RestoreRequest)
      returns (ok: bool, ghost trace: seq<Event>)
      requires Valid() && request.snapshotID != "latest" && request.target == TARGET
      requires commands == Commands(safety, spec, source, request)
      modifies this`volume, this`stored, this`ticks, this`log
      ensures Valid() && log == old(log) + trace && WorkerTrace(trace, safety) && (ok <==> Restored(trace))
      ensures setting.Replied(old(log), log, CanRestore(stored, request.snapshotID, RequestSourcePath(request)))
      ensures old(stored) <= stored && ticks >= old(ticks)
      ensures (volume != old(volume) || ok) && safety ==>
                setting.Saved(old(stored), stored, spec, source, old(ticks), old(volume)) && ticks == old(ticks) + 1
      ensures !safety ==> stored == old(stored) && ticks == old(ticks)
      ensures ok ==> RestoredFrom(stored, request.snapshotID, RequestSourcePath(request), volume)
    {
      hide Setting.Replied, Setting.Answered, RestoredFrom, CanRestore, RequestSourcePath;
      ghost var path := RequestSourcePath(request);
      NothingYet(log);
      ok := setting.replies(log);
      log := log + [Worker(ok)];
      trace := [Worker(ok)];
      setting.AnsweredOneMore(old(log), old(log), Worker(ok));
      setting.AnsweredIsReplied(old(log), log, CanRestore(stored, request.snapshotID, path));
      if !ok {
        return;
      }
      for i := 0 to |commands|
        invariant Valid() && log == old(log) + trace && old(stored) <= stored && ticks >= old(ticks)
        invariant i < |commands| ==> setting.Answered(old(log), log)
        invariant i == |commands| ==> setting.Replied(old(log), log, CanRestore(stored, request.snapshotID, path))
        invariant i == 0 ==>
                    trace == [Worker(true)] && volume == old(volume) && stored == old(stored) && ticks == old(ticks)
        invariant i == 1 && safety ==> trace == [Worker(true), Backup(true)] && volume == old(volume)
        invariant i > 0 && safety ==>
                    setting.Saved(old(stored), stored, spec, source, old(ticks), old(volume)) && ticks == old(ticks) + 1
        invariant !safety ==> stored == old(stored) && ticks == old(ticks)
        invariant i == |commands| ==> WorkerTrace(trace, safety) && Restored(trace)
        invariant i == |commands| ==> RestoredFrom(stored, request.snapshotID, path, volume)
      {
        ghost var before := log;
        match commands[i]
        case BackupCommand(saved, from) =>
          ok := ExecBackup(saved, from);
          trace := trace + [Backup(ok)];
          setting.AnsweredOneMore(old(log), before, Backup(ok));
          setting.AnsweredIsReplied(old(log), log, CanRestore(stored, request.snapshotID, path));
          if !ok {
            return;
          }
        case RestoreCommand(wanted) =>
          ok := ExecRestore(wanted);
          trace := trace + [Restore(ok)];
          setting.AnsweredIsReplied(old(log), before, CanRestore(stored, request.snapshotID, path));
          setting.RepliedOneMore(old(log), before, Restore(ok), CanRestore(stored, request.snapshotID, path));
          if !ok {
            return;
          }
      }
      ok := true;
    }

    /** restoreWithStoppedContainers: the worker runs unless the exclude files of the safety backup cannot be
        read (`patterns` is None), and the stopped containers are started again in any case. */
    method RestoreWithStoppedContainers(spec: Spec, source: Source, snapshotID: string, skipPreBackup: bool,
                                        patterns: Option<seq<string>>, stopped: seq<string>)
      returns (err: seq<Failure>, ghost worker: seq<Event>, ghost results: seq<bool>)
      requires Valid() && snapshotID != "latest"
      modifies this`running, this`volume, this`stored, this`ticks, this`log
      ensures Valid() && old(stored) <= stored && ticks >= old(ticks)
      ensures |results| == |stopped| && log == old(log) + worker + Starts(stopped, results)
      ensures worker == [] <==> !skipPreBackup && patterns.None?
      ensures worker == [] || WorkerTrace(worker, !skipPreBackup)
      ensures err == [] <==> Restored(worker) && AllTrue(results)
      ensures old(running) <= running <= old(running) + SetOf(stopped)
      ensures SetOf(stopped) - running <= FailedStarts(stopped, results)
      ensures (volume != old(volume) || err == []) && !skipPreBackup ==>
                && patterns.Some? && ticks == old(ticks) + 1
                && setting.Saved(old(stored), stored, spec.(excludes := spec.excludes + patterns.value), source,
                                 old(ticks), old(volume))
      ensures skipPreBackup ==> stored == old(stored) && ticks == old(ticks)
      ensures err == [] ==> RestoredFrom(stored, snapshotID, SourcePath(spec, source), volume)
      ensures setting.Replied(old(log), log, CanRestore(stored, snapshotID, SourcePath(spec, source)))
    {
      hide Setting.Replied, Setting.Answered, RestoredFrom, CanRestore;
      worker := [];
      if !skipPreBackup && patterns.None? {
        err, results := RestartContainers(stopped, [ExcludesFailure]);
        setting.AnsweredIsReplied(old(log), log, CanRestore(stored, snapshotID, SourcePath(spec, source)));
        return;
      }
      var saved := Effective(spec, if skipPreBackup then None else patterns);
      var request := Request(saved, source, snapshotID);
      var commands: seq<Command> := [];
      if !skipPreBackup {
        commands := commands + [BackupCommand(saved, source)];
      }
      commands := commands + [RestoreCommand(request)];
      var ok;
      ok, worker := RunWorker(commands, !skipPreBackup, saved, source, request);
      ghost var done, can := log, CanRestore(stored, snapshotID, SourcePath(spec, source));
      err, results := RestartContainers(stopped, if ok then [] else [WorkerFailure]);
      NoStartFailure(stopped, results);
      setting.AnsweredIsReplied(done, log, can);
      setting.RepliedThenReplied(old(log), done, log, can);
    }

    function Now(): View
      reads this
    {
      View(running, volume, stored, ticks, log)
    }

    /** What restoreCandidateWithSnapshot runs under its locks. */
    method RestoreUnderLocks(listed: Option<seq<Container>>, spec: Spec, source: Source, snapshotID: string,
                             skipPreBackup: bool, patterns: Option<seq<string>>)
      returns (err: seq<Failure>, ghost h: History)
      requires Valid() && snapshotID != "latest"
      modifies this`running, this`volume, this`stored, this`ticks, this`log
      ensures Valid()
      ensures setting.Restores(old(Now()), Now(), listed, spec, source, snapshotID, skipPreBackup, patterns, err, h)
    {
      hide Setting.Replied, Setting.Answered, Setting.Saved, RestoredFrom, CanRestore, FailedStarts, WorkerTrace;
      hide Stops, Starts, StartFailures, Users;
      h := History(0, [], []);
      var stopped: seq<string>;
      ghost var results, worker;
      stopped, err, results := StopMountedContainers(listed, source);
      ghost var can := CanRestore(stored, snapshotID, SourcePath(spec, source));
      if err != [] {
        h := History(|stopped|, [], results);
        setting.AnsweredIsReplied(old(log), log, can);
        if listed.Some? {
          TraceIs(old(log), Users(listed.value, source), h, stopped);
        }
        return;
      }
      ghost var halfway := log;
      err, worker, results := RestoreWithStoppedContainers(spec, source, snapshotID, skipPreBackup, patterns, stopped);
      can := CanRestore(stored, snapshotID, SourcePath(spec, source));
      setting.AnsweredIsReplied(old(log), halfway, can);
      setting.RepliedThenReplied(old(log), halfway, log, can);
      h := History(|stopped|, worker, results);
      TraceIs(old(log), stopped, h, stopped);
    }

    // ---- Pinning a snapshot ----

    /** querySnapshots. */
    method QuerySnapshots(w: Wanted, snapshotID: string) returns (r: Option<seq<Snapshot>>)
      requires Valid()
      ensures r == setting.lists(log, stored, w, snapshotID)
      ensures r.Some? ==> Answers(stored, r.value, w, snapshotID)
    {
      r := setting.lists(log, stored, w, snapshotID);
    }

    /** resolveSnapshot: "latest" becomes the id of a newest matching snapshot; any other id is kept if the
        query lists a stored snapshot of that name. */
    method ResolveSnapshot(w: Wanted, snapshotID: string)
      returns (r: Option<string>, ghost answer: Option<seq<Snapshot>>)
      requires Valid()
      ensures answer == setting.lists(log, stored, w, snapshotID)
      ensures answer.Some? ==> Answers(stored, answer.value, w, snapshotID)
      ensures r.Some? ==> answer.Some? && r.value != "latest"
      ensures snapshotID != "latest" ==> r == if answer.None? || answer.value == [] then None else Some(snapshotID)
      ensures r.Some? && snapshotID != "latest" ==> exists i | 0 <= i < |stored| :: Named(stored[i], snapshotID)
      ensures r.Some? && snapshotID == "latest" ==> r.value != "" && exists i: nat :: Pins(stored, w, r.value, i)
      ensures r.None? && snapshotID == "latest" ==> answer.None? || NothingToPin(answer.value, w)
    {
      var listed := QuerySnapshots(w, snapshotID);
      answer := listed;
      if listed.None? {
        return None, answer;
      }
      if snapshotID != "latest" {
        if |listed.value| == 0 {
          return None, answer;
        }
        assert listed.value[0] in listed.value;
        return Some(snapshotID), answer;
      }
      var latest := LatestSnapshot(listed.value, w);
      if latest.None? || SnapshotID(latest.value) == "" {
        return None, answer;
      }
      NewestListed(stored, listed.value, latest.value, w);
      NameOfSnapshot(latest.value);
      return Some(SnapshotID(latest.value)), answer;
    }

    /** A restore of "latest": the snapshot is pinned before the safety backup is made, and it is the one that
        is restored. */
    method RestoreLatest(listed: Option<seq<Container>>, spec: Spec, source: Source, skipPreBackup: bool,
                         patterns: Option<seq<string>>)
      returns (ok: bool, ghost pinned: nat, ghost h: History)
      requires Valid()
      modifies this`running, this`volume, this`stored, this`ticks, this`log
      ensures ok ==> listed.Some? && RestoredBy(Users(listed.value, source), h, old(log), log)
      ensures Valid() && old(stored) <= stored && ticks >= old(ticks)
      ensures ok ==> Newest(old(stored), WantedOf(spec, source), pinned) && volume == old(stored)[pinned].content
      ensures (ok || volume != old(volume)) && !skipPreBackup ==>
                && patterns.Some?
                && setting.Saved(old(stored), stored, spec.(excludes := spec.excludes + patterns.value), source,
                                 old(ticks), old(volume))
    {
      pinned, h := 0, History(0, [], []);
      var w := WantedOf(spec, source);
      var id;
      ghost var answer;
      id, answer := ResolveSnapshot(w, "latest");
      if id.None? {
        return false, 0, h;
      }
      pinned :| Pins(stored, w, id.value, pinned);
      NameOfSnapshot(stored[pinned].snapshot);
      var err;
      err, h := RestoreUnderLocks(listed, spec, source, id.value, skipPreBackup, patterns);
      ok := err == [];
      assert Named(stored[pinned], id.value);
    }

    /** Restoring "latest" twice undoes itself: the second restore brings back what the volume held before the
        first, provided the first safety backup leaves nothing out and is newer than what was stored before. */
    method RestoreLatestTwice(first: Option<seq<Container>>, second: Option<seq<Container>>, spec: Spec, source: Source,
                              patterns: Option<seq<string>>)
      returns (ok: bool, ghost h1: History, ghost h2: History)
      requires Valid()
      requires forall i | 0 <= i < |stored| :: Earlier(stored[i].snapshot.time, setting.clock(ticks))
      modifies this`running, this`volume, this`stored, this`ticks, this`log
      ensures ok ==> first.Some? && second.Some? && exists between ::
                       && RestoredBy(Users(first.value, source), h1, old(log), between)
                       && RestoredBy(Users(second.value, source), h2, between, log)
      ensures ok && spec.excludes == [] && patterns == Some([]) ==> volume == old(volume)
    {
      h2 := History(0, [], []);
      ghost var pinned;
      ok, pinned, h1 := RestoreLatest(first, spec, source, false, patterns);
      if !ok {
        return;
      }
      ghost var n, saved := |old(stored)|, stored[|old(stored)|].snapshot;
      ghost var between, halfway := stored, log;
      ok, pinned, h2 := RestoreLatest(second, spec, source, false, patterns);
      if ok {
        assert RestoredBy(Users(first.value, source), h1, old(log), halfway);
        SnapshotIdentity(saved, spec, source.id, WantedOf(spec, source));
        assert StrLe(saved.time, between[pinned].snapshot.time);
        if pinned < n {
          assert between[pinned] == old(stored)[pinned];
        }
        StrLeTotal(saved.time, between[pinned].snapshot.time);
      }
    }
  }
}
