/** A restore of all volumes on a whole Docker host: many volumes, and a repository for every app directory. Module
    AllVolumes proves what the run does with the results of its lookups and restores; here they are those of module
    Restoring (internal/app/app.go, runRestoreAllVolumes). */
module Fleet {
  import opened Text
  import opened Sources
  import opened Restic
  import opened Snapshots
  import opened AllVolumes
  import R = Restoring

  ghost predicate AllWellNamed(stored: seq<R.Stored>) {
    forall i | 0 <= i < |stored| :: R.WellNamed(stored[i].snapshot)
  }

  /** The lookup and the restore of each candidate, as module AllVolumes sees them. */
  function ResolveOf(ids: seq<Option<string>>): nat -> Option<string> {
    (i: nat) => if i < |ids| then ids[i] else None
  }

  function RestoreOf(oks: seq<bool>): (nat, string) -> bool {
    (i: nat, id) => i < |oks| && oks[i]
  }

  /** What a restore finds in Docker: the listing of containers, and the exclude files. */
  datatype Finds = Finds(listed: Option<seq<R.Container>>, patterns: Option<seq<string>>)

  /** How the restore of one candidate went. */
  datatype Step = Step(was: R.View, now: R.View, err: seq<R.Failure>, h: R.History)

  /** What the restore of one candidate did. */
  ghost function TraceOf(finds: Finds, c: Candidate, id: Option<string>, h: R.History): seq<R.Event> {
    if id.None? || finds.listed.None? then []
    else
      var users := R.Users(finds.listed.value, c.source);
      if h.stopped <= |users| && |h.results| == h.stopped then R.Trace(users, h) else []
  }

  /** What the restores of the first n candidates did, in order. */
  ghost function Traces(selected: seq<Candidate>, ids: seq<Option<string>>, finds: nat -> Finds, steps: seq<Step>,
                        n: nat): seq<R.Event>
    requires n <= |steps| <= |selected| == |ids|
  {
    if n == 0 then []
    else Traces(selected, ids, finds, steps, n - 1)
         + TraceOf(finds(n - 1), selected[n - 1], ids[n - 1], steps[n - 1].h)
  }

  lemma {:induction false} SameTraces(selected: seq<Candidate>, ids: seq<Option<string>>, finds: nat -> Finds,
      steps: seq<Step>, longer: seq<Step>, n: nat)
    requires n <= |steps| && steps <= longer && |longer| <= |selected| == |ids|
    ensures Traces(selected, ids, finds, longer, n) == Traces(selected, ids, finds, steps, n)
  {
    if n > 0 {
      SameTraces(selected, ids, finds, steps, longer, n - 1);
      assert longer[n - 1] == steps[n - 1];
    }
  }

  lemma {:induction false} OneMoreTrace(selected: seq<Candidate>, ids: seq<Option<string>>, finds: nat -> Finds,
      steps: seq<Step>, step: Step, start: seq<R.Event>)
    requires |steps| < |selected| == |ids|
    ensures var n := |steps|;
            start + Traces(selected, ids, finds, steps + [step], n + 1)
            == start + Traces(selected, ids, finds, steps, n) + TraceOf(finds(n), selected[n], ids[n], step.h)
  {
    hide TraceOf;
    SameTraces(selected, ids, finds, steps, steps + [step], |steps|);
    var before, more := Traces(selected, ids, finds, steps, |steps|),
                        TraceOf(finds(|steps|), selected[|steps|], ids[|steps|], step.h);
    assert (steps + [step])[|steps|] == step;
    assert start + (before + more) == start + before + more;
  }

  /** A snapshot of the candidate's source: what the excludes keep of the content. */
  ghost predicate IsBackupOf(setting: R.Setting, s: R.Stored, c: Candidate, patterns: seq<string>, content: R.Content) {
    && s.path == SourcePath(c.spec, c.source) && s.snapshot.tags == SnapshotTags(c.spec, c.source.id)
    && s.content == setting.keeps(c.spec.excludes + patterns, content)
  }

  class Docker {
    const setting: R.Setting
    const directory: string -> string
    var running: set<string>
    var volumes: string -> R.Content
    var repositories: string -> seq<R.Stored>
    var ticks: nat
    var log: seq<R.Event>

    ghost predicate Valid()
      reads this
    {
      && setting.Sound()
      && (forall d :: AllWellNamed(repositories(d)))
    }

    constructor (setting: R.Setting, directory: string -> string, volumes: string -> R.Content)
      requires setting.Sound()
      ensures Valid() && this.setting == setting && this.directory == directory && this.volumes == volumes
      ensures log == []
    {
      this.setting, this.directory, this.volumes := setting, directory, volumes;
      running, repositories, ticks, log := {}, d => [], 0, [];
    }

    /** Docker as the restore of one candidate sees it: its volume, and the repository of its app. */
    function Seen(c: Candidate): R.View
      reads this
    {
      R.View(running, volumes(c.source.volumeName), repositories(directory(c.spec.name)), ticks, log)
    }

    method HostOf(c: Candidate) returns (host: R.Host)
      requires Valid()
      ensures fresh(host) && host.Valid() && host.setting == setting && host.Now() == Seen(c)
    {
      assert AllWellNamed(repositories(directory(c.spec.name)));
      host := new R.Host.At(setting, Seen(c));
    }

    /** The lookup pinned a newest matching snapshot of these repositories; it fails only if restic does not answer or
        lists nothing to pin. */
    ghost predicate Pinned(repositories: string -> seq<R.Stored>, log: seq<R.Event>, c: Candidate, id: Option<string>,
                           pin: nat)
    {
      var stored, wanted := repositories(directory(c.spec.name)), R.WantedOf(c.spec, c.source);
      var answer := setting.lists(log, stored, wanted, "latest");
      if id.Some? then answer.Some? && id.value != "latest" && R.Pins(stored, wanted, id.value, pin)
      else answer.None? || R.NothingToPin(answer.value, wanted)
    }

    lemma {:induction false} PinnedName(repositories: string -> seq<R.Stored>, log: seq<R.Event>, c: Candidate,
        id: Option<string>, pin: nat)
      requires Pinned(repositories, log, c, id, pin)
      ensures id != Some("latest")
    {
    }

    /** resolveSnapshot for "latest". */
    method ResolveLatest(c: Candidate) returns (id: Option<string>, ghost pin: nat)
      requires Valid()
      ensures Pinned(repositories, log, c, id, pin)
    {
      pin := 0;
      var host := HostOf(c);
      ghost var answer;
      id, answer := host.ResolveSnapshot(R.WantedOf(c.spec, c.source), "latest");
      assert host.Now().stored == repositories(directory(c.spec.name)) && host.Now().log == log;
      if id.Some? {
        pin :| R.Pins(host.stored, R.WantedOf(c.spec, c.source), id.value, pin);
      }
    }

    /** restoreCandidateWithSnapshot: the restore of module Restoring on the candidate's volume and the repository of
        its app; no other volume and no other repository changes. */
    method RestoreOne(c: Candidate, id: string, skipPreBackup: bool, finds: Finds)
      returns (ok: bool, ghost err: seq<R.Failure>, ghost h: R.History)
      requires Valid() && id != "latest"
      modifies this
      ensures Valid() && (ok <==> err == [])
      ensures setting.Restores(old(Seen(c)), Seen(c), finds.listed, c.spec, c.source, id, skipPreBackup, finds.patterns,
                               err, h)
      ensures forall v | v != c.source.volumeName :: volumes(v) == old(volumes)(v)
      ensures forall d :: old(repositories)(d) <= repositories(d)
      ensures forall d | d != directory(c.spec.name) :: repositories(d) == old(repositories)(d)
    {
      hide R.Setting.Replied, R.Setting.Saved, R.RestoredFrom, R.Compensated;
      var host := HostOf(c);
      ghost var was := host.Now();
      var errors;
      errors, h := host.RestoreUnderLocks(finds.listed, c.spec, c.source, id, skipPreBackup, finds.patterns);
      ok, err := errors == [], errors;
      var name, dir, content, stored := c.source.volumeName, directory(c.spec.name), host.volume, host.stored;
      var others, rest := volumes, repositories;
      volumes := v => if v == name then content else others(v);
      repositories := d => if d == dir then stored else rest(d);
      running, ticks, log := host.running, host.ticks, host.log;
      assert was.stored == rest(dir) && AllWellNamed(stored);
      forall d ensures AllWellNamed(repositories(d)) {
        assert AllWellNamed(rest(d));
      }
      assert Seen(c) == host.Now();
    }

    /** All lookups come before the first restore. */
    method ResolveAll(selected: seq<Candidate>) returns (ids: seq<Option<string>>, ghost pins: seq<nat>)
      requires Valid()
      ensures |ids| == |pins| == |selected|
      ensures forall i | 0 <= i < |selected| :: Pinned(repositories, log, selected[i], ids[i], pins[i])
    {
      hide Pinned;
      ids, pins := [], [];
      for i := 0 to |selected|
        invariant |ids| == |pins| == i
        invariant forall j | 0 <= j < i :: Pinned(repositories, log, selected[j], ids[j], pins[j])
      {
        var id;
        ghost var pin;
        id, pin := ResolveLatest(selected[i]);
        ids, pins := ids + [id], pins + [pin];
      }
    }

    /** The content of the pinned snapshot. */
    ghost predicate HoldsPinned(repositories: string -> seq<R.Stored>, c: Candidate, pin: nat, content: R.Content) {
      var stored := repositories(directory(c.spec.name));
      pin < |stored| && content == stored[pin].content
    }

    /** A pinned name still stands for the pinned snapshot after backups were added. */
    lemma {:induction false} PinHolds(before: string -> seq<R.Stored>, now: string -> seq<R.Stored>, log: seq<R.Event>,
        c: Candidate, id: string, pin: nat, path: string, content: R.Content)
      requires Pinned(before, log, c, Some(id), pin)
      requires forall d :: AllWellNamed(before(d)) && before(d) <= now(d)
      requires R.RestoredFrom(now(directory(c.spec.name)), id, path, content)
      ensures HoldsPinned(before, c, pin, content)
    {
      var old', new' := before(directory(c.spec.name)), now(directory(c.spec.name));
      assert AllWellNamed(old') && old' <= new';
      R.NameOfSnapshot(old'[pin].snapshot);
      var i: nat :| R.Serves(new', id, path, i) && content == new'[i].content;
      assert R.Named(new'[pin], id);
    }

    // ---- One candidate after the other ----

    /** One candidate whose snapshot was found went through the restore of module Restoring, and succeeded exactly if
        that gave no error. */
    ghost predicate WasRestored(c: Candidate, id: string, skipPreBackup: bool, finds: Finds, ok: bool, step: Step) {
      && setting.Restores(step.was, step.now, finds.listed, c.spec, c.source, id, skipPreBackup, finds.patterns,
                          step.err, step.h)
      && (ok <==> step.err == [])
    }

    /** So did all candidates so far. */
    ghost predicate EachRestored(selected: seq<Candidate>, ids: seq<Option<string>>, skipPreBackup: bool,
                                 finds: nat -> Finds, oks: seq<bool>, steps: seq<Step>)
    {
      && |oks| == |steps| <= |selected| == |ids|
      && forall i: nat | i < |oks| && ids[i].Some? ::
           WasRestored(selected[i], ids[i].value, skipPreBackup, finds(i), oks[i], steps[i])
    }

    lemma {:induction false} OneMoreStep(selected: seq<Candidate>, ids: seq<Option<string>>, skipPreBackup: bool,
        finds: nat -> Finds, oks: seq<bool>, steps: seq<Step>, ok: bool, step: Step)
      requires EachRestored(selected, ids, skipPreBackup, finds, oks, steps) && |oks| < |selected|
      requires var n := |oks|;
               ids[n].Some? ==> WasRestored(selected[n], ids[n].value, skipPreBackup, finds(n), ok, step)
      ensures EachRestored(selected, ids, skipPreBackup, finds, oks + [ok], steps + [step])
    {
      hide WasRestored;
    }

    /** The old content of a volume is in the repository of a candidate on it, among the snapshots that were added,
        under the path and the tags of its source; what the excludes keep of it, and all of it if there are none. */
    ghost predicate SavedBy(before: string -> seq<R.Stored>, now: string -> seq<R.Stored>, c: Candidate, finds: Finds,
                            content: R.Content)
    {
      var was, stored := before(directory(c.spec.name)), now(directory(c.spec.name));
      && finds.patterns.Some?
      && exists k | |was| <= k < |stored| :: IsBackupOf(setting, stored[k], c, finds.patterns.value, content)
    }

    /** Every volume that changed has its old content saved. */
    ghost predicate ChangesSaved(before: string -> seq<R.Stored>, was: string -> R.Content,
                                 now: string -> seq<R.Stored>, volumes: string -> R.Content,
                                 selected: seq<Candidate>, finds: nat -> Finds, n: nat)
      requires n <= |selected|
    {
      forall v | volumes(v) != was(v) ::
        exists j: nat | j < n ::
          selected[j].source.volumeName == v && SavedBy(before, now, selected[j], finds(j), was(v))
    }

    /** One restore more. A volume that changes now, or that changed before, is saved. */
    lemma {:induction false} OneMoreSaved(before: string -> seq<R.Stored>, was: string -> R.Content,
        middle: string -> seq<R.Stored>, halfway: string -> R.Content, now: string -> seq<R.Stored>,
        volumes: string -> R.Content, selected: seq<Candidate>, finds: nat -> Finds, n: nat)
      requires n < |selected| && ChangesSaved(before, was, middle, halfway, selected, finds, n)
      requires forall d :: before(d) <= middle(d) <= now(d)
      requires var c := selected[n];
               && (forall v | v != c.source.volumeName :: volumes(v) == halfway(v))
               && (volumes(c.source.volumeName) != halfway(c.source.volumeName) ==>
                     SavedBy(middle, now, c, finds(n), halfway(c.source.volumeName)))
      ensures ChangesSaved(before, was, now, volumes, selected, finds, n + 1)
    {
      hide IsBackupOf;
      forall v | volumes(v) != was(v)
        ensures exists j: nat | j < n + 1 ::
                  selected[j].source.volumeName == v && SavedBy(before, now, selected[j], finds(j), was(v))
      {
        if halfway(v) != was(v) {
          var j: nat :| j < n && selected[j].source.volumeName == v
                        && SavedBy(before, middle, selected[j], finds(j), was(v));
          StaysSaved(before, middle, before, now, selected[j], finds(j), was(v));
          assert SavedBy(before, now, selected[j], finds(j), was(v));
        } else {
          StaysSaved(middle, now, before, now, selected[n], finds(n), was(v));
          assert SavedBy(before, now, selected[n], finds(n), was(v));
        }
      }
    }

    lemma {:induction false} StaysSaved(before: string -> seq<R.Stored>, now: string -> seq<R.Stored>,
        earlier: string -> seq<R.Stored>, later: string -> seq<R.Stored>, c: Candidate, finds: Finds,
        content: R.Content)
      requires SavedBy(before, now, c, finds, content)
      requires forall d :: earlier(d) <= before(d) && now(d) <= later(d)
      ensures SavedBy(earlier, later, c, finds, content)
    {
      hide IsBackupOf;
      var d := directory(c.spec.name);
      assert earlier(d) <= before(d) && now(d) <= later(d);
      var k :| |before(d)| <= k < |now(d)| && IsBackupOf(setting, now(d)[k], c, finds.patterns.value, content);
      assert later(d)[k] == now(d)[k];
    }

    /** What module Restoring says of the safety backup, in terms of the repositories. */
    lemma {:induction false} RestoreSaves(before: string -> seq<R.Stored>, now: string -> seq<R.Stored>, c: Candidate,
        id: string, finds: Finds, step: Step, ok: bool)
      requires WasRestored(c, id, false, finds, ok, step) && step.now.volume != step.was.volume
      requires step.was.stored == before(directory(c.spec.name)) && step.now.stored == now(directory(c.spec.name))
      ensures SavedBy(before, now, c, finds, step.was.volume)
    {
      hide R.Setting.Replied, R.Compensated, R.RestoredFrom, R.Trace, R.FailedStarts;
      var was, stored := before(directory(c.spec.name)), now(directory(c.spec.name));
      assert IsBackupOf(setting, stored[|was|], c, finds.patterns.value, step.was.volume);
    }

    /** One candidate of a run: restored if its snapshot was found, and left alone otherwise. */
    method RestoreResolved(c: Candidate, id: Option<string>, skipPreBackup: bool, finds: Finds)
      returns (ok: bool, ghost step: Step)
      requires Valid() && id != Some("latest")
      modifies this
      ensures Valid() && log == old(log) + TraceOf(finds, c, id, step.h)
      ensures id.Some? ==> WasRestored(c, id.value, skipPreBackup, finds, ok, step)
      ensures ok ==> id.Some? && R.RestoredFrom(repositories(directory(c.spec.name)), id.value,
                                                SourcePath(c.spec, c.source), volumes(c.source.volumeName))
      ensures forall v | v != c.source.volumeName || id.None? :: volumes(v) == old(volumes)(v)
      ensures forall d :: old(repositories)(d) <= repositories(d)
      ensures !skipPreBackup && volumes(c.source.volumeName) != old(volumes)(c.source.volumeName) ==>
                SavedBy(old(repositories), repositories, c, finds, old(volumes)(c.source.volumeName))
    {
      hide WasRestored, R.Setting.Restores, R.RestoredFrom, SavedBy, AllWellNamed;
      ghost var was := Seen(c);
      if id.None? {
        return false, Step(was, was, [], R.History(0, [], []));
      }
      ghost var err, h;
      ok, err, h := RestoreOne(c, id.value, skipPreBackup, finds);
      step := Step(was, Seen(c), err, h);
      ByRestores(c, id.value, skipPreBackup, finds, ok, step);
      if !skipPreBackup && step.now.volume != was.volume {
        RestoreSaves(old(repositories), repositories, c, id.value, finds, step, ok);
      }
    }

    /** A restore of all volumes from "latest". Every candidate whose snapshot was found goes through the restore of
        module Restoring, one after the other, and nothing else happens: the log is that of the candidates in order.
        Every candidate that succeeded was given the content of the snapshot that was newest before the first
        restore, whatever safety backups the candidates before it added; and its volume still holds it unless a later
        candidate was restored to the same volume. Unless safety backups are skipped, every volume that changed has its
        old content saved. */
    method RestoreAllLatest(selected: seq<Candidate>, skipPreBackup: bool, finds: nat -> Finds)
      returns (succeeded: seq<Candidate>, failed: set<string>, ids: seq<Option<string>>, oks: seq<bool>,
               ghost pins: seq<nat>, ghost contents: seq<R.Content>, ghost steps: seq<Step>)
      requires Valid() && DistinctKeys(selected)
      modifies this
      ensures Valid() && |ids| == |oks| == |pins| == |contents| == |steps| == |selected|
      ensures forall i | 0 <= i < |selected| :: Pinned(old(repositories), old(log), selected[i], ids[i], pins[i])
      ensures EachRestored(selected, ids, skipPreBackup, finds, oks, steps)
      ensures log == old(log) + Traces(selected, ids, finds, steps, |selected|)
      ensures forall i | 0 <= i < |selected| && oks[i] ::
                ids[i].Some? && HoldsPinned(old(repositories), selected[i], pins[i], contents[i])
      ensures forall i | 0 <= i < |selected| && oks[i] && LastOn(selected, ids, i, |selected|) ::
                volumes(selected[i].source.volumeName) == contents[i]
      ensures skipPreBackup || ChangesSaved(old(repositories), old(volumes), repositories, volumes, selected, finds,
                                            |selected|)
      ensures succeeded == Successes(selected, ResolveOf(ids), RestoreOf(oks), |selected|)
      ensures failed == FailedKeys(selected, ResolveOf(ids), RestoreOf(oks), |selected|)
      ensures |succeeded| + |failed| == |selected|
    {
      hide AllWellNamed, HoldsPinned, Results, DistinctKeys, KeyOf, Succeeds, ResolveOf, RestoreOf;
      hide Pinned, WasRestored, EachRestored, ChangesSaved, SavedBy, R.Setting.Restores, TraceOf, Traces;
      hide Successes, FailedKeys, R.RestoredFrom, SourcePath, Seen;
      succeeded, failed, oks, contents, steps := [], {}, [], [], [];
      ghost var before, was := repositories, volumes;
      ids, pins := ResolveAll(selected);
      NoResults(before, volumes, selected, ids, pins);
      NothingChanged(before, was, selected, ids, skipPreBackup, finds);
      for i := 0 to |selected|
        invariant Valid() && |oks| == |contents| == |steps| == i
        invariant forall d :: before(d) <= repositories(d)
        invariant Results(before, volumes, selected, ids, pins, oks, contents)
        invariant EachRestored(selected, ids, skipPreBackup, finds, oks, steps)
        invariant log == old(log) + Traces(selected, ids, finds, steps, i)
        invariant skipPreBackup || ChangesSaved(before, was, repositories, volumes, selected, finds, i)
        invariant succeeded == Successes(selected, ResolveOf(ids), RestoreOf(oks), i)
        invariant failed == FailedKeys(selected, ResolveOf(ids), RestoreOf(oks), i)
      {
        var ok, c := false, selected[i];
        var id, name := ids[i], c.source.volumeName;
        ghost var halfway, middle := volumes, repositories;
        ghost var step;
        PinnedName(before, old(log), c, id, pins[i]);
        ok, step := RestoreResolved(c, id, skipPreBackup, finds(i));
        if ok {
          PinHolds(before, repositories, old(log), c, id.value, pins[i], SourcePath(c.spec, c.source), volumes(name));
        }
        if !skipPreBackup {
          OneMoreSaved(before, was, middle, halfway, repositories, volumes, selected, finds, i);
        }
        OneMoreStep(selected, ids, skipPreBackup, finds, oks, steps, ok, step);
        OneMoreTrace(selected, ids, finds, steps, step, old(log));
        OneMoreResult(selected, ids, oks, ok, i);
        OneMoreRestored(before, halfway, volumes, selected, ids, pins, oks, contents, ok);
        oks, contents, steps := oks + [ok], contents + [volumes(name)], steps + [step];
        if ok {
          succeeded := succeeded + [c];
        } else {
          failed := failed + {KeyOf(c)};
        }
      }
      Accounted(selected, ResolveOf(ids), RestoreOf(oks), |selected|);
      AllRestored(before, volumes, selected, ids, pins, oks, contents);
    }

    lemma {:induction false} NothingChanged(before: string -> seq<R.Stored>, was: string -> R.Content,
        selected: seq<Candidate>, ids: seq<Option<string>>, skipPreBackup: bool, finds: nat -> Finds)
      requires |selected| == |ids|
      ensures ChangesSaved(before, was, before, was, selected, finds, 0)
      ensures EachRestored(selected, ids, skipPreBackup, finds, [], []) && Traces(selected, ids, finds, [], 0) == []
      ensures Successes(selected, ResolveOf(ids), RestoreOf([]), 0) == []
      ensures FailedKeys(selected, ResolveOf(ids), RestoreOf([]), 0) == {}
    {
    }

    /** What one restore gives for the record of the run. */
    lemma {:induction false} ByRestores(c: Candidate, id: string, skipPreBackup: bool, finds: Finds, ok: bool,
        step: Step)
      requires ok <==> step.err == []
      requires setting.Restores(step.was, step.now, finds.listed, c.spec, c.source, id, skipPreBackup, finds.patterns,
                                step.err, step.h)
      ensures WasRestored(c, id, skipPreBackup, finds, ok, step)
      ensures step.now.log == step.was.log + TraceOf(finds, c, Some(id), step.h)
      ensures ok ==> R.RestoredFrom(step.now.stored, id, SourcePath(c.spec, c.source), step.now.volume)
    {
      hide R.Setting.Replied, R.RestoredFrom, R.Trace, R.FailedStarts, R.Setting.Saved;
    }

    /** A candidate whose snapshot was found fails only with a call that failed, or because the containers could not be
        listed or the exclude files not be read. */
    lemma {:induction false} FailuresHaveCauses(c: Candidate, id: string, skipPreBackup: bool, finds: Finds, ok: bool,
        step: Step)
      requires WasRestored(c, id, skipPreBackup, finds, ok, step)
      requires finds.listed.Some? && (skipPreBackup || finds.patterns.Some?)
      ensures !ok <==> R.SomeFailed(TraceOf(finds, c, Some(id), step.h))
    {
      hide R.Setting.Replied, R.RestoredFrom, R.Trace, R.FailedStarts, R.Setting.Saved;
      R.ErrorHasCause(setting, step.was, step.now, finds.listed, c.spec, c.source, id, skipPreBackup, finds.patterns,
                      step.err, step.h);
    }

    /** What is known after the first restores. */
    ghost predicate Results(before: string -> seq<R.Stored>, volumes: string -> R.Content, selected: seq<Candidate>,
                            ids: seq<Option<string>>, pins: seq<nat>, oks: seq<bool>, contents: seq<R.Content>)
    {
      && |contents| == |oks| <= |selected| == |ids| == |pins|
      && forall j | 0 <= j < |oks| && oks[j] ::
           && ids[j].Some? && HoldsPinned(before, selected[j], pins[j], contents[j])
           && (LastOn(selected, ids, j, |oks|) ==> volumes(selected[j].source.volumeName) == contents[j])
    }

    lemma {:induction false} NoResults(before: string -> seq<R.Stored>, volumes: string -> R.Content,
        selected: seq<Candidate>, ids: seq<Option<string>>, pins: seq<nat>)
      requires |selected| == |ids| == |pins|
      ensures Results(before, volumes, selected, ids, pins, [], [])
    {
    }

    lemma {:induction false} OneMoreRestored(before: string -> seq<R.Stored>, was: string -> R.Content,
        now: string -> R.Content, selected: seq<Candidate>, ids: seq<Option<string>>, pins: seq<nat>,
        oks: seq<bool>, contents: seq<R.Content>, ok: bool)
      requires Results(before, was, selected, ids, pins, oks, contents) && |oks| < |selected|
      requires var c := selected[|oks|];
               && (forall v | v != c.source.volumeName || ids[|oks|].None? :: now(v) == was(v))
               && (ok ==> ids[|oks|].Some? && HoldsPinned(before, c, pins[|oks|], now(c.source.volumeName)))
      ensures Results(before, now, selected, ids, pins, oks + [ok], contents + [now(selected[|oks|].source.volumeName)])
    {
      hide HoldsPinned;
      var i := |oks|;
      forall j | 0 <= j < i && LastOn(selected, ids, j, i + 1)
        ensures LastOn(selected, ids, j, i)
        ensures now(selected[j].source.volumeName) == was(selected[j].source.volumeName)
      {
      }
    }

    lemma {:induction false} AllRestored(before: string -> seq<R.Stored>, volumes: string -> R.Content,
        selected: seq<Candidate>, ids: seq<Option<string>>, pins: seq<nat>, oks: seq<bool>, contents: seq<R.Content>)
      requires Results(before, volumes, selected, ids, pins, oks, contents) && |oks| == |selected|
      ensures forall i | 0 <= i < |selected| && oks[i] ::
                ids[i].Some? && HoldsPinned(before, selected[i], pins[i], contents[i])
      ensures forall i | 0 <= i < |selected| && oks[i] && LastOn(selected, ids, i, |selected|) ::
                volumes(selected[i].source.volumeName) == contents[i]
    {
    }
  }

  /** Among the first n, no candidate after i was restored to the volume of i. */
  ghost predicate LastOn(selected: seq<Candidate>, ids: seq<Option<string>>, i: nat, n: nat)
    requires n <= |selected| == |ids| && i < |selected|
  {
    forall j | i < j < n && ids[j].Some? :: selected[j].source.volumeName != selected[i].source.volumeName
  }

  lemma {:induction false} OneMoreResult(selected: seq<Candidate>, ids: seq<Option<string>>, oks: seq<bool>, ok: bool,
      i: nat)
    requires i == |oks| < |selected| == |ids| && (ok ==> ids[i].Some?)
    ensures var resolve, was, now := ResolveOf(ids), RestoreOf(oks), RestoreOf(oks + [ok]);
            && Successes(selected, resolve, now, i + 1)
               == Successes(selected, resolve, was, i) + (if ok then [selected[i]] else [])
            && FailedKeys(selected, resolve, now, i + 1)
               == FailedKeys(selected, resolve, was, i) + (if ok then {} else {KeyOf(selected[i])})
  {
    SameResults(selected, ResolveOf(ids), RestoreOf(oks), RestoreOf(oks + [ok]), i);
  }

  lemma {:induction false} SameResults(selected: seq<Candidate>, resolve: nat -> Option<string>,
      r: (nat, string) -> bool, q: (nat, string) -> bool, n: nat)
    requires n <= |selected| && forall i: nat, id | i < n :: r(i, id) == q(i, id)
    ensures Successes(selected, resolve, r, n) == Successes(selected, resolve, q, n)
    ensures FailedKeys(selected, resolve, r, n) == FailedKeys(selected, resolve, q, n)
  {
    if n > 0 {
      SameResults(selected, resolve, r, q, n - 1);
    }
  }
}
