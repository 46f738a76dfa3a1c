/** Restoring all named volumes of a profile (internal/app/app.go, resolveAllVolumeRestoreSelection,
    resolveRestoreSnapshots, runRestoreAllVolumes). Each snapshot query and each restore may fail. */
module AllVolumes {
  import opened Text
  import opened Sources

  datatype Candidate = Candidate(spec: Spec, source: Source)

  predicate NamesVolume(c: Candidate) {
    c.source.kind == "volume" && c.source.volumeName != ""
  }

  /** restoreSnapshotKey. */
  function KeyOf(c: Candidate): string {
    c.spec.name + [NUL] + c.source.id
  }

  lemma {:induction false} NamedVolumes()
    ensures forall c :: NamesVolume(c) <==> c.source.kind == "volume" && c.source.volumeName != ""
  {
  }

  predicate SameSource(a: Candidate, b: Candidate) {
    a.spec.name == b.spec.name && a.source.id == b.source.id
  }

  ghost predicate NulFree(candidates: seq<Candidate>) {
    forall c | c in candidates :: NUL !in c.spec.name && NUL !in c.source.id
  }

  /** Equal keys mean the same app and source id. */
  lemma {:induction false} KeysMean(a: Candidate, b: Candidate)
    requires NulFree([a, b])
    ensures KeyOf(a) == KeyOf(b) <==> SameSource(a, b)
  {
    assert a in [a, b] && b in [a, b];
    BeforeFirst(a.spec.name, NUL, a.source.id);
    BeforeFirst(b.spec.name, NUL, b.source.id);
    assert KeyOf(a)[|a.spec.name| + 1..] == a.source.id && KeyOf(b)[|b.spec.name| + 1..] == b.source.id;
  }

  /** The first candidate with a named volume of its app and source id. */
  ghost predicate IsFirst(candidates: seq<Candidate>, i: nat) {
    && i < |candidates| && NamesVolume(candidates[i])
    && forall j | 0 <= j < i && NamesVolume(candidates[j]) :: !SameSource(candidates[j], candidates[i])
  }

  /** `at` lists in order exactly the first candidates. */
  ghost predicate AreFirsts(candidates: seq<Candidate>, at: seq<nat>) {
    && (forall a, b | 0 <= a < b < |at| :: at[a] < at[b])
    && (forall i: nat | i < |candidates| :: i in at <==> IsFirst(candidates, i))
    && (forall i | i in at :: i < |candidates|)
  }

  /** The same by key. */
  ghost predicate IsFirstKey(candidates: seq<Candidate>, i: nat) {
    && i < |candidates| && NamesVolume(candidates[i])
    && forall j | 0 <= j < i && NamesVolume(candidates[j]) :: KeyOf(candidates[j]) != KeyOf(candidates[i])
  }

  ghost predicate AreFirstKeys(candidates: seq<Candidate>, at: seq<nat>) {
    && (forall a, b | 0 <= a < b < |at| :: at[a] < at[b])
    && (forall i: nat | i < |candidates| :: i in at <==> IsFirstKey(candidates, i))
    && (forall i | i in at :: i < |candidates|)
  }

  lemma {:induction false} FirstsAreKeys(candidates: seq<Candidate>, at: seq<nat>)
    requires NulFree(candidates) && AreFirstKeys(candidates, at)
    ensures AreFirsts(candidates, at)
  {
    hide KeyOf, NamesVolume, SameSource;
    forall i: nat | i < |candidates| ensures i in at <==> IsFirst(candidates, i) {
      forall j | 0 <= j < i
        ensures KeyOf(candidates[j]) == KeyOf(candidates[i]) <==> SameSource(candidates[j], candidates[i])
      {
        assert candidates[i] in candidates && candidates[j] in candidates;
        KeysMean(candidates[j], candidates[i]);
      }
      assert IsFirst(candidates, i) <==> IsFirstKey(candidates, i);
    }
  }

  ghost predicate DistinctKeys(selected: seq<Candidate>) {
    forall i, j | 0 <= i < j < |selected| :: KeyOf(selected[i]) != KeyOf(selected[j])
  }

  /** resolveAllVolumeRestoreSelection: the first candidates in order, or an error if no candidate has a named
      volume. */
  method SelectVolumes(candidates: seq<Candidate>) returns (r: Option<seq<Candidate>>, ghost at: seq<nat>)
    ensures AreFirstKeys(candidates, at) && (NulFree(candidates) ==> AreFirsts(candidates, at))
    ensures r.None? <==> forall c | c in candidates :: !(c.source.kind == "volume" && c.source.volumeName != "")
    ensures r.Some? ==> forall c | c in r.value :: c.source.kind == "volume" && c.source.volumeName != ""
    ensures r.None? ==> at == []
    ensures r.Some? ==> |r.value| == |at| > 0 && DistinctKeys(r.value)
    ensures r.Some? ==> forall k | 0 <= k < |at| :: at[k] < |candidates| && r.value[k] == candidates[at[k]]
  {
    hide KeyOf, NamesVolume, NulFree, AreFirsts;
    var seen: set<string> := {};
    var selected: seq<Candidate> := [];
    at := [];
    for i := 0 to |candidates|
      invariant |selected| == |at| && forall k | 0 <= k < |at| :: at[k] < i && selected[k] == candidates[at[k]]
      invariant forall k | 0 <= k < |selected| :: NamesVolume(selected[k])
      invariant forall a, b | 0 <= a < b < |at| :: at[a] < at[b]
      invariant forall j: nat | j < i :: j in at <==> IsFirstKey(candidates, j)
      invariant forall j | 0 <= j < i && NamesVolume(candidates[j]) :: KeyOf(candidates[j]) in seen
      invariant forall key | key in seen ::
                  exists j | 0 <= j < i :: NamesVolume(candidates[j]) && KeyOf(candidates[j]) == key
      invariant forall j | 0 <= j < i && NamesVolume(candidates[j]) :: at != []
    {
      var candidate := candidates[i];
      if !NamesVolume(candidate) {
        continue;
      }
      var key := KeyOf(candidate);
      if key in seen {
        continue;
      }
      seen := seen + {key};
      selected := selected + [candidate];
      at := at + [i];
    }
    forall a, b | 0 <= a < b < |at| ensures KeyOf(selected[a]) != KeyOf(selected[b]) {
      assert at[a] in at && at[b] in at && IsFirstKey(candidates, at[a]) && IsFirstKey(candidates, at[b]);
    }
    if at != [] {
      assert at[0] in at && IsFirstKey(candidates, at[0]) && candidates[at[0]] in candidates;
    }
    if NulFree(candidates) {
      FirstsAreKeys(candidates, at);
    }
    NamedVolumes();
    r := if |selected| == 0 then None else Some(selected);
  }

  ghost predicate Covered(candidates: seq<Candidate>, at: seq<nat>, i: nat)
    requires i < |candidates|
  {
    exists f: nat | f in at && f < |candidates| :: SameVolume(candidates[f], candidates[i])
  }

  predicate SameVolume(a: Candidate, b: Candidate) {
    SameSource(a, b) && a.source.volumeName == b.source.volumeName
  }

  ghost predicate SourcesFixVolumes(candidates: seq<Candidate>) {
    forall i, j | 0 <= i < j < |candidates| && NamesVolume(candidates[i]) && NamesVolume(candidates[j]) ::
      SameSource(candidates[i], candidates[j]) ==> SameVolume(candidates[i], candidates[j])
  }

  lemma {:induction false} FirstOfSource(candidates: seq<Candidate>, i: nat) returns (f: nat)
    requires i < |candidates| && NamesVolume(candidates[i])
    ensures f <= i && IsFirst(candidates, f) && SameSource(candidates[f], candidates[i])
  {
    if IsFirst(candidates, i) {
      return i;
    }
    var j: nat :| j < i && NamesVolume(candidates[j]) && SameSource(candidates[j], candidates[i]);
    f := FirstOfSource(candidates, j);
  }

  /** Every candidate is restored under its own app and source id exactly when no two candidates of one app and
      source id name two volumes. */
  lemma {:induction false} SourcesLeftOut(candidates: seq<Candidate>, at: seq<nat>)
    requires AreFirsts(candidates, at)
    ensures (forall i: nat | i < |candidates| && NamesVolume(candidates[i]) :: Covered(candidates, at, i))
       <==> SourcesFixVolumes(candidates)
  {
    hide NamesVolume;
    if forall i: nat | i < |candidates| && NamesVolume(candidates[i]) :: Covered(candidates, at, i) {
      forall i: nat, j: nat | i < j < |candidates| && NamesVolume(candidates[i]) && NamesVolume(candidates[j])
                      && SameSource(candidates[i], candidates[j])
        ensures SameVolume(candidates[i], candidates[j])
      {
        assert Covered(candidates, at, i) && Covered(candidates, at, j);
        var f: nat :| f in at && f < |candidates| && SameVolume(candidates[f], candidates[i]);
        var g: nat :| g in at && g < |candidates| && SameVolume(candidates[g], candidates[j]);
        assert IsFirst(candidates, f) && IsFirst(candidates, g) && SameSource(candidates[f], candidates[g]);
        assert f == g;
      }
    }
    if SourcesFixVolumes(candidates) {
      forall i: nat | i < |candidates| && NamesVolume(candidates[i]) ensures Covered(candidates, at, i) {
        var f := FirstOfSource(candidates, i);
        assert f in at && SameVolume(candidates[f], candidates[i]);
      }
    }
  }

  /** Some selected candidate names the volume. */
  ghost predicate VolumeSelected(candidates: seq<Candidate>, at: seq<nat>, volume: string) {
    exists f: nat | f in at && f < |candidates| :: candidates[f].source.volumeName == volume
  }

  /** Some candidate names the volume, and no earlier one with a named volume has its app and source id. */
  ghost predicate VolumeComesFirst(candidates: seq<Candidate>, volume: string) {
    exists f: nat | IsFirst(candidates, f) :: candidates[f].source.volumeName == volume
  }

  /** A volume is restored exactly when some candidate that names it is the first of its app and source id: that
      the selection holds exactly those candidates is what SelectVolumes proves. If no two candidates of one
      app and source id name two volumes, every named volume is restored. */
  lemma {:induction false} VolumesLeftOut(candidates: seq<Candidate>, at: seq<nat>, volume: string)
    requires AreFirsts(candidates, at)
    ensures VolumeSelected(candidates, at, volume) <==> VolumeComesFirst(candidates, volume)
    ensures SourcesFixVolumes(candidates) ==>
              forall i: nat | i < |candidates| && NamesVolume(candidates[i]) ::
                VolumeSelected(candidates, at, candidates[i].source.volumeName)
  {
    if VolumeComesFirst(candidates, volume) {
      var f: nat :| IsFirst(candidates, f) && candidates[f].source.volumeName == volume;
      assert f in at;
    }
    if SourcesFixVolumes(candidates) {
      forall i: nat | i < |candidates| && NamesVolume(candidates[i])
        ensures VolumeSelected(candidates, at, candidates[i].source.volumeName)
      {
        var f := FirstOfSource(candidates, i);
        assert f in at && SameVolume(candidates[f], candidates[i]);
      }
    }
  }

  function OnVolume(app: string, id: string, volume: string): Candidate {
    Candidate(Spec("", "", false, app, "", "", [], None, [], []), Source(id, "", "", volume, "volume", false))
  }

  /** Two containers of one app mount two volumes at one path: the second volume is left out. Another app that
      mounts it brings it back. */
  lemma {:induction false} SecondVolume()
    ensures var a, b := OnVolume("blog", "data", "v1"), OnVolume("blog", "data", "v2");
            var c := OnVolume("wiki", "data", "v2");
            && AreFirsts([a, b], [0]) && !VolumeSelected([a, b], [0], "v2")
            && AreFirsts([a, b, c], [0, 2]) && VolumeSelected([a, b, c], [0, 2], "v2")
            && !SourcesFixVolumes([a, b]) && !SourcesFixVolumes([a, b, c])
  {
    var a, b, c := OnVolume("blog", "data", "v1"), OnVolume("blog", "data", "v2"), OnVolume("wiki", "data", "v2");
    assert "blog"[0] == 'b' && "wiki"[0] == 'w';
    assert "v1"[1] != "v2"[1];
    var two, three := [a, b], [a, b, c];
    assert two[0] == three[0] == a && two[1] == three[1] == b && three[2] == c;
    assert IsFirst(two, 0) && !IsFirst(two, 1);
    assert IsFirst(three, 0) && !IsFirst(three, 1) && IsFirst(three, 2);
    assert [0, 2][0] == 0 && [0, 2][1] == 2;
    assert 2 in [0, 2] && three[2].source.volumeName == "v2";
    assert !SameVolume(two[0], two[1]) && !SameVolume(three[0], three[1]);
  }

  /** Two sources of one app on two volumes are both restored. */
  lemma {:induction false} TwoSources()
    ensures var a, b := OnVolume("blog", "db", "v1"), OnVolume("blog", "media", "v2");
            && NulFree([a, b]) && AreFirsts([a, b], [0, 1]) && SourcesFixVolumes([a, b])
            && VolumeSelected([a, b], [0, 1], "v1") && VolumeSelected([a, b], [0, 1], "v2")
  {
    var a, b := OnVolume("blog", "db", "v1"), OnVolume("blog", "media", "v2");
    var two, at: seq<nat> := [a, b], [0, 1];
    assert "db"[0] != "media"[0] && two[0] == a && two[1] == b;
    assert IsFirst(two, 0) && IsFirst(two, 1) && at[0] == 0 && at[1] == 1;
    assert two[0].source.volumeName == "v1" && two[1].source.volumeName == "v2";
  }

  // ---- The run ----

  datatype Event = Preflight(i: nat) | Attempt(i: nat)

  datatype Outcome =
    | NothingSelected
    | NotConfirmed
    | BadLimit
    | Completed
    | CompletedWithFailures(failed: nat, succeeded: nat, first: nat)

  function Preflights(n: nat): (t: seq<Event>)
    ensures |t| == n && forall i | 0 <= i < n :: t[i] == Preflight(i)
  {
    seq(n, i requires 0 <= i < n => Preflight(i))
  }

  /** The restores attempted: in order, those whose snapshot was resolved. */
  ghost function Attempts(resolve: nat -> Option<string>, n: nat): seq<Event> {
    if n == 0 then []
    else Attempts(resolve, n - 1) + (if resolve(n - 1).Some? then [Attempt(n - 1)] else [])
  }

  ghost predicate Succeeds(resolve: nat -> Option<string>, restore: (nat, string) -> bool, i: nat) {
    resolve(i).Some? && restore(i, resolve(i).value)
  }

  /** The candidates among the first n that are restored. */
  ghost function Successes(selected: seq<Candidate>, resolve: nat -> Option<string>, restore: (nat, string) -> bool,
                           n: nat): seq<Candidate>
    requires n <= |selected|
  {
    if n == 0 then []
    else Successes(selected, resolve, restore, n - 1)
         + (if Succeeds(resolve, restore, n - 1) then [selected[n - 1]] else [])
  }

  /** The keys of the candidates among the first n that are not restored. */
  ghost function FailedKeys(selected: seq<Candidate>, resolve: nat -> Option<string>, restore: (nat, string) -> bool,
                            n: nat): set<string>
    requires n <= |selected|
  {
    if n == 0 then {}
    else FailedKeys(selected, resolve, restore, n - 1)
         + (if Succeeds(resolve, restore, n - 1) then {} else {KeyOf(selected[n - 1])})
  }

  /** Each of the first n candidates is in exactly one of the two results, and nothing else is. */
  lemma {:induction false} Accounted(selected: seq<Candidate>, resolve: nat -> Option<string>,
                                     restore: (nat, string) -> bool, n: nat)
    requires n <= |selected| && DistinctKeys(selected)
    ensures |Successes(selected, resolve, restore, n)| + |FailedKeys(selected, resolve, restore, n)| == n
    ensures forall j: nat | j < |selected| ::
              KeyOf(selected[j]) in FailedKeys(selected, resolve, restore, n)
              <==> j < n && !Succeeds(resolve, restore, j)
    ensures forall j: nat | j < |selected| ::
              selected[j] in Successes(selected, resolve, restore, n) <==> j < n && Succeeds(resolve, restore, j)
  {
    if n > 0 {
      Accounted(selected, resolve, restore, n - 1);
      assert forall j: nat | j < |selected| && j != n - 1 :: KeyOf(selected[j]) != KeyOf(selected[n - 1]);
    }
  }

  /** resolveRestoreSnapshots: every candidate's snapshot is resolved; resolve(i) is what the query of the
      i-th gives. */
  method ResolveRestoreSnapshots(selected: seq<Candidate>, resolve: nat -> Option<string>)
    returns (resolved: map<string, string>, failed: set<string>, trace: seq<Event>)
    requires DistinctKeys(selected)
    ensures trace == Preflights(|selected|)
    ensures forall i: nat | i < |selected| :: KeyOf(selected[i]) in failed <==> resolve(i).None?
    ensures forall i: nat | i < |selected| && resolve(i).Some? ::
              KeyOf(selected[i]) in resolved && resolved[KeyOf(selected[i])] == resolve(i).value
  {
    resolved, failed, trace := map[], {}, [];
    for i := 0 to |selected|
      invariant trace == Preflights(i)
      invariant forall key | key in failed || key in resolved :: exists j | 0 <= j < i :: KeyOf(selected[j]) == key
      invariant forall j: nat | j < i :: KeyOf(selected[j]) in failed <==> resolve(j).None?
      invariant forall j: nat | j < i && resolve(j).Some? ::
                  KeyOf(selected[j]) in resolved && resolved[KeyOf(selected[j])] == resolve(j).value
    {
      trace := trace + [Preflight(i)];
      var key := KeyOf(selected[i]);
      var snapshot := resolve(i);
      if snapshot.None? {
        failed := failed + {key};
        continue;
      }
      resolved := resolved[key := snapshot.value];
    }
  }

  /** The restore loop of runRestoreAllVolumes. */
  method RestoreEach(selected: seq<Candidate>, resolved: map<string, string>, unresolved: set<string>,
                     ghost resolve: nat -> Option<string>, restore: (nat, string) -> bool)
    returns (trace: seq<Event>, succeeded: seq<Candidate>, failed: set<string>)
    requires DistinctKeys(selected)
    requires forall i: nat | i < |selected| :: KeyOf(selected[i]) in unresolved <==> resolve(i).None?
    requires forall i: nat | i < |selected| && resolve(i).Some? ::
               KeyOf(selected[i]) in resolved && resolved[KeyOf(selected[i])] == resolve(i).value
    ensures trace == Attempts(resolve, |selected|)
    ensures succeeded == Successes(selected, resolve, restore, |selected|)
    ensures failed == FailedKeys(selected, resolve, restore, |selected|)
  {
    trace, succeeded, failed := [], [], {};
    for i := 0 to |selected|
      invariant trace == Attempts(resolve, i)
      invariant succeeded == Successes(selected, resolve, restore, i)
      invariant failed == FailedKeys(selected, resolve, restore, i)
    {
      var key := KeyOf(selected[i]);
      if key in unresolved {
        failed := failed + {key};
        continue;
      }
      trace := trace + [Attempt(i)];
      if !restore(i, resolved[key]) {
        failed := failed + {key};
        continue;
      }
      succeeded := succeeded + [selected[i]];
    }
  }

  /** runRestoreAllVolumes: all snapshots are resolved before the first restore; a restore is attempted exactly
      for the candidates whose snapshot was resolved, in order and whatever became of the others; each
      candidate either succeeded or failed; the run is an error exactly if one failed, and reports the first. */
  method RunRestoreAllVolumes(candidates: seq<Candidate>, confirmed: bool, limitReadable: bool,
                              resolve: nat -> Option<string>, restore: (nat, string) -> bool)
    returns (outcome: Outcome, trace: seq<Event>, succeeded: seq<Candidate>, failed: set<string>,
             ghost at: seq<nat>, ghost selected: seq<Candidate>)
    ensures AreFirstKeys(candidates, at) && (NulFree(candidates) ==> AreFirsts(candidates, at))
    ensures |selected| == |at| && DistinctKeys(selected)
    ensures forall k | 0 <= k < |at| :: at[k] < |candidates| && selected[k] == candidates[at[k]]
    ensures outcome.NothingSelected? <==> selected == []
    ensures outcome.NothingSelected? || outcome.NotConfirmed? ==> trace == []
    ensures outcome.BadLimit? ==> trace == Preflights(|selected|)
    ensures selected != [] ==> (outcome.NotConfirmed? <==> !confirmed)
    ensures selected != [] ==> (outcome.BadLimit? <==> confirmed && !limitReadable)
    ensures outcome.Completed? || outcome.CompletedWithFailures? ==>
              && trace == Preflights(|selected|) + Attempts(resolve, |selected|)
              && succeeded == Successes(selected, resolve, restore, |selected|)
              && failed == FailedKeys(selected, resolve, restore, |selected|)
              && |succeeded| + |failed| == |selected|
    ensures outcome.Completed? ==> failed == {} && succeeded == selected
    ensures outcome.CompletedWithFailures? ==>
              && outcome.failed == |failed| > 0 && outcome.succeeded == |succeeded| && outcome.first < |selected|
              && !Succeeds(resolve, restore, outcome.first)
              && forall i: nat | i < outcome.first :: Succeeds(resolve, restore, i)
  {
    hide Attempts, AreFirsts, AreFirstKeys, NulFree, NamesVolume, KeyOf, Succeeds, Successes, FailedKeys;
    trace, succeeded, failed, selected := [], [], {}, [];
    var selection;
    selection, at := SelectVolumes(candidates);
    if selection.None? {
      outcome := NothingSelected;
      return;
    }
    var chosen := selection.value;
    selected := chosen;
    if !confirmed {
      outcome := NotConfirmed;
      return;
    }
    var resolved, unresolved;
    resolved, unresolved, trace := ResolveRestoreSnapshots(chosen, resolve);
    if !limitReadable {
      outcome := BadLimit;
      return;
    }
    var attempts;
    attempts, succeeded, failed := RestoreEach(chosen, resolved, unresolved, resolve, restore);
    trace := trace + attempts;
    Accounted(chosen, resolve, restore, |chosen|);
    if |failed| > 0 {
      for i := 0 to |chosen|
        invariant forall j: nat | j < i :: Succeeds(resolve, restore, j)
      {
        if KeyOf(chosen[i]) in failed {
          outcome := CompletedWithFailures(|failed|, |succeeded|, i);
          return;
        }
      }
      NoFailure(chosen, resolve, restore, |chosen|);
      assert false;
    }
    AllSucceeded(chosen, resolve, restore, |chosen|);
    outcome := Completed;
  }

  lemma {:induction false} NoFailure(selected: seq<Candidate>, resolve: nat -> Option<string>,
                                     restore: (nat, string) -> bool, n: nat)
    requires n <= |selected| && forall j: nat | j < n :: Succeeds(resolve, restore, j)
    ensures FailedKeys(selected, resolve, restore, n) == {}
  {
    if n > 0 {
      NoFailure(selected, resolve, restore, n - 1);
    }
  }

  lemma {:induction false} AllSucceeded(selected: seq<Candidate>, resolve: nat -> Option<string>,
                                        restore: (nat, string) -> bool, n: nat)
    requires n <= |selected| && |Successes(selected, resolve, restore, n)| == n
    ensures Successes(selected, resolve, restore, n) == selected[..n]
  {
    if n > 0 {
      FewerSuccesses(selected, resolve, restore, n - 1);
      AllSucceeded(selected, resolve, restore, n - 1);
    }
  }

  lemma {:induction false} FewerSuccesses(selected: seq<Candidate>, resolve: nat -> Option<string>,
                                          restore: (nat, string) -> bool, n: nat)
    requires n <= |selected|
    ensures |Successes(selected, resolve, restore, n)| <= n
  {
    if n > 0 {
      FewerSuccesses(selected, resolve, restore, n - 1);
    }
  }
}
