/** Choosing a snapshot by its tags (internal/restic/command.go, LatestSnapshot). */
module Snapshots {
  import opened Text
  import opened Sources
  import opened Restic

  datatype Snapshot = Snapshot(id: string, shortID: string, time: string, tags: seq<string>)

  function SnapshotID(s: Snapshot): string {
    if s.shortID != "" then s.shortID else s.id
  }

  /** Which source of which app a command is about; an empty container is not compared. */
  datatype Wanted = Wanted(app: string, container: string, profile: string, source: string)

  function Required(w: Wanted): set<string> {
    {"volust", "app:" + w.app, "profile:" + w.profile, "source:" + w.source}
    + (if w.container != "" then {"container:" + w.container} else {})
  }

  /** The snapshot has the tags of the source; that of the container only if one is wanted. */
  ghost predicate Matches(s: Snapshot, w: Wanted) {
    && "volust" in s.tags && "app:" + w.app in s.tags && "profile:" + w.profile in s.tags
    && "source:" + w.source in s.tags && (w.container != "" ==> "container:" + w.container in s.tags)
  }

  lemma {:induction false} MatchesRequired(s: Snapshot, w: Wanted)
    ensures Matches(s, w) <==> forall tag | tag in Required(w) :: tag in s.tags
  {
    assert "volust" in Required(w) && "app:" + w.app in Required(w) && "profile:" + w.profile in Required(w);
    assert "source:" + w.source in Required(w);
    assert w.container != "" ==> "container:" + w.container in Required(w);
  }

  /** The match test of LatestSnapshot's loop. */
  method HasTags(s: Snapshot, w: Wanted) returns (ok: bool)
    ensures ok <==> Matches(s, w)
  {
    hide Matches;
    MatchesRequired(s, w);
    var seen: set<string> := {};
    for i := 0 to |s.tags|
      invariant forall tag :: tag in seen <==> tag in s.tags[..i]
    {
      seen := seen + {s.tags[i]};
    }
    assert s.tags[..|s.tags|] == s.tags;
    var rest := Required(w);
    while rest != {}
      invariant rest <= Required(w)
      invariant forall tag | tag in Required(w) && tag !in rest :: tag in s.tags
      decreases |rest|
    {
      var tag :| tag in rest;
      if tag !in seen {
        return false;
      }
      rest := rest - {tag};
    }
    return true;
  }

  ghost predicate NewestFirst(s: seq<Snapshot>) {
    forall i, j | 0 <= i < j < |s| :: StrLe(s[j].time, s[i].time)
  }

  /** sort.Slice by descending time. The order of equal times is not fixed by the contract. */
  method SortNewestFirst(s: seq<Snapshot>) returns (r: seq<Snapshot>)
    ensures multiset(r) == multiset(s) && NewestFirst(r)
  {
    r := [];
    for i := 0 to |s|
      invariant multiset(r) == multiset(s[..i]) && NewestFirst(r)
    {
      r := Insert(s[i], r);
      assert s[..i + 1] == s[..i] + [s[i]];
    }
    assert s[..|s|] == s;
  }

  lemma {:induction false} Inserted(s: seq<Snapshot>, k: nat, x: Snapshot)
    requires k <= |s| && NewestFirst(s)
    requires forall i | 0 <= i < k :: StrLe(x.time, s[i].time)
    requires forall i | k <= i < |s| :: StrLe(s[i].time, x.time)
    ensures NewestFirst(s[..k] + [x] + s[k..])
    ensures multiset(s[..k] + [x] + s[k..]) == multiset(s) + multiset{x}
  {
    hide StrLe;
    assert s == s[..k] + s[k..];
    var r := s[..k] + [x] + s[k..];
    forall i, j | 0 <= i < j < |r| ensures StrLe(r[j].time, r[i].time) {
      if i != k && j != k {
        var a, b := if i < k then i else i - 1, if j < k then j else j - 1;
        assert r[i] == s[a] && r[j] == s[b];
      }
    }
  }

  method Insert(x: Snapshot, s: seq<Snapshot>) returns (r: seq<Snapshot>)
    requires NewestFirst(s)
    ensures multiset(r) == multiset(s) + multiset{x} && NewestFirst(r)
  {
    hide StrLe;
    var k := 0;
    while k < |s| && StrLe(x.time, s[k].time)
      invariant k <= |s| && forall i | 0 <= i < k :: StrLe(x.time, s[i].time)
    {
      k := k + 1;
    }
    forall i | k <= i < |s| ensures StrLe(s[i].time, x.time) {
      StrLeTotal(s[k].time, x.time);
      if i > k {
        StrLeTransitive(s[i].time, s[k].time, x.time);
      }
    }
    Inserted(s, k, x);
    r := s[..k] + [x] + s[k..];
  }

  /** LatestSnapshot: one of the newest of all snapshots that match, or none exactly when none matches. */
  method LatestSnapshot(snapshots: seq<Snapshot>, w: Wanted) returns (r: Option<Snapshot>)
    ensures r.None? <==> forall s | s in snapshots :: !Matches(s, w)
    ensures r.Some? ==> r.value in snapshots && Matches(r.value, w)
    ensures r.Some? ==> forall s | s in snapshots && Matches(s, w) :: StrLe(s.time, r.value.time)
  {
    var matches: seq<Snapshot> := [];
    for i := 0 to |snapshots|
      invariant forall s :: s in matches <==> s in snapshots[..i] && Matches(s, w)
    {
      var ok := HasTags(snapshots[i], w);
      if ok {
        matches := matches + [snapshots[i]];
      }
    }
    assert snapshots[..|snapshots|] == snapshots;
    if |matches| == 0 {
      return None;
    }
    var sorted := SortNewestFirst(matches);
    SameMembers(sorted, matches);
    StrLeTotal(sorted[0].time, sorted[0].time);
    assert sorted[0] in sorted && sorted[0] in matches;
    return Some(sorted[0]);
  }

  lemma {:induction false} SameMembers(a: seq<Snapshot>, b: seq<Snapshot>)
    requires multiset(a) == multiset(b)
    ensures forall s :: s in a <==> s in b
    ensures |a| == |b|
  {
    assert forall s :: s in a <==> s in multiset(a);
    assert forall s :: s in b <==> s in multiset(b);
    assert |multiset(a)| == |a| && |multiset(b)| == |b|;
  }

  /** A snapshot that a backup of this source made is matched exactly by a request that agrees on app,
      profile and source, and on the container unless the request names none. */
  lemma {:induction false} SnapshotIdentity(s: Snapshot, spec: Spec, sourceID: string, w: Wanted)
    requires s.tags == SnapshotTags(spec, sourceID)
    ensures Matches(s, w) <==>
              && w.app == spec.name && w.profile == spec.profile && w.source == sourceID
              && (w.container == "" || w.container == spec.containerName)
  {
    var tags := s.tags;
    SameSuffix("app:", w.app, spec.name);
    SameSuffix("container:", w.container, spec.containerName);
    SameSuffix("profile:", w.profile, spec.profile);
    SameSuffix("source:", w.source, sourceID);
    assert tags[0] == "volust" && tags[1] == "app:" + spec.name && tags[2] == "container:" + spec.containerName;
    assert tags[3] == "profile:" + spec.profile && tags[4] == "source:" + sourceID;
    TagIn(tags, 'a', "app:" + w.app, 1);
    TagIn(tags, 'c', "container:" + w.container, 2);
    TagIn(tags, 'p', "profile:" + w.profile, 3);
    TagIn(tags, 's', "source:" + w.source, 4);
    assert "volust" in tags;
  }

  /** The five tags start with five different letters, so a tag can only be in its own place. */
  lemma {:induction false} TagIn(tags: seq<string>, c: char, tag: string, k: nat)
    requires |tags| == 5 && k < 5 && tag != "" && tag[0] == c
    requires forall i | 0 <= i < 5 :: tags[i] != ""
    requires tags[0][0] == 'v' && tags[1][0] == 'a' && tags[2][0] == 'c' && tags[3][0] == 'p' && tags[4][0] == 's'
    requires tags[k][0] == c
    ensures tag in tags <==> tag == tags[k]
  {
    if tag in tags {
      var i :| 0 <= i < 5 && tags[i] == tag;
      assert i == k;
    }
  }

  /** The path a backup stores is the path a restore of the same container and source asks for. */
  lemma {:induction false} SamePath(spec: Spec, source: Source, request: RestoreRequest)
    requires request.container == spec.containerName && request.sourceID == source.id
    ensures RequestSourcePath(request) == SourcePath(spec, source)
  {
  }
}
