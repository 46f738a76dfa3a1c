/** The index of scheduled backups (internal/daemon/daemon.go, reconcileSchedules and RunScheduler). The cron
    library is a set of live entries and a counter: it hands out a fresh id or an error, and removes by id. */
module Schedules {
  import opened Text
  import opened Sources

  // ---- Schedule keys ----

  function Insert(x: string, s: seq<string>): seq<string> {
    if s == [] then [x]
    else if StrLe(x, s[0]) then [x] + s
    else [s[0]] + Insert(x, s[1..])
  }

  /** sort.Strings. */
  function Sort(s: seq<string>): seq<string> {
    if s == [] then [] else Insert(s[0], Sort(s[1..]))
  }

  predicate Ascending(s: seq<string>) {
    forall i, j | 0 <= i < j < |s| :: StrLe(s[i], s[j])
  }

  lemma {:induction false} InsertPermutes(x: string, s: seq<string>)
    ensures multiset(Insert(x, s)) == multiset(s) + multiset{x}
  {
    hide StrLe;
    if s != [] {
      InsertPermutes(x, s[1..]);
      assert s == [s[0]] + s[1..];
    }
  }

  lemma {:induction false} AscendingFrom(x: string, s: seq<string>)
    requires Ascending(s) && forall i | 0 <= i < |s| :: StrLe(x, s[i])
    ensures Ascending([x] + s)
  {
  }

  lemma {:induction false} InsertSorts(x: string, s: seq<string>)
    requires Ascending(s)
    ensures Ascending(Insert(x, s)) && multiset(Insert(x, s)) == multiset(s) + multiset{x}
  {
    hide StrLe;
    InsertPermutes(x, s);
    if s != [] {
      StrLeTotal(x, s[0]);
      if StrLe(x, s[0]) {
        forall i | 0 <= i < |s| ensures StrLe(x, s[i]) {
          if i > 0 {
            StrLeTransitive(x, s[0], s[i]);
          }
        }
        AscendingFrom(x, s);
      } else {
        var rest, tail := s[1..], Insert(x, s[1..]);
        InsertSorts(x, rest);
        forall i | 0 <= i < |tail| ensures StrLe(s[0], tail[i]) {
          assert tail[i] in multiset(tail);
          assert tail[i] == x || tail[i] in rest;
        }
        AscendingFrom(s[0], tail);
      }
    }
  }

  lemma {:induction false} SortSorts(s: seq<string>)
    ensures Ascending(Sort(s)) && multiset(Sort(s)) == multiset(s)
  {
    if s != [] {
      SortSorts(s[1..]);
      InsertSorts(s[0], Sort(s[1..]));
      assert s == [s[0]] + s[1..];
    }
  }

  lemma {:induction false} FirstIsLeast(a: seq<string>, x: string)
    requires Ascending(a) && x in multiset(a)
    ensures a != [] && StrLe(a[0], x)
  {
    var i :| 0 <= i < |a| && a[i] == x;
    StrLeTotal(x, x);
  }

  lemma {:induction false} SameTails<T>(a: seq<T>, b: seq<T>)
    requires a != [] && b != [] && a[0] == b[0] && multiset(a) == multiset(b)
    ensures multiset(a[1..]) == multiset(b[1..])
    ensures a[1..] == b[1..] ==> a == b
  {
    assert a == [a[0]] + a[1..] && b == [b[0]] + b[1..];
    assert multiset(a[1..]) == multiset(a) - multiset{a[0]} == multiset(b[1..]);
  }

  lemma {:induction false} AscendingUnique(a: seq<string>, b: seq<string>)
    requires Ascending(a) && Ascending(b) && multiset(a) == multiset(b)
    ensures a == b
    decreases |a|
  {
    if a == [] {
      assert |multiset(b)| == |b|;
    } else {
      assert a[0] in multiset(a);
      FirstIsLeast(b, a[0]);
      assert b[0] in multiset(b);
      FirstIsLeast(a, b[0]);
      StrLeTotal(a[0], b[0]);
      SameTails(a, b);
      AscendingUnique(a[1..], b[1..]);
    }
  }

  function SourceIDs(spec: Spec): (ids: seq<string>)
    ensures |ids| == |spec.sources|
  {
    seq(|spec.sources|, i requires 0 <= i < |spec.sources| => spec.sources[i].id)
  }

  function KeyParts(spec: Spec): seq<string> {
    [spec.containerID, spec.profile, spec.name, spec.schedule, Join(Sort(SourceIDs(spec)), ",")]
  }

  /** scheduleKey. */
  function ScheduleKey(spec: Spec): string {
    Join(KeyParts(spec), [NUL])
  }

  ghost predicate SameSchedule(a: Spec, b: Spec) {
    && a.containerID == b.containerID && a.profile == b.profile && a.name == b.name && a.schedule == b.schedule
    && multiset(SourceIDs(a)) == multiset(SourceIDs(b))
  }

  /** The key does not depend on the order of the sources. */
  lemma {:induction false} KeyIgnoresOrder(a: Spec, b: Spec)
    requires SameSchedule(a, b)
    ensures ScheduleKey(a) == ScheduleKey(b)
  {
    SortSorts(SourceIDs(a));
    SortSorts(SourceIDs(b));
    AscendingUnique(Sort(SourceIDs(a)), Sort(SourceIDs(b)));
  }

  lemma {:induction false} FreeAfterSort(s: seq<string>, c: char)
    requires Free(s, c)
    ensures Free(Sort(s), c) && |Sort(s)| == |s|
  {
    SortSorts(s);
    assert |multiset(Sort(s))| == |Sort(s)| && |multiset(s)| == |s|;
    forall i | 0 <= i < |Sort(s)| ensures c !in Sort(s)[i] {
      assert Sort(s)[i] in multiset(s);
    }
  }

  /** For parts without NUL and source ids without commas, equal keys mean the same schedule. */
  lemma {:induction false} KeyIdentifies(a: Spec, b: Spec)
    requires Free(KeyParts(a), NUL) && Free(KeyParts(b), NUL)
    requires a.sources != [] && b.sources != [] && Free(SourceIDs(a), ',') && Free(SourceIDs(b), ',')
    ensures ScheduleKey(a) == ScheduleKey(b) <==> SameSchedule(a, b)
  {
    if ScheduleKey(a) == ScheduleKey(b) {
      var x, y := KeyParts(a), KeyParts(b);
      JoinInjective(x, y, NUL);
      assert x[0] == y[0] && x[1] == y[1] && x[2] == y[2] && x[3] == y[3] && x[4] == y[4];
      FreeAfterSort(SourceIDs(a), ',');
      FreeAfterSort(SourceIDs(b), ',');
      JoinInjective(Sort(SourceIDs(a)), Sort(SourceIDs(b)), ',');
      SortSorts(SourceIDs(a));
      SortSorts(SourceIDs(b));
    }
    if SameSchedule(a, b) {
      KeyIgnoresOrder(a, b);
    }
  }

  // ---- The index ----

  /** What a refresh finds out about a container: it has no backup, its exclude files cannot be read, or
      it has this specification. */
  datatype Found = Skip | Unreadable | Discovered(spec: Spec)

  datatype Report = Report(discovered: nat, skipped: nat, scheduled: nat)

  /** The keys of the first n containers. */
  ghost function KeysUpTo(found: seq<Found>, n: nat): set<string>
    requires n <= |found|
  {
    if n == 0 then {}
    else if found[n - 1].Discovered? then KeysUpTo(found, n - 1) + {ScheduleKey(found[n - 1].spec)}
    else KeysUpTo(found, n - 1)
  }

  /** None of the first n containers has an exclude file that cannot be read. */
  ghost predicate Readable(found: seq<Found>, n: nat)
    requires n <= |found|
  {
    if n == 0 then true else Readable(found, n - 1) && !found[n - 1].Unreadable?
  }

  /** An earlier container has the key of this one. */
  ghost predicate KeyCameBefore(found: seq<Found>, i: nat)
    requires i < |found| && found[i].Discovered?
  {
    exists j | 0 <= j < i :: found[j].Discovered? && ScheduleKey(found[j].spec) == ScheduleKey(found[i].spec)
  }

  /** Among the first n containers, cron accepts the schedule of every one whose key is new. */
  ghost predicate Accepted(known: set<string>, found: seq<Found>, n: nat, accepts: string -> bool)
    requires n <= |found|
  {
    forall i | 0 <= i < n && found[i].Discovered? ::
      ScheduleKey(found[i].spec) in known || KeyCameBefore(found, i) || accepts(found[i].spec.schedule)
  }

  /** Some container that was discovered has this key. */
  ghost predicate IsDiscovered(found: seq<Found>, key: string) {
    exists i | 0 <= i < |found| :: found[i].Discovered? && ScheduleKey(found[i].spec) == key
  }

  ghost function KeysOf(found: seq<Found>): set<string> {
    KeysUpTo(found, |found|)
  }

  /** Entries that were there keep their ids; the others have ids never used before. */
  ghost predicate Keeps(before: map<string, nat>, nextID: nat, after: map<string, nat>) {
    && (forall k | k in before && k in after :: after[k] == before[k])
    && (forall k | k in after && k !in before :: after[k] >= nextID)
  }

  lemma {:induction false} KeepsTransitive(a: map<string, nat>, n: nat, b: map<string, nat>, m: nat,
                                           c: map<string, nat>)
    requires Keeps(a, n, b) && Keeps(b, m, c) && n <= m && a.Keys <= b.Keys
    ensures Keeps(a, n, c)
  {
  }

  ghost predicate Injective(m: map<string, nat>) {
    forall a, b | a in m && b in m && m[a] == m[b] :: a == b
  }

  lemma {:induction false} SizeAdd(s: set<string>, x: string)
    ensures |s + {x}| <= |s| + 1
  {
    if x in s {
      assert s + {x} == s;
    }
  }

  lemma {:induction false} ValuesAdd(m: map<string, nat>, key: string, id: nat)
    requires key !in m && Injective(m) && id !in m.Values
    ensures m[key := id].Values == m.Values + {id} && Injective(m[key := id])
  {
    var n := m[key := id];
    forall v | v in m.Values + {id} ensures v in n.Values {
      if v == id {
        assert n[key] == v;
      } else {
        var k :| k in m && m[k] == v;
        assert n[k] == v;
      }
    }
  }

  lemma {:induction false} ValuesRemove(m: map<string, nat>, key: string)
    requires key in m && Injective(m)
    ensures (m - {key}).Values == m.Values - {m[key]} && Injective(m - {key})
  {
    var n := m - {key};
    forall v | v in m.Values - {m[key]} ensures v in n.Values {
      var k :| k in m && m[k] == v;
      assert n[k] == v;
    }
  }

  class Index {
    /** The schedules that cron can parse. */
    const accepts: string -> bool
    var live: set<nat>
    var nextID: nat
    var entries: map<string, nat>

    /** The live cron entries are exactly those of the index, one for each key, and no id comes back. */
    ghost predicate Valid()
      reads this
    {
      && live == entries.Values
      && Injective(entries)
      && (forall id | id in live :: id < nextID)
    }

    constructor (accepts: string -> bool)
      ensures Valid() && this.accepts == accepts && entries == map[] && live == {} && nextID == 1
    {
      this.accepts := accepts;
      live, nextID, entries := {}, 1, map[];
    }

    /** cron.AddFunc: a fresh id, or an error if the schedule is not one. */
    method AddFunc(schedule: string) returns (id: nat, ok: bool)
      modifies this`live, this`nextID
      ensures ok == accepts(schedule)
      ensures ok ==> id == old(nextID) && live == old(live) + {id} && nextID == old(nextID) + 1
      ensures !ok ==> live == old(live) && nextID == old(nextID)
    {
      ok, id := accepts(schedule), 0;
      if ok {
        id, live, nextID := nextID, live + {nextID}, nextID + 1;
      }
    }

    /** cron.Remove. */
    method Remove(id: nat)
      modifies this`live
      ensures live == old(live) - {id}
    {
      live := live - {id};
    }

    /** The last part of the first loop: a key that is indexed keeps its entry, another one gets a new one. */
    method EnsureEntry(key: string, schedule: string) returns (ok: bool)
      requires Valid()
      modifies this
      ensures Valid() && nextID >= old(nextID)
      ensures ok && key !in old(entries) ==> entries == old(entries)[key := old(nextID)]
      ensures !ok || key in old(entries) ==> entries == old(entries)
      ensures ok ==> key in entries
      ensures ok <==> key in old(entries) || accepts(schedule)
      ensures key in old(entries) ==> ok && live == old(live) && nextID == old(nextID)
      ensures Keeps(old(entries), old(nextID), entries)
      ensures old(entries.Keys) <= entries.Keys <= old(entries.Keys) + {key}
    {
      if key in entries {
        return true;
      }
      var id;
      id, ok := AddFunc(schedule);
      if ok {
        ValuesAdd(entries, key, id);
        entries := entries[key := id];
      }
    }

    /** The first loop of reconcileSchedules. */
    method AddMissing(found: seq<Found>) returns (current: set<string>, discovered: nat, skipped: nat, ok: bool)
      requires Valid()
      modifies this
      ensures Valid() && Keeps(old(entries), old(nextID), entries) && nextID >= old(nextID)
      ensures old(entries.Keys) <= entries.Keys <= old(entries.Keys) + KeysOf(found)
      ensures ok ==> current == KeysOf(found) && current <= entries.Keys
      ensures ok ==> discovered + skipped == |found| && |current| <= discovered
      ensures ok <==> Readable(found, |found|) && Accepted(old(entries.Keys), found, |found|, accepts)
    {
      hide Accepted, Readable, Injective, Keeps, ScheduleKey;
      ghost var first, firstID := entries, nextID;
      NothingKept(first, firstID);
      NothingAccepted(first.Keys, found, accepts);
      current, discovered, skipped := {}, 0, 0;
      for i := 0 to |found|
        invariant Valid() && Keeps(first, firstID, entries) && nextID >= firstID
        invariant first.Keys <= entries.Keys <= first.Keys + current
        invariant current == KeysUpTo(found, i) && current <= entries.Keys
        invariant discovered + skipped == i && |current| <= discovered
        invariant Readable(found, i) && Accepted(first.Keys, found, i, accepts)
      {
        OneMoreKey(found, i);
        StillReadable(found, i + 1);
        OneMoreAccepted(first.Keys, found, i, accepts);
        if found[i].Unreadable? {
          return current, discovered, skipped, false;
        }
        if found[i].Skip? {
          skipped := skipped + 1;
        } else {
          discovered := discovered + 1;
          var key := ScheduleKey(found[i].spec);
          SizeAdd(current, key);
          current := current + {key};
          ghost var middle, next := entries, nextID;
          var added := EnsureEntry(key, found[i].spec.schedule);
          KeepsTransitive(first, firstID, middle, next, entries);
          if !added {
            return current, discovered, skipped, false;
          }
        }
      }
      ok := true;
    }

    /** The second loop of reconcileSchedules. */
    method RemoveStale(current: set<string>)
      requires Valid()
      modifies this`live, this`entries
      ensures Valid() && entries == old(map k | k in entries && k in current :: entries[k])
    {
      var rest := entries.Keys;
      while rest != {}
        invariant Valid() && rest <= entries.Keys <= old(entries.Keys)
        invariant forall k | k in entries :: entries[k] == old(entries[k])
        invariant forall k | k in old(entries) :: k in entries <==> k in rest || k in current
        decreases |rest|
      {
        var key :| key in rest;
        rest := rest - {key};
        if key !in current {
          ValuesRemove(entries, key);
          Remove(entries[key]);
          entries := entries - {key};
        }
      }
    }

    /** reconcileSchedules. On success the keys are exactly those of the discovered containers; on an early
        error return nothing was removed. Either way live entries and index agree, kept keys keep their
        entry, and new keys get entries with ids never used before. */
    method Reconcile(found: seq<Found>) returns (report: Report, ok: bool)
      requires Valid()
      modifies this
      ensures Valid() && Keeps(old(entries), old(nextID), entries) && nextID >= old(nextID)
      ensures ok ==> entries.Keys == KeysOf(found)
      ensures ok ==> forall key :: key in entries <==> IsDiscovered(found, key)
      ensures ok ==> report.discovered + report.skipped == |found|
      ensures ok ==> report.scheduled == |entries| <= report.discovered
      ensures !ok ==> old(entries.Keys) <= entries.Keys <= old(entries.Keys) + KeysOf(found)
      ensures ok <==> Readable(found, |found|) && Accepted(old(entries.Keys), found, |found|, accepts)
    {
      var current, discovered, skipped;
      current, discovered, skipped, ok := AddMissing(found);
      if !ok {
        return Report(discovered, skipped, 0), false;
      }
      RemoveStale(current);
      assert entries.Keys == current;
      forall key ensures key in entries <==> IsDiscovered(found, key) {
        KeysMeaning(found, |found|, key);
      }
      report := Report(discovered, skipped, |entries|);
    }

    /** RunScheduler: one refresh at the start and one for each tick, until a listing fails (None) or a refresh
        does. `history` is the index before the first refresh and after each. Live entries and index agree
        throughout; an id belongs to one key, over one stretch of refreshes without gaps; a key that is
        discovered again keeps its id, and one that comes back has a new one. */
    method RunScheduler(refreshes: seq<Option<seq<Found>>>)
      returns (done: nat, reports: seq<Report>, ghost history: seq<map<string, nat>>)
      requires Valid() && entries == map[]
      modifies this
      ensures Valid() && done <= |refreshes| && |reports| == done
      ensures done < |history| <= done + 2 && history[0] == map[] && history[|history| - 1] == entries
      ensures done < |refreshes| && refreshes[done].Some? ==>
                var found := refreshes[done].value;
                !Readable(found, |found|) || !Accepted(history[done].Keys, found, |found|, accepts)
      ensures forall i | 0 <= i < done :: Refreshed(refreshes[i], history[i + 1], reports[i])
      ensures OneKeyEach(history) && WithoutGaps(history) && KeptIds(history)
    {
      hide OneKeyEach, WithoutGaps, KeptIds, IdsBelow, KeysOf, Readable, Accepted, Keeps, Injective;
      done, reports, history := 0, [], [entries];
      EmptyHistory(nextID);
      while done < |refreshes|
        invariant Valid() && done <= |refreshes| && |reports| == done
        invariant |history| == done + 1 && history[0] == map[] && history[done] == entries
        invariant forall i | 0 <= i < done :: Refreshed(refreshes[i], history[i + 1], reports[i])
        invariant OneKeyEach(history) && WithoutGaps(history) && KeptIds(history) && IdsBelow(history, nextID)
      {
        if refreshes[done].None? {
          return;
        }
        ghost var unused := nextID;
        var report, ok := Reconcile(refreshes[done].value);
        ValuesBelow(entries, nextID);
        OneRefreshMore(history, unused, entries, nextID);
        history := history + [entries];
        if !ok {
          return;
        }
        reports := reports + [report];
        done := done + 1;
      }
    }
  }

  // ---- The index over many refreshes ----

  ghost predicate Has(m: map<string, nat>, key: string, id: nat) {
    key in m && m[key] == id
  }

  /** A successful refresh: the keys are those discovered, and the report adds up. */
  ghost predicate Refreshed(found: Option<seq<Found>>, index: map<string, nat>, report: Report) {
    && found.Some? && index.Keys == KeysOf(found.value)
    && report.discovered + report.skipped == |found.value| && report.scheduled == |index| <= report.discovered
  }

  ghost predicate OneKeyEach(history: seq<map<string, nat>>) {
    forall i, j, a, b, id: nat |
      0 <= i < |history| && 0 <= j < |history| && Has(history[i], a, id) && Has(history[j], b, id) :: a == b
  }

  ghost predicate WithoutGaps(history: seq<map<string, nat>>) {
    forall i, j, k, a, id: nat | 0 <= i <= j <= k < |history| && Has(history[i], a, id) && Has(history[k], a, id) ::
      Has(history[j], a, id)
  }

  ghost predicate SameIds(m: map<string, nat>, n: map<string, nat>) {
    forall a | a in m && a in n :: n[a] == m[a]
  }

  /** From one refresh to the next a key keeps its id. */
  ghost predicate KeptIds(history: seq<map<string, nat>>) {
    forall i, j | 0 <= i < |history| && j == i + 1 < |history| :: SameIds(history[i], history[j])
  }

  ghost predicate IdsBelow(history: seq<map<string, nat>>, nextID: nat) {
    forall i, a, id: nat | 0 <= i < |history| && Has(history[i], a, id) :: id < nextID
  }

  lemma {:induction false} EmptyHistory(nextID: nat)
    ensures var h: seq<map<string, nat>> := [map[]];
            OneKeyEach(h) && WithoutGaps(h) && KeptIds(h) && IdsBelow(h, nextID)
  {
  }

  lemma {:induction false} ValuesBelow(m: map<string, nat>, nextID: nat)
    requires forall id | id in m.Values :: id < nextID
    ensures forall a, id: nat | Has(m, a, id) :: id < nextID
  {
    forall a, id: nat | Has(m, a, id) ensures id < nextID {
      assert id in m.Values;
    }
  }

  lemma {:induction false} OneRefreshMore(history: seq<map<string, nat>>, unused: nat, next: map<string, nat>,
      nextID: nat)
    requires history != [] && Keeps(history[|history| - 1], unused, next) && Injective(next) && unused <= nextID
    requires OneKeyEach(history) && WithoutGaps(history) && KeptIds(history) && IdsBelow(history, unused)
    requires forall a, id: nat | Has(next, a, id) :: id < nextID
    ensures var longer := history + [next];
            OneKeyEach(longer) && WithoutGaps(longer) && KeptIds(longer) && IdsBelow(longer, nextID)
  {
    var longer, n := history + [next], |history|;
    assert forall i, j | 0 <= i < n && j == i + 1 < n :: longer[i] == history[i] && longer[j] == history[j];
    assert SameIds(longer[n - 1], longer[n]);
    forall i, b, id: nat, a | 0 <= i < n && Has(longer[i], a, id) && Has(next, b, id)
      ensures a == b && Has(history[n - 1], a, id)
    {
      assert Has(history[i], a, id) && id < unused;
      assert Has(history[n - 1], b, id);
    }
    forall i, j, k, a, id: nat | 0 <= i <= j <= k < |longer| && Has(longer[i], a, id) && Has(longer[k], a, id)
      ensures Has(longer[j], a, id)
    {
      if k == n && i < n {
        assert Has(longer[i], a, id) && Has(next, a, id);
        assert Has(history[i], a, id) && Has(history[n - 1], a, id);
        assert j < n ==> Has(history[j], a, id);
      } else if k < n {
        assert Has(history[i], a, id) && Has(history[k], a, id);
      }
    }
  }

  lemma {:induction false} NothingKept(m: map<string, nat>, nextID: nat)
    ensures Keeps(m, nextID, m)
  {
  }

  lemma {:induction false} NothingAccepted(known: set<string>, found: seq<Found>, accepts: string -> bool)
    ensures Accepted(known, found, 0, accepts) && Readable(found, 0)
  {
  }

  lemma {:induction false} OneMoreAccepted(known: set<string>, found: seq<Found>, i: nat, accepts: string -> bool)
    requires i < |found|
    ensures Accepted(known, found, i + 1, accepts) <==>
              && Accepted(known, found, i, accepts)
              && (found[i].Discovered? ==>
                    var key := ScheduleKey(found[i].spec);
                    key in known || key in KeysUpTo(found, i) || accepts(found[i].spec.schedule))
    ensures Readable(found, i + 1) <==> Readable(found, i) && !found[i].Unreadable?
    ensures Accepted(known, found, |found|, accepts) ==> Accepted(known, found, i + 1, accepts)
  {
    if found[i].Discovered? {
      KeysMeaning(found, i, ScheduleKey(found[i].spec));
    }
  }

  lemma {:induction false} StillReadable(found: seq<Found>, i: nat)
    requires i <= |found|
    ensures Readable(found, |found|) ==> Readable(found, i)
  {
    ReadableMeaning(found, i);
    ReadableMeaning(found, |found|);
  }

  lemma {:induction false} OneMoreKey(found: seq<Found>, i: nat)
    requires i < |found|
    ensures KeysUpTo(found, i + 1) == KeysUpTo(found, i)
            + (if found[i].Discovered? then {ScheduleKey(found[i].spec)} else {})
    ensures KeysUpTo(found, i) <= KeysUpTo(found, i + 1) <= KeysOf(found)
  {
    FewerKeys(found, i, i + 1);
    FewerKeys(found, i + 1, |found|);
  }

  lemma {:induction false} FewerKeys(found: seq<Found>, i: nat, n: nat)
    requires i <= n <= |found|
    ensures KeysUpTo(found, i) <= KeysUpTo(found, n)
    decreases n
  {
    if i < n {
      FewerKeys(found, i, n - 1);
    }
  }

  /** The keys are those of the discovered containers. */
  lemma {:induction false} KeysMeaning(found: seq<Found>, n: nat, key: string)
    requires n <= |found|
    ensures key in KeysUpTo(found, n)
       <==> exists i | 0 <= i < n :: found[i].Discovered? && ScheduleKey(found[i].spec) == key
  {
    if n > 0 {
      KeysMeaning(found, n - 1, key);
    }
  }

  lemma {:induction false} ReadableMeaning(found: seq<Found>, n: nat)
    requires n <= |found|
    ensures Readable(found, n) <==> forall i | 0 <= i < n :: !found[i].Unreadable?
  {
    if n > 0 {
      ReadableMeaning(found, n - 1);
    }
  }
}
