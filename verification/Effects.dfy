/** What the printed scripts of a worker do to files and repositories, from their text to the last file: a backup adds
    a snapshot of the source, a restore gives the target the tree of the snapshot, and a restore of a backup gives
    back the tree that was backed up (internal/restic/command.go). */
module Effects {
  import opened Text
  import opened Config
  import opened Sources
  import opened Shell
  import opened Restic
  import opened Commands

  // ---- Paths ----

  lemma {:induction false} SplitFirst(segment: string, rest: string)
    requires '/' !in segment
    ensures Split(segment + "/" + rest, '/') == [segment] + Split(rest, '/')
  {
    var path := segment + ['/'] + rest;
    BeforeFirst(segment, '/', rest);
    assert path[|segment| + 1..] == rest;
  }

  lemma {:induction false} SplitLast(segment: string)
    requires '/' !in segment
    ensures Split(segment, '/') == [segment]
  {
    BeforeNone(segment, '/');
  }

  /** A plain path behind a plain segment. */
  lemma {:induction false} PlainBehind(segment: string, path: string)
    requires Plain(path) && PlainSegment(segment) && '/' !in segment
    ensures Plain("/" + segment + path)
  {
    var whole := "/" + segment + path;
    assert whole[1..] == segment + "/" + path[1..];
    SplitFirst(segment, path[1..]);
  }

  lemma {:induction false} PlainAlone(segment: string)
    requires PlainSegment(segment) && '/' !in segment
    ensures Plain("/" + segment)
  {
    assert ("/" + segment)[1..] == segment;
    SplitLast(segment);
  }

  lemma {:induction false} LettersArePlain(segment: string)
    requires segment != "" && forall i | 0 <= i < |segment| :: 'a' <= segment[i] <= 'z'
    ensures PlainSegment(segment) && '/' !in segment
  {
    assert segment[0] != '.' && "."[0] == '.' && ".."[0] == '.';
  }

  /** The staging directory, with a plain path in it or alone, is a plain path. */
  lemma {:induction false} StagedIsPlain(path: string)
    requires Plain(path)
    ensures Plain(STAGING + path)
  {
    hide Plain, PlainSegment;
    LettersArePlain("volust");
    LettersArePlain("staging");
    LettersArePlain("restore");
    var inner, outer := "/" + "restore" + path, "/" + "staging" + ("/" + "restore" + path);
    PlainBehind("restore", path);
    PlainBehind("staging", inner);
    PlainBehind("volust", outer);
    assert "/" + "volust" + outer == STAGING + path;
  }

  lemma {:induction false} StagingIsPlain(dir: string)
    requires dir == STAGING
    ensures Plain(dir)
  {
    hide Plain, PlainSegment;
    LettersArePlain("volust");
    LettersArePlain("staging");
    LettersArePlain("restore");
    PlainAlone("restore");
    PlainBehind("staging", "/" + "restore");
    PlainBehind("volust", "/" + "staging" + ("/" + "restore"));
    assert "/" + "volust" + ("/" + "staging" + ("/" + "restore")) == STAGING;
  }

  /** A container name as Docker has it: not empty, without slashes, and without blanks at its ends. */
  predicate ContainerName(name: string) {
    name != "" && '/' !in name && !Cuts(Space, name[0]) && !Cuts(Space, name[|name| - 1])
  }

  /** The container's name and the source's id are the last segments of the path that is backed up. */
  lemma {:induction false} PathOfSource(spec: Spec, source: Source)
    requires ContainerName(spec.containerName)
    ensures SourcePath(spec, source) == "/volust/sources/" + spec.containerName + "/" + source.id
  {
    var name := spec.containerName;
    assert TrimSpace(name) == name && Trim(name, Slash) == name;
    ReplaceNothing(name, '/', "-");
  }

  /** Two containers, or two sources of one container, are backed up under two paths. */
  lemma {:induction false} PathsDiffer(a: Spec, x: Source, b: Spec, y: Source)
    requires ContainerName(a.containerName) && ContainerName(b.containerName)
    ensures SourcePath(a, x) == SourcePath(b, y) <==> a.containerName == b.containerName && x.id == y.id
  {
    hide SourcePath;
    PathOfSource(a, x);
    PathOfSource(b, y);
    var s, t := a.containerName + ['/'] + x.id, b.containerName + ['/'] + y.id;
    BeforeFirst(a.containerName, '/', x.id);
    BeforeFirst(b.containerName, '/', y.id);
    assert SourcePath(a, x) == "/volust/sources/" + s && SourcePath(b, y) == "/volust/sources/" + t;
    SameSuffix("/volust/sources/", s, t);
    assert s[|a.containerName| + 1..] == x.id && t[|b.containerName| + 1..] == y.id;
  }

  /** Such a path is plain if both segments are. */
  lemma {:induction false} PathIsPlain(spec: Spec, source: Source)
    requires ContainerName(spec.containerName) && PlainSegment(spec.containerName)
    requires PlainSegment(source.id) && '/' !in source.id
    ensures Plain(SourcePath(spec, source))
  {
    hide Plain, PlainSegment, SourcePath;
    PathOfSource(spec, source);
    LettersArePlain("volust");
    LettersArePlain("sources");
    PlainAlone(source.id);
    var inner := "/" + spec.containerName + ("/" + source.id);
    PlainBehind(spec.containerName, "/" + source.id);
    PlainBehind("sources", inner);
    PlainBehind("volust", "/" + "sources" + inner);
    assert "/" + "volust" + ("/" + "sources" + inner) == SourcePath(spec, source);
  }

  // ---- The command lines, read ----

  function Settings(flag: string, values: seq<string>): seq<Setting> {
    seq(|values|, i requires 0 <= i < |values| => Setting(flag, values[i]))
  }

  lemma {:induction false} ReadFlagged(flag: string, values: seq<string>)
    requires flag in VALUED
    ensures ReadArgs(Flagged(flag, values)) == Some(Call(Settings(flag, values), []))
  {
    hide ReadArgs;
    if values == [] {
      ReadNothing();
      assert Flagged(flag, values) == [];
    } else {
      var n := |values| - 1;
      ReadFlagged(flag, values[..n]);
      ReadOption(flag, values[n]);
      ReadConcat(Flagged(flag, values[..n]), [flag, values[n]]);
      assert Settings(flag, values) == Settings(flag, values[..n]) + [Setting(flag, values[n])];
      var none: seq<string> := [];
      assert none + none == none;
    }
  }

  lemma {:induction false} ReadNothing()
    ensures ReadArgs([]) == Some(Call([], []))
  {
  }

  lemma {:induction false} ValuesOfSettings(flag: string, values: seq<string>, name: string)
    ensures Values(Settings(flag, values), name) == if name == flag then values else []
    decreases |values|
  {
    if values != [] {
      assert Settings(flag, values)[1..] == Settings(flag, values[1..]);
      ValuesOfSettings(flag, values[1..], name);
      assert values == [values[0]] + values[1..];
    }
  }

  /** More options behind a command line that was read. */
  lemma {:induction false} ReadPlus(args: seq<string>, call: Call, flag: string, values: seq<string>)
    returns (more: Call)
    requires ReadArgs(args) == Some(call) && flag in VALUED
    ensures ReadArgs(args + Flagged(flag, values)) == Some(more) && more.words == call.words
    ensures forall name ::
              Values(more.options, name) == Values(call.options, name) + (if name == flag then values else [])
  {
    hide ReadArgs, Flagged, Values;
    ReadFlagged(flag, values);
    ReadConcat(args, Flagged(flag, values));
    more := Call(call.options + Settings(flag, values), call.words);
    assert call.words + [] == call.words;
    forall name
      ensures Values(more.options, name) == Values(call.options, name) + (if name == flag then values else [])
    {
      ValuesConcat(call.options, Settings(flag, values), name);
      ValuesOfSettings(flag, values, name);
    }
  }

  lemma {:induction false} OneFlagged(flag: string, value: string)
    ensures Flagged(flag, [value]) == [flag, value]
  {
  }

  lemma {:induction false} ReadPlusOne(args: seq<string>, call: Call, flag: string, value: string) returns (more: Call)
    requires ReadArgs(args) == Some(call) && flag in VALUED
    ensures ReadArgs(args + [flag, value]) == Some(more) && more.words == call.words
    ensures forall name ::
              Values(more.options, name) == Values(call.options, name) + (if name == flag then [value] else [])
  {
    OneFlagged(flag, value);
    more := ReadPlus(args, call, flag, [value]);
  }

  lemma {:induction false} ReadPlusWord(args: seq<string>, call: Call, word: string) returns (more: Call)
    requires ReadArgs(args) == Some(call) && !IsOption(word)
    ensures ReadArgs(args + [word]) == Some(more) && more.words == call.words + [word] && more.options == call.options
  {
    hide ReadArgs;
    ReadWord(word);
    ReadConcat(args, [word]);
    more := Call(call.options, call.words + [word]);
    assert call.options + [] == call.options;
  }

  lemma {:induction false} ReadBase(p: Profile, operation: string, timeout: string) returns (call: Call)
    requires !IsOption(operation)
    ensures BaseArgs(p, operation, timeout)[0] == "restic"
    ensures ReadArgs(BaseArgs(p, operation, timeout)[1..]) == Some(call) && call.words == [operation]
    ensures forall name ::
              Values(call.options, name) == (if name == "-r" then [RepositoryString(p)] else [])
                                            + (if name == "--retry-lock" then [timeout] else [])
  {
    hide ReadArgs, RepositoryString, Values;
    ReadNothing();
    NoValues();
    var r := ["-r", RepositoryString(p)];
    call := ReadPlusOne([], Call([], []), "-r", RepositoryString(p));
    assert [] + r == r;
    call := ReadPlusOne(r, call, "--retry-lock", timeout);
    call := ReadPlusWord(r + ["--retry-lock", timeout], call, operation);
    assert BaseArgs(p, operation, timeout)[1..] == r + ["--retry-lock", timeout] + [operation];
  }

  lemma {:induction false} NoValues()
    ensures forall name :: Values([], name) == []
  {
  }

  /** What restic reads in the command line of a backup. */
  lemma {:induction false} ReadBackup(p: Profile, spec: Spec, source: Source, excludeFiles: seq<string>,
      timeout: string)
    returns (call: Call)
    requires !IsOption(SourcePath(spec, source))
    ensures ReadArgs(BackupArgs(p, spec, source, excludeFiles, timeout)[1..]) == Some(call)
    ensures call.words == ["backup", SourcePath(spec, source)] && Values(call.options, "-r") == [RepositoryString(p)]
    ensures Values(call.options, "--tag") == SnapshotTags(spec, source.id)
    ensures Values(call.options, "--exclude") == spec.excludes && Values(call.options, "--exclude-file") == excludeFiles
  {
    hide ReadArgs, Values, Flagged, SourcePath, SnapshotTags, RepositoryString;
    var args, path := BaseArgs(p, "backup", timeout)[1..], SourcePath(spec, source);
    call := ReadBase(p, "backup", timeout);
    call := ReadPlusWord(args, call, path);
    args := args + [path];
    call := ReadPlus(args, call, "--tag", SnapshotTags(spec, source.id));
    args := args + Flagged("--tag", SnapshotTags(spec, source.id));
    call := ReadPlus(args, call, "--exclude", spec.excludes);
    args := args + Flagged("--exclude", spec.excludes);
    call := ReadPlus(args, call, "--exclude-file", excludeFiles);
    args := args + Flagged("--exclude-file", excludeFiles);
    assert BackupArgs(p, spec, source, excludeFiles, timeout)[1..] == args;
  }

  /** What restic reads in the command line of a restore. */
  lemma {:induction false} ReadRestore(p: Profile, request: RestoreRequest, timeout: string) returns (call: Call)
    requires !IsOption(request.snapshotID)
    ensures ReadArgs(RestoreArgs(p, request, timeout)[1..]) == Some(call)
    ensures call.words == ["restore", request.snapshotID] && Values(call.options, "-r") == [RepositoryString(p)]
    ensures Values(call.options, "--target") == [STAGING]
    ensures Values(call.options, "--include") == [RequestSourcePath(request)] == Values(call.options, "--path")
    ensures Values(call.options, "--tag") == RequestTags(request)
  {
    hide ReadArgs, Values, Flagged, RequestSourcePath, RequestTags, RepositoryString;
    var args, path := BaseArgs(p, "restore", timeout)[1..], RequestSourcePath(request);
    call := ReadBase(p, "restore", timeout);
    call := ReadPlusWord(args, call, request.snapshotID);
    args := args + [request.snapshotID];
    call := ReadPlusOne(args, call, "--target", STAGING);
    args := args + ["--target", STAGING];
    call := ReadPlusOne(args, call, "--include", path);
    args := args + ["--include", path];
    call := ReadPlusOne(args, call, "--path", path);
    args := args + ["--path", path];
    call := ReadPlus(args, call, "--tag", RequestTags(request));
    args := args + Flagged("--tag", RequestTags(request));
    assert RestoreArgs(p, request, timeout)[1..] == args;
  }

  /** What restic reads in the command line of a lookup. */
  lemma {:induction false} ReadLookup(p: Profile, request: RestoreRequest, timeout: string) returns (call: Call)
    requires !IsOption(request.snapshotID)
    ensures ReadArgs(ValidationArgs(p, request, timeout)[1..]) == Some(call)
    ensures call.words == ["snapshots"] + (if request.snapshotID != "" then [request.snapshotID] else [])
    ensures Values(call.options, "-r") == [RepositoryString(p)]
    ensures Values(call.options, "--path") == [RequestSourcePath(request)]
    ensures Values(call.options, "--tag") == RequestTags(request)
  {
    hide ReadArgs, Values, Flagged, RequestSourcePath, RequestTags, RepositoryString;
    var args, path := BaseArgs(p, "snapshots", timeout)[1..], RequestSourcePath(request);
    call := ReadBase(p, "snapshots", timeout);
    if request.snapshotID != "" {
      call := ReadPlusWord(args, call, request.snapshotID);
      args := args + [request.snapshotID];
    }
    call := ReadPlusJson(args, call);
    args := args + ["--json"];
    call := ReadPlusOne(args, call, "--path", path);
    args := args + ["--path", path];
    call := ReadPlus(args, call, "--tag", RequestTags(request));
    args := args + Flagged("--tag", RequestTags(request));
    assert ValidationArgs(p, request, timeout)[1..] == args;
  }

  lemma {:induction false} ReadPlusJson(args: seq<string>, call: Call) returns (more: Call)
    requires ReadArgs(args) == Some(call)
    ensures ReadArgs(args + ["--json"]) == Some(more) && more == call
  {
    assert ["--json"][1..] == [];
    assert ReadArgs(["--json"]) == Some(Call([], []));
    ReadConcat(args, ["--json"]);
    more := call;
    assert call.options + [] == call.options && call.words + [] == call.words;
  }

  // ---- The restore script ----

  /** A request that means to every command what it says: plain paths, a target that has nothing to do with the
      staging directory, and a snapshot name that is not read as an option. */
  ghost predicate Fitting(request: RestoreRequest) {
    && Plain(RequestSourcePath(request)) && Plain(request.target) && Apart(request.target, STAGING)
    && !IsOption(request.snapshotID)
  }

  /** Nothing in the directory has changed. */
  ghost predicate Kept(before: Files, after: Files, dir: string) {
    && (before(dir) == Some(Dir) ==> after(dir) == Some(Dir))
    && forall r | Inside(r) :: after(dir + r) == before(dir + r)
  }

  ghost predicate Cleared(files: Files) {
    forall r | Inside(r) :: files(STAGING + r) == None
  }

  /** The staging directory holds the snapshot's tree at the path. */
  ghost predicate Staged(snap: Snap, path: string, files: Files) {
    forall q | Within(q, path) :: files(STAGING + q) == snap.tree(q)
  }

  /** The target has the tree of the snapshot that was asked for, at the path that was asked for. */
  ghost predicate Brought(p: Profile, request: RestoreRequest, before: Machine, after: Machine) {
    var repository, path := before.repositories(RepositoryString(p)), RequestSourcePath(request);
    repository.Some? && exists i: nat ::
      && Chosen(repository.value, request.snapshotID, [path], i)
      && SameTree(after.files, request.target, repository.value[i].tree, path)
  }

  lemma {:induction false} RmEffect(before: Machine, after: Machine, skips: Skips, ok: bool, target: string)
    requires PipelineDoes(Command(RmArgs()), skips, before, after, ok) && Apart(target, STAGING)
    ensures after.repositories == before.repositories && Kept(before.files, after.files, target)
    ensures ok ==> Cleared(after.files)
  {
    hide Plain, Within;
    StagingIsPlain(STAGING);
    assert CommandDoes(RmArgs(), skips, before, after, ok);
    assert RmDoes(RmArgs(), before, after, ok);
    KeptOutside(before.files, after.files, STAGING, target);
    if ok {
      forall r | Inside(r) ensures after.files(STAGING + r) == None {
        ExtendedIsWithin(STAGING, r);
      }
    }
  }

  lemma {:induction false} KeptOutside(before: Files, after: Files, dir: string, target: string)
    requires SameOutside(before, after, dir) && Apart(target, dir)
    ensures Kept(before, after, target)
  {
    forall r | Inside(r) ensures after(target + r) == before(target + r) {
      InsideIsWithin(target, r, dir);
    }
  }

  lemma {:induction false} MkdirEffect(before: Machine, after: Machine, skips: Skips, ok: bool, request: RestoreRequest)
    requires PipelineDoes(Command(MkdirArgs(request)), skips, before, after, ok)
    requires Plain(request.target) && Apart(request.target, STAGING) && Cleared(before.files)
    ensures after.repositories == before.repositories && Kept(before.files, after.files, request.target)
    ensures Cleared(after.files) && (ok ==> after.files(request.target) == after.files(STAGING) == Some(Dir))
  {
    hide Plain, Within;
    StagingIsPlain(STAGING);
    var argv := MkdirArgs(request);
    assert CommandDoes(argv, skips, before, after, ok);
    assert MkdirDoes(argv, before, after, ok);
    assert argv[2..] == [STAGING, request.target] && argv[2] == STAGING && argv[3] == request.target;
    forall r | Inside(r) ensures after.files(request.target + r) == before.files(request.target + r)
                         ensures after.files(STAGING + r) == None {
      InsideIsWithin(request.target, r, STAGING);
      InsideIsWithin(STAGING, r, request.target);
      NotAbove(request.target, r);
      NotAbove(STAGING, r);
      NotLeading(request.target + r, argv[2..]);
      NotLeading(STAGING + r, argv[2..]);
    }
  }

  lemma {:induction false} NotAbove(a: string, r: string)
    requires Inside(r)
    ensures !Within(a, a + r)
  {
    assert |a + r| > |a|;
  }

  lemma {:induction false} NotLeading(q: string, dirs: seq<string>)
    requires |dirs| == 2 && !Within(dirs[0], q) && !Within(dirs[1], q)
    ensures !Leads(q, dirs)
  {
  }

  lemma {:induction false} LookupEffect(before: Machine, after: Machine, skips: Skips, ok: bool, p: Profile,
      request: RestoreRequest, timeout: string)
    requires PipelineDoes(Lookup(p, request, timeout), skips, before, after, ok) && !IsOption(request.snapshotID)
    ensures after == before
  {
    hide ReadArgs, Values;
    var lookup := Lookup(p, request, timeout);
    var call := ReadLookup(p, request, timeout);
    assert ValidationArgs(p, request, timeout)[0] == "restic";
    assert Reads(lookup[0].argv) && Reads(lookup[1].argv);
    assert forall c | c in lookup :: c == lookup[0] || c == lookup[1];
  }

  lemma {:induction false} RestoreEffect(before: Machine, after: Machine, skips: Skips, ok: bool, p: Profile,
      request: RestoreRequest, timeout: string)
    requires PipelineDoes(Command(RestoreArgs(p, request, timeout)), skips, before, after, ok)
    requires Fitting(request) && Cleared(before.files)
    ensures after.repositories == before.repositories && Kept(before.files, after.files, request.target)
    ensures ok ==> HasStaged(p, request, before, after)
  {
    hide ReadArgs, Values, Plain, Within, RepositoryString, RequestSourcePath, RequestTags, Kept;
    var argv := RestoreArgs(p, request, timeout);
    var call := ReadRestore(p, request, timeout);
    StagingIsPlain(STAGING);
    assert argv[0] == "restic" && CommandDoes(argv, skips, before, after, ok);
    assert ResticDoes(argv[1..], skips, before, after, ok);
    assert RestoreDoes(call, RepositoryString(p), request.snapshotID, before, after, ok);
    KeptOutside(before.files, after.files, STAGING, request.target);
    if ok {
      var snaps, path := before.repositories(RepositoryString(p)).value, RequestSourcePath(request);
      var i: nat :| Chosen(snaps, request.snapshotID, [path], i)
                    && Laid(snaps[i], path, STAGING, before.files, after.files);
      LaidIsStaged(snaps[i], path, before.files, after.files);
    }
  }

  lemma {:induction false} LaidIsStaged(snap: Snap, path: string, before: Files, after: Files)
    requires Plain(path) && Cleared(before) && Laid(snap, path, STAGING, before, after)
    ensures Staged(snap, path, after)
  {
    forall q | Within(q, path) ensures after(STAGING + q) == snap.tree(q) {
      assert Inside(q);
    }
  }

  /** The staging directory holds the tree that was asked for. */
  ghost predicate HasStaged(p: Profile, request: RestoreRequest, before: Machine, after: Machine) {
    var repository, path := before.repositories(RepositoryString(p)), RequestSourcePath(request);
    repository.Some? && exists i: nat ::
      Chosen(repository.value, request.snapshotID, [path], i) && Staged(repository.value[i], path, after.files)
  }

  lemma {:induction false} RsyncReads(request: RestoreRequest)
    requires Fitting(request)
    ensures var argv, from := RsyncArgs(request), STAGING + RequestSourcePath(request);
            && EndsInSlash(argv[4]) && EndsInSlash(argv[5]) && Cut(argv[4]) == from && Cut(argv[5]) == request.target
            && argv[1..4] == ["-aHAX", "--numeric-ids", "--delete"] && Plain(from) && Apart(from, request.target)
  {
    var path := RequestSourcePath(request);
    assert Inside(path);
    StagedIsPlain(path);
    InsideIsWithin(STAGING, path, request.target);
    var argv := RsyncArgs(request);
    assert Cut(argv[4]) == STAGING + path && Cut(argv[5]) == request.target;
  }

  lemma {:induction false} RsyncEffect(before: Machine, after: Machine, skips: Skips, ok: bool, p: Profile,
      request: RestoreRequest, first: Machine)
    requires PipelineDoes(Command(RsyncArgs(request)), skips, before, after, ok)
    requires Fitting(request) && HasStaged(p, request, first, before)
    ensures after.repositories == before.repositories
    ensures ok ==> Brought(p, request, first, after)
  {
    hide Plain, Within, RepositoryString, RequestSourcePath, Fitting, Cut;
    var argv, path := RsyncArgs(request), RequestSourcePath(request);
    RsyncReads(request);
    FittingTarget(request);
    assert argv[0] == "rsync" && CommandDoes(argv, skips, before, after, ok);
    assert RsyncDoes(argv, before, after, ok);
    assert forall f | f in argv[1..4] :: IsOption(f);
    if ok {
      assert Copied(STAGING + path, request.target, true, before.files, after.files);
      var snaps := first.repositories(RepositoryString(p)).value;
      var i: nat :| Chosen(snaps, request.snapshotID, [path], i) && Staged(snaps[i], path, before.files);
      CopiedIsTree(snaps[i], path, request.target, before.files, after.files);
    }
  }

  lemma {:induction false} FittingTarget(request: RestoreRequest)
    requires Fitting(request)
    ensures Plain(request.target)
  {
  }

  lemma {:induction false} CopiedIsTree(snap: Snap, path: string, target: string, before: Files, after: Files)
    requires Staged(snap, path, before) && Copied(STAGING + path, target, true, before, after)
    ensures SameTree(after, target, snap.tree, path)
  {
    assert Within(path, path);
    forall r | Inside(r) ensures after(target + r) == snap.tree(path + r) {
      ExtendedIsWithin(path, r);
      assert STAGING + path + r == STAGING + (path + r);
    }
  }

  // ---- The whole restore ----

  /** How far a restore has come after k of its n steps. */
  ghost predicate Reached(p: Profile, request: RestoreRequest, first: Machine, now: Machine, k: nat, n: nat) {
    && now.repositories == first.repositories
    && (k < n ==> Kept(first.files, now.files, request.target))
    && (0 < k < n - 1 ==> Cleared(now.files))
    && (1 < k < n ==> now.files(request.target) == Some(Dir))
    && (k == n - 1 ==> HasStaged(p, request, first, now))
    && (k == n ==> Brought(p, request, first, now))
  }

  lemma {:induction false} KeptOn(a: Files, b: Files, c: Files, dir: string)
    requires Kept(a, b, dir) && Kept(b, c, dir)
    ensures Kept(a, c, dir)
  {
  }

  lemma {:induction false} StillThere(before: Files, after: Files, dir: string)
    requires Kept(before, after, dir)
    ensures before(dir) == Some(Dir) ==> after(dir) == Some(Dir)
  {
  }

  lemma {:induction false} OnlyLastRunsRsync(p: Profile, request: RestoreRequest, timeout: string)
    ensures var steps := StepsOf(RestoreSteps(p, request, timeout));
            |steps| >= 4 && forall k | 0 <= k < |steps| :: RunsRsync(steps[k]) <==> k == |steps| - 1
  {
    var steps: seq<Pipeline> := StepsOf(RestoreSteps(p, request, timeout));
    StepsAre(p, request, timeout);
    var n := |steps|;
    assert steps[0] == Command(RmArgs()) && steps[1] == Command(MkdirArgs(request));
    assert steps[n - 2] == Command(RestoreArgs(p, request, timeout)) && steps[n - 1] == Command(RsyncArgs(request));
    assert n == 5 ==> steps[2] == Lookup(p, request, timeout);
    assert "restic"[1] != "rsync"[1] && "rm"[1] != "rsync"[1] && "mkdir"[0] != "rsync"[0];
  }

  /** One step of a restore: it keeps the target unless it is the last, and comes one step further if it succeeds. */
  lemma {:induction false} StepReaches(p: Profile, request: RestoreRequest, timeout: string, skips: Skips,
      first: Machine, before: Machine, after: Machine, k: nat, ok: bool)
    requires Fitting(request)
    requires var steps := StepsOf(RestoreSteps(p, request, timeout));
             && k < |steps| && Reached(p, request, first, before, k, |steps|)
             && PipelineDoes(steps[k], skips, before, after, ok)
    ensures var n := |RestoreSteps(p, request, timeout)|;
            && (k < n - 1 ==> Kept(first.files, after.files, request.target))
            && (ok ==> Reached(p, request, first, after, k + 1, n))
  {
    hide PipelineDoes, Kept, Cleared, HasStaged, Brought, RmArgs, MkdirArgs, ValidationArgs, RestoreArgs, RsyncArgs;
    var steps := StepsOf(RestoreSteps(p, request, timeout));
    var n := |steps|;
    StepsAre(p, request, timeout);
    FittingTarget(request);
    if k == 0 {
      RmEffect(before, after, skips, ok, request.target);
    } else if k == 1 {
      MkdirEffect(before, after, skips, ok, request);
    } else if k < n - 2 {
      assert steps[k] == Lookup(p, request, timeout);
      LookupEffect(before, after, skips, ok, p, request, timeout);
    } else if k == n - 2 {
      RestoreEffect(before, after, skips, ok, p, request, timeout);
      if ok {
        StagedFromFirst(p, request, first, before, after);
      }
    } else {
      RsyncEffect(before, after, skips, ok, p, request, first);
    }
    if k < n - 1 {
      if Kept(before.files, after.files, request.target) {
        KeptOn(first.files, before.files, after.files, request.target);
        StillThere(before.files, after.files, request.target);
      }
    }
  }

  lemma {:induction false} StagedFromFirst(p: Profile, request: RestoreRequest, first: Machine, before: Machine,
      after: Machine)
    requires before.repositories == first.repositories && HasStaged(p, request, before, after)
    ensures HasStaged(p, request, first, after)
  {
  }

  /** All steps before the last that ran succeeded. */
  lemma {:induction false} RunReaches(p: Profile, request: RestoreRequest, timeout: string, oracle: Oracle,
      skips: Skips, outcome: Outcome, machines: seq<Machine>, k: nat)
    requires Fitting(request)
    requires var steps := StepsOf(RestoreSteps(p, request, timeout));
             StopsAtFailure(outcome, steps, oracle) && k < |outcome.ran|
    requires Enacts(outcome.ran, oracle, skips, machines)
    ensures Reached(p, request, machines[0], machines[k], k, |RestoreSteps(p, request, timeout)|)
  {
    hide PipelineDoes, Reached, RestoreSteps, Fitting, Succeeds;
    var n := |RestoreSteps(p, request, timeout)|;
    if k == 0 {
      AtFirst(p, request, timeout, machines[0]);
    } else {
      RunReaches(p, request, timeout, oracle, skips, outcome, machines, k - 1);
      assert Succeeded(outcome.ran, k - 1, oracle);
      StepReaches(p, request, timeout, skips, machines[0], machines[k - 1], machines[k], k - 1, true);
    }
  }

  lemma {:induction false} AtFirst(p: Profile, request: RestoreRequest, timeout: string, first: Machine)
    ensures Reached(p, request, first, first, 0, |RestoreSteps(p, request, timeout)|)
  {
  }

  /** The restore script, from its text to the files. If it succeeds, the target has exactly the tree of the snapshot
      that was asked for, at the path that was asked for. Until rsync runs, nothing at the target changes; rsync runs
      last, and only when the target is there. */
  lemma {:induction false} RestoreMeans(p: Profile, request: RestoreRequest, timeout: string, oracle: Oracle,
      skips: Skips, machines: seq<Machine>)
    requires Fitting(request)
    requires Enacts(RestoreOutcome(p, request, timeout, oracle).ran, oracle, skips, machines)
    ensures var outcome := RestoreOutcome(p, request, timeout, oracle);
            && outcome.ran != []
            && (outcome.ok ==> Brought(p, request, machines[0], machines[|outcome.ran|]))
            && (forall k | 0 <= k < |outcome.ran| :: Kept(machines[0].files, machines[k].files, request.target))
            && var last := |outcome.ran| - 1;
               if RunsRsync(outcome.ran[last]) then machines[last].files(request.target) == Some(Dir)
               else Kept(machines[0].files, machines[last + 1].files, request.target)
  {
    hide PipelineDoes, Fitting, Succeeds, Parse, RestoreScript, Brought, Kept;
    hide RmArgs, MkdirArgs, ValidationArgs, RestoreArgs;
    var outcome := RestoreOutcome(p, request, timeout, oracle);
    var steps := StepsOf(RestoreSteps(p, request, timeout));
    RestoreScriptRuns(p, request, timeout, oracle);
    StepsAre(p, request, timeout);
    var last := |outcome.ran| - 1;
    forall k | 0 <= k <= last ensures Kept(machines[0].files, machines[k].files, request.target) {
      RunReaches(p, request, timeout, oracle, skips, outcome, machines, k);
    }
    RunReaches(p, request, timeout, oracle, skips, outcome, machines, last);
    StepReaches(p, request, timeout, skips, machines[0], machines[last], machines[last + 1], last, outcome.ok);
    OnlyLastRunsRsync(p, request, timeout);
    assert outcome.ran[last] == steps[last];
  }

  predicate RunsRsync(p: Pipeline) {
    p != [] && p[0].argv != [] && p[0].argv[0] == "rsync"
  }

  // ---- The backup script ----

  /** What was in the repository, if it was there. */
  function Before(m: Machine, repository: string): seq<Snap> {
    m.repositories(repository).GetOr([])
  }

  /** Nothing stored is lost, no file changes, and no other repository. */
  ghost predicate KeepsStored(repository: string, first: Machine, now: Machine) {
    && now.files == first.files && OthersKept(first, now, repository)
    && Before(first, repository) <= Before(now, repository)
  }

  lemma {:induction false} ConfigEffect(before: Machine, after: Machine, skips: Skips, ok: bool, p: Profile,
      timeout: string)
    requires PipelineDoes([Simple(BaseArgs(p, "cat", timeout) + ["config"], QUIET)], skips, before, after, ok)
    ensures after == before && (ok ==> before.repositories(RepositoryString(p)).Some?)
  {
    hide ReadArgs, Values, RepositoryString;
    var base := BaseArgs(p, "cat", timeout);
    var argv := base + ["config"];
    var call := ReadBase(p, "cat", timeout);
    call := ReadPlusWord(base[1..], call, "config");
    assert argv[1..] == base[1..] + ["config"] && argv[0] == "restic";
    assert Harmless(QUIET);
    assert CommandDoes(argv, skips, before, after, ok);
    assert call.words == ["cat", "config"];
  }

  lemma {:induction false} InitEffect(before: Machine, after: Machine, skips: Skips, ok: bool, p: Profile,
      timeout: string)
    requires PipelineDoes([Simple(BaseArgs(p, "init", timeout), [])], skips, before, after, ok)
    ensures KeepsStored(RepositoryString(p), before, after)
    ensures ok ==> before.repositories(RepositoryString(p)).None? && after.repositories(RepositoryString(p)) == Some([])
  {
    hide ReadArgs, Values, RepositoryString;
    var argv := BaseArgs(p, "init", timeout);
    var call := ReadBase(p, "init", timeout);
    assert CommandDoes(argv, skips, before, after, ok);
    assert call.words == ["init"] && ResticDoes(argv[1..], skips, before, after, ok);
    assert InitDoes(RepositoryString(p), before, after, ok);
  }

  /** One snapshot was added: that of the source's path, with the source's tags, and what is at the path without what
      the excludes leave out. */
  ghost predicate Added(p: Profile, spec: Spec, source: Source, excludeFiles: seq<string>, skips: Skips,
                        first: Machine, now: Machine)
  {
    var was, stored := Before(first, RepositoryString(p)), Before(now, RepositoryString(p));
    && |stored| == |was| + 1
    && Holds(stored[|was|], SourcePath(spec, source), SnapshotTags(spec, source.id), first.files, skips,
             spec.excludes, excludeFiles)
  }

  lemma {:induction false} BackupEffect(before: Machine, after: Machine, skips: Skips, ok: bool, p: Profile,
      spec: Spec, source: Source, excludeFiles: seq<string>, timeout: string)
    requires Plain(SourcePath(spec, source))
    requires PipelineDoes([Simple(BackupArgs(p, spec, source, excludeFiles, timeout), [])], skips, before, after, ok)
    ensures KeepsStored(RepositoryString(p), before, after)
    ensures ok ==> Added(p, spec, source, excludeFiles, skips, before, after)
  {
    hide ReadArgs, Values, RepositoryString, SourcePath, SnapshotTags, Flagged, Holds;
    var argv := BackupArgs(p, spec, source, excludeFiles, timeout);
    var call := ReadBackup(p, spec, source, excludeFiles, timeout);
    assert argv[0] == "restic" && CommandDoes(argv, skips, before, after, ok);
    assert ResticDoes(argv[1..], skips, before, after, ok);
    assert BackupDoes(call, RepositoryString(p), SourcePath(spec, source), skips, before, after, ok);
  }

  /** The backup script, from its program to the repository. No file changes and nothing stored is lost, however it
      ends; if it succeeds, one snapshot was added, of what is at the source's path. */
  lemma {:induction false} BackupMeans(p: Profile, spec: Spec, source: Source, excludeFiles: seq<string>,
      timeout: string, oracle: Oracle, skips: Skips, machines: seq<Machine>)
    requires Plain(SourcePath(spec, source))
    requires Enacts(Execute(BackupProgram(p, spec, source, excludeFiles, timeout), oracle).ran, oracle, skips, machines)
    ensures var outcome := Execute(BackupProgram(p, spec, source, excludeFiles, timeout), oracle);
            var last := machines[|outcome.ran|];
            && KeepsStored(RepositoryString(p), machines[0], last)
            && (outcome.ok ==> Added(p, spec, source, excludeFiles, skips, machines[0], last))
  {
    hide PipelineDoes, BaseArgs, BackupArgs, RepositoryString, SourcePath, Holds;
    var config, init := BaseArgs(p, "cat", timeout) + ["config"], BaseArgs(p, "init", timeout);
    var backup := BackupArgs(p, spec, source, excludeFiles, timeout);
    BackupScriptRuns(config, init, backup, oracle);
    var ran := Execute(BackupProgram(p, spec, source, excludeFiles, timeout), oracle).ran;
    var status := i requires 0 <= i < |ran| => Succeeds(ran[i], ran[..i], oracle);
    var c, i := [Simple(config, QUIET)], [Simple(init, [])];
    assert ran[..0] == [] && (|ran| > 1 ==> ran[..1] == [c]) && (|ran| > 2 ==> ran[..2] == [c, i]);
    assert PipelineDoes(ran[0], skips, machines[0], machines[1], status(0));
    ConfigEffect(machines[0], machines[1], skips, status(0), p, timeout);
    if |ran| > 1 {
      assert PipelineDoes(ran[1], skips, machines[1], machines[2], status(1));
      if oracle([], [Simple(config, QUIET)], 0) {
        BackupEffect(machines[1], machines[2], skips, status(1), p, spec, source, excludeFiles, timeout);
      } else {
        InitEffect(machines[1], machines[2], skips, status(1), p, timeout);
        if |ran| > 2 {
          assert PipelineDoes(ran[2], skips, machines[2], machines[3], status(2));
          BackupEffect(machines[2], machines[3], skips, status(2), p, spec, source, excludeFiles, timeout);
        }
      }
    }
  }

  // ---- A restore of a backup ----

  /** A restore of the snapshot that a backup made gives the target exactly the tree that was backed up, if the backup
      leaves nothing out. */
  lemma {:induction false} RestoreUndoesBackup(p: Profile, spec: Spec, source: Source, timeout: string, skips: Skips,
      oracle: Oracle, backup: seq<Machine>, request: RestoreRequest, oracle': Oracle, restore: seq<Machine>, i: nat)
    requires forall q :: !skips([], [], q)
    requires Fitting(request) && request.container == spec.containerName && request.sourceID == source.id
    requires var saved := Execute(BackupProgram(p, spec, source, [], timeout), oracle);
             && saved.ok && spec.excludes == [] && Enacts(saved.ran, oracle, skips, backup)
    requires var brought := RestoreOutcome(p, request, timeout, oracle');
             brought.ok && Enacts(brought.ran, oracle', skips, restore)
    requires var stored := Before(restore[0], RepositoryString(p));
             var made := Before(backup[|backup| - 1], RepositoryString(p));
             && made != [] && i < |stored| && stored[i] == made[|made| - 1]
             && request.snapshotID != "latest" && Chosen(stored, request.snapshotID, [], i)
    ensures SameTree(restore[|restore| - 1].files, request.target, backup[0].files, SourcePath(spec, source))
  {
    hide PipelineDoes, RepositoryString, Plain, BackupProgram, RestoreScript, Parse, Apart;
    SamePathAsked(spec, source, request);
    assert Plain(RequestSourcePath(request));
    BackupMeans(p, spec, source, [], timeout, oracle, skips, backup);
    RestoreMeans(p, request, timeout, oracle', skips, restore);
    var path := SourcePath(spec, source);
    var snap := Before(restore[0], RepositoryString(p))[i];
    assert Brought(p, request, restore[0], restore[|restore| - 1]);
    assert SameTree(restore[|restore| - 1].files, request.target, snap.tree, path);
    assert Within(path, path);
    forall r | Inside(r) ensures snap.tree(path + r) == backup[0].files(path + r) {
      ExtendedIsWithin(path, r);
    }
  }

  lemma {:induction false} SamePathAsked(spec: Spec, source: Source, request: RestoreRequest)
    requires request.container == spec.containerName && request.sourceID == source.id
    ensures RequestSourcePath(request) == SourcePath(spec, source)
  {
  }

  /** The request that a restore makes for a source is one of those, and asks for the path that its backups store. */
  lemma {:induction false} RequestsFit(spec: Spec, source: Source, request: RestoreRequest)
    requires ContainerName(spec.containerName) && PlainSegment(spec.containerName)
    requires PlainSegment(source.id) && '/' !in source.id
    requires request.container == spec.containerName && request.sourceID == source.id
    requires request.target == "/volust/target" && !IsOption(request.snapshotID)
    ensures Fitting(request)
  {
    hide Plain, PlainSegment, SourcePath, RequestSourcePath;
    PathIsPlain(spec, source);
    SamePathAsked(spec, source, request);
    LettersArePlain("volust");
    LettersArePlain("target");
    PlainAlone("target");
    PlainBehind("volust", "/" + "target");
    assert "/" + "volust" + ("/" + "target") == request.target;
    assert STAGING[8] == 's' && request.target[8] == 't';
  }
}
