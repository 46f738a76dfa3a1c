/** What the commands of a worker do to files and to restic repositories, read off the words of their command lines
    (the manuals of rm, mkdir, rsync and restic). Only the uses that Volust makes of them are described; of any other
    command line nothing is said. A command that fails may leave what it works on in any state. */
module Commands {
  import opened Text
  import opened Config
  import opened Shell

  // ---- Files ----

  /** `content` stands for all that rsync -aHAX --numeric-ids copies of a file. */
  datatype Node = Dir | File(content: int)

  /** What is at each absolute path. */
  type Files = string -> Option<Node>

  /** A path that means the same to every command: absolute, without empty, "." or ".." segments, and without the
      characters of a pattern. */
  ghost predicate Plain(path: string) {
    path != "" && path[0] == '/' && forall s | s in Split(path[1..], '/') :: PlainSegment(s)
  }

  predicate PlainSegment(s: string) {
    !BadSegment(s) && forall i | 0 <= i < |s| :: s[i] != '*' && s[i] != '?' && s[i] != '[' && s[i] != '\\'
  }

  /** The path is `dir` or inside it. */
  predicate Within(path: string, dir: string) {
    path == dir || dir + "/" <= path
  }

  predicate Apart(a: string, b: string) {
    !Within(a, b) && !Within(b, a)
  }

  /** What is behind the path of a directory in the path of something inside it. */
  predicate Inside(rest: string) {
    rest != "" && rest[0] == '/'
  }

  ghost predicate SameTree(f: Files, a: string, g: Files, b: string) {
    f(a) == g(b) && forall r | Inside(r) :: f(a + r) == g(b + r)
  }

  ghost predicate SameOutside(f: Files, g: Files, dir: string) {
    forall q | !Within(q, dir) :: f(q) == g(q)
  }

  lemma {:induction false} InsideIsWithin(a: string, r: string, b: string)
    requires Inside(r)
    ensures Within(b, a + r) ==> Within(b, a)
    ensures Within(a + r, b) ==> Within(a, b) || Within(b, a)
  {
    var path := a + r;
    if Within(b, path) {
      assert b[..|a| + 1] == path[..|a| + 1] == a + "/";
    }
    if Within(path, b) && |b| > |a| {
      assert b[..|a| + 1] == path[..|a| + 1] == a + "/";
    } else if Within(path, b) && |b| < |a| {
      assert (b + "/") == path[..|b| + 1] == a[..|b| + 1];
    } else if Within(path, b) {
      assert b == path[..|b|] == a;
    }
  }

  lemma {:induction false} ExtendedIsWithin(a: string, r: string)
    requires Inside(r)
    ensures Within(a + r, a)
  {
    assert a + "/" == (a + r)[..|a| + 1];
  }

  // ---- Repositories ----

  /** One backed-up path, and what was at it and below. */
  datatype Snap = Snap(id: string, path: string, tags: seq<string>, tree: Files)

  datatype Machine = Machine(files: Files, repositories: string -> Option<seq<Snap>>)

  /** Whether restic leaves a path out, given the patterns and the files of patterns to exclude. */
  type Skips = (seq<string>, seq<string>, string) -> bool

  // ---- The command line of restic ----

  datatype Setting = Setting(name: string, value: string)

  datatype Call = Call(options: seq<Setting>, words: seq<string>)

  const VALUED: set<string> := {
    "-r", "--retry-lock", "--target", "--include", "--path", "--tag", "--exclude", "--exclude-file"}

  function Both(a: Option<Call>, b: Option<Call>): Option<Call> {
    if a.Some? && b.Some? then Some(Call(a.value.options + b.value.options, a.value.words + b.value.words)) else None
  }

  predicate IsOption(arg: string) {
    arg != "" && arg[0] == '-'
  }

  /** Options with their values, and the other words in order. */
  function ReadArgs(args: seq<string>): Option<Call>
    decreases |args|
  {
    if args == [] then Some(Call([], []))
    else if args[0] in VALUED then
      if |args| == 1 then None else Both(Some(Call([Setting(args[0], args[1])], [])), ReadArgs(args[2..]))
    else if args[0] == "--json" then ReadArgs(args[1..])
    else if IsOption(args[0]) then None
    else Both(Some(Call([], [args[0]])), ReadArgs(args[1..]))
  }

  /** The values of all copies of an option. */
  function Values(options: seq<Setting>, name: string): seq<string> {
    if options == [] then []
    else (if options[0].name == name then [options[0].value] else []) + Values(options[1..], name)
  }

  // ---- Restic ----

  ghost predicate OthersKept(before: Machine, after: Machine, repository: string) {
    forall r | r != repository :: after.repositories(r) == before.repositories(r)
  }

  ghost predicate InitDoes(repository: string, before: Machine, after: Machine, ok: bool) {
    && after.files == before.files && OthersKept(before, after, repository)
    && (ok ==> before.repositories(repository).None? && after.repositories(repository) == Some([]))
    && (!ok ==> after.repositories(repository) == before.repositories(repository))
  }

  /** The snapshot holds the path as it was, without what is excluded. */
  ghost predicate Holds(snap: Snap, path: string, tags: seq<string>, files: Files, skips: Skips,
                        excludes: seq<string>, excludeFiles: seq<string>)
  {
    && snap.path == path && snap.tags == tags
    && forall q | Within(q, path) :: snap.tree(q) == if skips(excludes, excludeFiles, q) then None else files(q)
  }

  /** One snapshot is added. A backup that fails may leave a partial one. */
  ghost predicate BackupDoes(call: Call, repository: string, path: string, skips: Skips,
                             before: Machine, after: Machine, ok: bool)
  {
    var was, now := before.repositories(repository), after.repositories(repository);
    && after.files == before.files && OthersKept(before, after, repository)
    && (if was.Some? then now.Some? && was.value <= now.value else now.None?)
    && (ok ==> was.Some? && |now.value| == |was.value| + 1
               && Holds(now.value[|was.value|], path, Values(call.options, "--tag"), before.files, skips,
                        Values(call.options, "--exclude"), Values(call.options, "--exclude-file")))
  }

  /** The snapshot that a name stands for: the only one whose id starts with it. "latest" is one of those with the
      given path; which one, the tags and the times decide. */
  ghost predicate Chosen(snaps: seq<Snap>, name: string, paths: seq<string>, i: nat) {
    && i < |snaps|
    && if name == "latest" then forall p | p in paths :: p == snaps[i].path
       else name <= snaps[i].id && forall j | 0 <= j < |snaps| && name <= snaps[j].id :: j == i
  }

  /** The snapshot's tree at `path` comes to lie under `dir`. */
  ghost predicate Laid(snap: Snap, path: string, dir: string, before: Files, after: Files) {
    forall q | Within(q, path) :: after(dir + q) == if snap.tree(q).Some? then snap.tree(q) else before(dir + q)
  }

  ghost predicate RestoreDoes(call: Call, repository: string, name: string, before: Machine, after: Machine, ok: bool) {
    var targets, includes := Values(call.options, "--target"), Values(call.options, "--include");
    && after.repositories == before.repositories
    && (|targets| == |includes| == 1 && Plain(targets[0]) && Plain(includes[0]) ==>
          && SameOutside(before.files, after.files, targets[0])
          && (ok ==> before.repositories(repository).Some? && exists i: nat ::
                       && Chosen(before.repositories(repository).value, name, Values(call.options, "--path"), i)
                       && Laid(before.repositories(repository).value[i], includes[0], targets[0], before.files,
                               after.files)))
  }

  ghost predicate ResticDoes(args: seq<string>, skips: Skips, before: Machine, after: Machine, ok: bool) {
    match ReadArgs(args)
    case None => true
    case Some(call) =>
      var repositories, words := Values(call.options, "-r"), call.words;
      |repositories| == 1 ==>
        && (words == ["cat", "config"] ==> after == before && (ok ==> before.repositories(repositories[0]).Some?))
        && (words == ["init"] ==> InitDoes(repositories[0], before, after, ok))
        && (|words| == 2 && words[0] == "backup" && Plain(words[1]) ==>
              BackupDoes(call, repositories[0], words[1], skips, before, after, ok))
        && (|words| == 2 && words[0] == "restore" ==>
              RestoreDoes(call, repositories[0], words[1], before, after, ok))
  }

  // ---- The other commands ----

  ghost predicate RmDoes(argv: seq<string>, before: Machine, after: Machine, ok: bool) {
    |argv| == 3 && argv[1] == "-rf" && Plain(argv[2]) ==>
      && after.repositories == before.repositories && SameOutside(before.files, after.files, argv[2])
      && (ok ==> forall q | Within(q, argv[2]) :: after.files(q) == None)
  }

  /** Some of the directories lead to the path. */
  predicate Leads(q: string, dirs: seq<string>) {
    exists k | 0 <= k < |dirs| :: Within(dirs[k], q)
  }

  ghost predicate MkdirDoes(argv: seq<string>, before: Machine, after: Machine, ok: bool) {
    |argv| > 2 && argv[1] == "-p" && (forall k | 2 <= k < |argv| :: Plain(argv[k])) ==>
      && after.repositories == before.repositories
      && (forall q :: after.files(q) == before.files(q)
                      || (before.files(q).None? && after.files(q) == Some(Dir) && Leads(q, argv[2..])))
      && (ok ==> forall k | 2 <= k < |argv| :: after.files(argv[k]) == Some(Dir))
  }

  /** A source that ends in a slash is copied by its contents; with --delete, what is not in the source goes. */
  ghost predicate Copied(from: string, to: string, delete: bool, before: Files, after: Files) {
    && before(from) == Some(Dir) && after(to) == Some(Dir)
    && forall r | Inside(r) ::
         after(to + r) == if delete || before(from + r).Some? then before(from + r) else before(to + r)
  }

  function Cut(s: string): string {
    if s == "" then s else s[..|s| - 1]
  }

  predicate EndsInSlash(s: string) {
    s != "" && s[|s| - 1] == '/'
  }

  ghost predicate RsyncDoes(argv: seq<string>, before: Machine, after: Machine, ok: bool) {
    |argv| >= 3 && EndsInSlash(argv[|argv| - 2]) && EndsInSlash(argv[|argv| - 1]) ==>
      var flags, from, to := argv[1..|argv| - 2], Cut(argv[|argv| - 2]), Cut(argv[|argv| - 1]);
      (forall f | f in flags :: IsOption(f)) && Plain(from) && Plain(to) && Apart(from, to) ==>
        && after.repositories == before.repositories && SameOutside(before.files, after.files, to)
        && (ok && "-aHAX" in flags && "--numeric-ids" in flags ==>
              Copied(from, to, "--delete" in flags, before.files, after.files))
  }

  ghost predicate CommandDoes(argv: seq<string>, skips: Skips, before: Machine, after: Machine, ok: bool) {
    argv != [] ==>
      && (argv[0] == "restic" ==> ResticDoes(argv[1..], skips, before, after, ok))
      && (argv[0] == "rm" ==> RmDoes(argv, before, after, ok))
      && (argv[0] == "mkdir" ==> MkdirDoes(argv, before, after, ok))
      && (argv[0] == "rsync" ==> RsyncDoes(argv, before, after, ok))
  }

  // ---- Pipelines and runs ----

  /** A command that changes nothing. */
  ghost predicate Reads(argv: seq<string>) {
    argv != [] && (argv[0] == "grep" || (argv[0] == "restic" && ListsSnapshots(argv[1..])))
  }

  ghost predicate ListsSnapshots(args: seq<string>) {
    ReadArgs(args).Some? && var words := ReadArgs(args).value.words; words != [] && words[0] == "snapshots"
  }

  /** Output goes nowhere, or where the other output goes. */
  predicate Harmless(redirects: seq<Redirect>) {
    forall r | r in redirects :: (r.op == Great && r.target == "/dev/null") || r.op == GreatAmp
  }

  ghost predicate PipelineDoes(p: Pipeline, skips: Skips, before: Machine, after: Machine, ok: bool) {
    && (|p| == 1 && Harmless(p[0].redirects) ==> CommandDoes(p[0].argv, skips, before, after, ok))
    && (|p| > 1 && (forall c | c in p :: Reads(c.argv) && c.redirects == []) ==> after == before)
  }

  /** What ran did this: the machine before each pipeline, and after the last. */
  ghost predicate Enacts(ran: seq<Pipeline>, oracle: Oracle, skips: Skips, machines: seq<Machine>) {
    && |machines| == |ran| + 1
    && forall i | 0 <= i < |ran| ::
         PipelineDoes(ran[i], skips, machines[i], machines[i + 1], Succeeds(ran[i], ran[..i], oracle))
  }

  // ---- Reading command lines ----

  lemma {:induction false} ReadConcat(a: seq<string>, b: seq<string>)
    requires ReadArgs(a).Some? && ReadArgs(b).Some?
    ensures ReadArgs(a + b) == Both(ReadArgs(a), ReadArgs(b))
    decreases |a|
  {
    if a == [] {
      assert a + b == b;
      assert [] + ReadArgs(b).value.options == ReadArgs(b).value.options;
      assert [] + ReadArgs(b).value.words == ReadArgs(b).value.words;
    } else if a[0] in VALUED {
      ReadConcat(a[2..], b);
      assert (a + b)[2..] == a[2..] + b;
      BothAssociates(Some(Call([Setting(a[0], a[1])], [])), ReadArgs(a[2..]), ReadArgs(b));
    } else {
      ReadConcat(a[1..], b);
      assert (a + b)[1..] == a[1..] + b;
      if a[0] != "--json" {
        BothAssociates(Some(Call([], [a[0]])), ReadArgs(a[1..]), ReadArgs(b));
      }
    }
  }

  lemma {:induction false} BothAssociates(a: Option<Call>, b: Option<Call>, c: Option<Call>)
    ensures Both(a, Both(b, c)) == Both(Both(a, b), c)
  {
    if a.Some? && b.Some? && c.Some? {
      assert a.value.options + (b.value.options + c.value.options)
          == a.value.options + b.value.options + c.value.options;
      assert a.value.words + (b.value.words + c.value.words) == a.value.words + b.value.words + c.value.words;
    }
  }

  lemma {:induction false} ReadOption(name: string, value: string)
    requires name in VALUED
    ensures ReadArgs([name, value]) == Some(Call([Setting(name, value)], []))
  {
    assert [name, value][2..] == [];
    var none: seq<string> := [];
    assert [Setting(name, value)] + [] == [Setting(name, value)] && none + none == none;
  }

  lemma {:induction false} ReadWord(word: string)
    requires !IsOption(word)
    ensures ReadArgs([word]) == Some(Call([], [word]))
  {
    assert [word][1..] == [];
    var none: seq<Setting> := [];
    assert forall name | name in VALUED :: IsOption(name);
    assert IsOption("--json") && [word] + [] == [word] && none + none == none;
  }

  lemma {:induction false} ValuesConcat(a: seq<Setting>, b: seq<Setting>, name: string)
    ensures Values(a + b, name) == Values(a, name) + Values(b, name)
    decreases |a|
  {
    if a == [] {
      assert a + b == b;
    } else {
      ValuesConcat(a[1..], b, name);
      assert (a + b)[1..] == a[1..] + b;
    }
  }

  lemma {:induction false} ValuesOne(option: Setting, name: string)
    ensures Values([option], name) == if option.name == name then [option.value] else []
  {
    assert [option][1..] == [];
  }
}
