/** Profiles, and how a repository string identifies a storage backend (internal/config/config.go). */
module Config {
  import opened Text

  datatype Kind = S3 | WebDAV | Other(name: string)

  /** `remote` is what rcloneRemoteName returns for the profile. */
  datatype Profile = Profile(kind: Kind, repository: string, path: string, url: string, remote: string)

  /** Two library functions the repository calls: lower-casing one character, and the first
      eight hexadecimal digits of a SHA-256 digest. */
  datatype Library = Library(lower: char -> char, digest: string -> string)

  predicate HexDigit(c: char) {
    '0' <= c <= '9' || 'a' <= c <= 'f'
  }

  ghost predicate Sound(lib: Library) {
    && (forall c :: lib.lower(c) == NUL <==> c == NUL)
    && (forall s :: |lib.digest(s)| == 8)
    && (forall s, i | 0 <= i < |lib.digest(s)| :: HexDigit(lib.digest(s)[i]))
  }

  function Lower(s: string, lib: Library): (r: string)
    ensures |r| == |s| && forall i | 0 <= i < |s| :: r[i] == lib.lower(s[i])
  {
    seq(|s|, i requires 0 <= i < |s| => lib.lower(s[i]))
  }

  // ---- App directories ----

  predicate SafeChar(c: char) {
    'a' <= c <= 'z' || 'A' <= c <= 'Z' || '0' <= c <= '9' || c == '.' || c == '_' || c == '-'
  }

  predicate SafeChars(value: string) {
    forall i | 0 <= i < |value| :: SafeChar(value[i])
  }

  predicate SafeDir(value: string) {
    value != "." && value != ".." && SafeChars(value)
  }

  method IsSafeAppRepositoryDir(value: string) returns (safe: bool)
    ensures safe <==> SafeDir(value)
  {
    if value == "." || value == ".." {
      return false;
    }
    for i := 0 to |value|
      invariant forall j | 0 <= j < i :: SafeChar(value[j])
    {
      if !SafeChar(value[i]) {
        return false;
      }
    }
    return true;
  }

  predicate SlugChar(c: char) {
    'a' <= c <= 'z' || '0' <= c <= '9' || c == '.' || c == '_' || c == '-'
  }

  /** Every maximal run of other characters becomes one dash, unless a dash was just written for one. */
  function Slugged(value: string, lastDash: bool): string
    decreases |value|
  {
    if value == [] then []
    else if SlugChar(value[0]) then [value[0]] + Slugged(value[1..], false)
    else (if lastDash then [] else ['-']) + Slugged(value[1..], true)
  }

  function Slug(value: string, lib: Library): string {
    var slug := Trim(Slugged(Lower(value, lib), false), Edge);
    if slug == "" then "app" else slug
  }

  method AppRepositorySlug(appName: string, lib: Library) returns (slug: string)
    ensures slug == Slug(appName, lib)
    ensures slug != "" && SafeDir(slug)
  {
    hide SafeDir, Trim, Lower, SlugChar;
    var value := Lower(appName, lib);
    var builder, lastDash := "", false;
    for i := 0 to |value|
      invariant builder + Slugged(value[i..], lastDash) == Slugged(value, false)
    {
      ghost var rest := Slugged(value[i + 1..], !SlugChar(value[i]));
      assert value[i..][1..] == value[i + 1..];
      assert builder + [value[i]] + rest == builder + ([value[i]] + rest);
      assert builder + ['-'] + rest == builder + (['-'] + rest);
      if SlugChar(value[i]) {
        builder, lastDash := builder + [value[i]], false;
      } else if !lastDash {
        builder, lastDash := builder + ['-'], true;
      }
    }
    assert value[|value|..] == [];
    assert builder + [] == builder;
    slug := Trim(builder, Edge);
    if slug == "" {
      slug := "app";
    }
    SlugIsSafe(appName, lib);
  }

  lemma {:induction false} SluggedChars(value: string, lastDash: bool)
    ensures forall c | c in Slugged(value, lastDash) :: SafeChar(c)
    decreases |value|
  {
    if value != [] {
      SluggedChars(value[1..], if SlugChar(value[0]) then false else true);
    }
  }

  lemma {:induction false} SlugIsSafe(value: string, lib: Library)
    ensures Slug(value, lib) != "" && SafeDir(Slug(value, lib))
  {
    SluggedChars(Lower(value, lib), false);
    var slug := Trim(Slugged(Lower(value, lib), false), Edge);
    TrimCut(Slugged(Lower(value, lib), false), Edge);
    assert slug != [] ==> !Cuts(Edge, slug[|slug| - 1]);
  }

  function AppName(appName: string): string {
    var value := TrimSpace(appName);
    if value == "" then "app" else value
  }

  /** AppRepositoryDir. */
  function AppDir(appName: string, lib: Library): string {
    var value := AppName(appName);
    if SafeDir(value) then value
    else Slug(value, lib) + "-" + lib.digest(value)
  }

  lemma {:induction false} SafeCharStays(c: char)
    requires SafeChar(c)
    ensures !Cuts(Space, c) && !Cuts(Slash, c) && c != NUL
  {
  }

  /** A safe, non-empty name is its own directory. */
  lemma {:induction false} AppDirFixed(dir: string, lib: Library)
    requires dir != "" && SafeDir(dir)
    ensures AppDir(dir, lib) == dir
  {
    SafeCharStays(dir[0]);
    SafeCharStays(dir[|dir| - 1]);
    assert TrimSpace(dir) == dir;
  }

  lemma {:induction false} HashedIsSafe(slug: string, hash: string)
    requires SafeChars(slug) && |hash| == 8 && forall i | 0 <= i < |hash| :: HexDigit(hash[i])
    ensures var dir := slug + "-" + hash; dir != "" && SafeDir(dir)
  {
  }

  /** The directory is one safe, non-empty path segment, and taking it again changes nothing. */
  lemma {:induction false} AppDirIsSafe(appName: string, lib: Library)
    requires Sound(lib)
    ensures AppDir(appName, lib) != "" && SafeDir(AppDir(appName, lib))
    ensures AppDir(AppDir(appName, lib), lib) == AppDir(appName, lib)
  {
    var value := AppName(appName);
    SlugIsSafe(value, lib);
    HashedIsSafe(Slug(value, lib), lib.digest(value));
    AppDirFixed(AppDir(appName, lib), lib);
  }

  lemma {:induction false} BlankTrims(s: string)
    requires forall i | 0 <= i < |s| :: Cuts(Space, s[i])
    ensures TrimLeft(s, Space) == ""
    decreases |s|
  {
    if s != [] {
      BlankTrims(s[1..]);
    }
  }

  /** An app without a name is called "app". */
  lemma {:induction false} BlankIsApp(appName: string, lib: Library)
    requires forall i | 0 <= i < |appName| :: Cuts(Space, appName[i])
    ensures AppDir(appName, lib) == "app"
  {
    BlankTrims(appName);
    AppDirFixed("app", lib);
  }

  /** Two names that are no directories get one directory exactly if they have one slug and one digest. */
  lemma {:induction false} HashedDirs(a: string, b: string, lib: Library)
    requires Sound(lib) && !SafeDir(AppName(a)) && !SafeDir(AppName(b))
    ensures AppDir(a, lib) == AppDir(b, lib)
       <==> Slug(AppName(a), lib) == Slug(AppName(b), lib) && lib.digest(AppName(a)) == lib.digest(AppName(b))
  {
    var x, y := Slug(AppName(a), lib) + "-", Slug(AppName(b), lib) + "-";
    var m, n := lib.digest(AppName(a)), lib.digest(AppName(b));
    if x + m == y + n {
      assert |m| == |n| == 8;
      assert x == (x + m)[..|x|] && y == (y + n)[..|y|];
      assert m == (x + m)[|x|..] && n == (y + n)[|y|..];
      assert Slug(AppName(a), lib) == x[..|x| - 1] && Slug(AppName(b), lib) == y[..|y| - 1];
    }
  }

  lemma {:induction false} SluggedKeeps(value: string, rest: string, lastDash: bool)
    requires forall i | 0 <= i < |value| :: SlugChar(value[i])
    ensures Slugged(value + rest, lastDash) == value + Slugged(rest, if value == "" then lastDash else false)
    decreases |value|
  {
    if value == "" {
      assert value + rest == rest;
    } else {
      assert (value + rest)[0] == value[0] && (value + rest)[1..] == value[1..] + rest;
      SluggedKeeps(value[1..], rest, false);
      assert [value[0]] + (value[1..] + Slugged(rest, false)) == value + Slugged(rest, false);
    }
  }

  lemma {:induction false} SluggedSkips(run: string, rest: string)
    requires forall i | 0 <= i < |run| :: !SlugChar(run[i])
    ensures Slugged(run + rest, true) == Slugged(rest, true)
    decreases |run|
  {
    if run == "" {
      assert run + rest == rest;
    } else {
      assert (run + rest)[0] == run[0] && (run + rest)[1..] == run[1..] + rest;
      SluggedSkips(run[1..], rest);
    }
  }

  lemma {:induction false} SluggedRun(run: string, after: string)
    requires forall i | 0 <= i < |after| :: SlugChar(after[i])
    requires run != "" && forall i | 0 <= i < |run| :: !SlugChar(run[i])
    ensures Slugged(run + after, false) == ['-'] + after
  {
    hide SlugChar;
    assert (run + after)[0] == run[0] && (run + after)[1..] == run[1..] + after;
    SluggedSkips(run[1..], after);
    SluggedKeeps(after, "", true);
    assert after + "" == after && Slugged("", true) == "" && Slugged("", false) == "";
  }

  /** Lower-case letters, digits, dots, dashes and underscores stay, and a run of anything else becomes one dash. */
  lemma {:induction false} RunsBecomeDashes(before: string, run: string, after: string)
    requires forall i | 0 <= i < |before + after| ::
               var c := (before + after)[i];
               'a' <= c <= 'z' || '0' <= c <= '9' || c == '.' || c == '_' || c == '-'
    requires run != "" && forall i | 0 <= i < |run| ::
               var c := run[i];
               !('a' <= c <= 'z' || '0' <= c <= '9' || c == '.' || c == '_' || c == '-')
    ensures Slugged(before + run + after, false) == before + "-" + after
  {
    hide Slugged;
    assert forall i | 0 <= i < |before| :: before[i] == (before + after)[i];
    assert forall i | 0 <= i < |after| :: after[i] == (before + after)[|before| + i];
    SluggedKeeps(before, run + after, false);
    assert before + run + after == before + (run + after);
    SluggedRun(run, after);
    assert before + (['-'] + after) == before + "-" + after;
  }

  // ---- Repositories and backends ----

  function TrimSlash(s: string): string {
    TrimRight(s, Slash)
  }

  function RepositoryString(p: Profile): string {
    match p.kind
    case WebDAV =>
      "rclone:" + p.remote + ":" + (if p.path != [] && p.path[0] == '/' then p.path[1..] else p.path)
    case _ => p.repository
  }

  function NormalizeBackendPart(value: string, lib: Library): string {
    Lower(TrimSlash(TrimSpace(value)), lib)
  }

  datatype Root = Root(endpoint: string, bucket: string)

  const S3_PREFIX: string := "s3:"

  /** parseS3RepositoryRoot: the first two segments after "s3:", if both are there and non-empty. */
  function ParseS3Root(repository: string): Option<Root> {
    if !(S3_PREFIX <= repository) then None
    else
      var rest := repository[|S3_PREFIX|..];
      var endpoint := Before(rest, '/');
      if |endpoint| >= |rest| then None
      else
        var bucket := Before(rest[|endpoint| + 1..], '/');
        if endpoint == "" || bucket == "" then None else Some(Root(endpoint, bucket))
  }

  function BackendKey(p: Profile, lib: Library): string {
    match p.kind
    case WebDAV => Join(["webdav", NormalizeBackendPart(p.url, lib)], [NUL])
    case S3 => (
      match ParseS3Root(p.repository)
      case Some(Root(endpoint, bucket)) =>
        Join(["s3", NormalizeBackendPart(endpoint, lib), bucket], [NUL])
      case None => Join(["s3", NormalizeBackendPart(TrimSlash(p.repository), lib)], [NUL]))
    case Other(name) => Join([name, NormalizeBackendPart(RepositoryString(p), lib)], [NUL])
  }

  function ForApp(p: Profile, appName: string, lib: Library): (r: Profile)
    ensures r.kind == p.kind && r.url == p.url && r.remote == p.remote
  {
    var dir := AppDir(appName, lib);
    match p.kind
    case S3 => p.(repository := TrimSlash(p.repository) + "/" + dir)
    case WebDAV => p.(path := TrimSlash(p.path) + "/" + dir)
    case Other(_) => p
  }

  /** strings.Split at one character. */
  function Split(s: string, c: char): seq<string>
    decreases |s|
  {
    var first := Before(s, c);
    if |first| >= |s| then [s] else [first] + Split(s[|first| + 1..], c)
  }

  predicate BadSegment(segment: string) {
    segment == "." || segment == ".." || segment == ""
  }

  function TrimPath(path: string): string {
    Trim(TrimSpace(path), Slash)
  }

  /** When normalizeRepositoryPath accepts a path. */
  ghost predicate ValidPath(path: string) {
    TrimPath(path) != "" && forall s | s in Split(TrimPath(path), '/') :: s != "" && s != "." && s != ".."
  }

  /** Blanks outside and slashes inside them are cut off. */
  lemma {:induction false} TrimPathCuts(path: string)
    requires path != "" && !Cuts(Space, path[0]) && !Cuts(Space, path[|path| - 1])
    requires path[0] != '/' && path[|path| - 1] != '/'
    ensures TrimPath(path) == TrimPath("/" + path + "/") == TrimPath(" /" + path + "/ ") == path
  {
    TrimOne(path, '/', Slash);
    TrimOne("/" + path + "/", ' ', Space);
    assert " /" + path + "/ " == [' '] + ("/" + path + "/") + [' '];
  }

  lemma {:induction false} TrimOne(s: string, c: char, cut: CutSet)
    requires Cuts(cut, c) && s != "" && !Cuts(cut, s[0]) && !Cuts(cut, s[|s| - 1])
    ensures Trim([c] + s + [c], cut) == s == Trim(s, cut)
  {
    var longer := [c] + s + [c];
    assert longer[1..] == s + [c] && (s + [c])[..|s|] == s;
    assert TrimLeft(s + [c], cut) == s + [c] && TrimLeft(longer, cut) == TrimLeft(longer[1..], cut);
    assert TrimRight(s + [c], cut) == TrimRight(s, cut) == s && TrimLeft(s, cut) == s;
  }

  method NormalizeRepositoryPath(path: string) returns (r: Option<string>)
    ensures r.Some? <==> ValidPath(path)
    ensures r.Some? ==> r.value == TrimPath(path)
  {
    var value := TrimPath(path);
    if value == "" {
      return None;
    }
    var segments := Split(value, '/');
    for i := 0 to |segments|
      invariant forall j | 0 <= j < i :: !BadSegment(segments[j])
    {
      if BadSegment(segments[i]) {
        assert segments[i] in segments;
        return None;
      }
    }
    return Some(value);
  }

  /** WithRepositoryPath: the profile on another path of the same backend, or an error. */
  method WithRepositoryPath(p: Profile, path: string, lib: Library) returns (r: Option<Profile>)
    ensures r.Some? <==>
            ValidPath(path) && (p.kind.WebDAV? || (p.kind.S3? && ParseS3Root(p.repository).Some?))
    ensures r.Some? ==> r.value.kind == p.kind && r.value.url == p.url && r.value.remote == p.remote
    ensures r.Some? && p.kind.WebDAV? ==> r.value.path == TrimPath(path)
    ensures r.Some? && p.kind.S3? ==>
              var root := ParseS3Root(p.repository).value;
              r.value.repository == "s3:" + root.endpoint + "/" + root.bucket + "/" + TrimPath(path)
    ensures r.Some? ==> BackendKey(r.value, lib) == BackendKey(p, lib)
    ensures r.Some? && p.kind.S3? ==> ParseS3Root(r.value.repository) == ParseS3Root(p.repository)
  {
    var normal := NormalizeRepositoryPath(path);
    if normal.None? {
      return None;
    }
    match p.kind
    case S3 =>
      match ParseS3Root(p.repository) {
        case None => return None;
        case Some(Root(endpoint, bucket)) =>
          var repository := "s3:" + endpoint + "/" + bucket + "/" + normal.value;
          ParsedUnder(p.repository);
          UnderParses(repository, Root(endpoint, bucket));
          return Some(p.(repository := repository));
      }
    case WebDAV => return Some(p.(path := normal.value));
    case Other(_) => return None;
  }

  lemma {:induction false} BeforeFree(s: string, c: char)
    ensures c !in Before(s, c) && |Before(s, c)| <= |s| && Before(s, c) == s[..|Before(s, c)|]
    ensures |Before(s, c)| < |s| ==> s[|Before(s, c)|] == c
    ensures |Before(s, c)| == |s| ==> c !in s
  {
    if s != [] && s[0] != c {
      BeforeFree(s[1..], c);
    }
  }

  function Head(root: Root): string {
    "s3:" + root.endpoint + "/" + root.bucket
  }

  /** "s3:endpoint/bucket", alone or followed by a slash and anything. */
  ghost predicate Under(repository: string, root: Root) {
    && root.endpoint != "" && root.bucket != "" && '/' !in root.endpoint && '/' !in root.bucket
    && Head(root) <= repository
    && (|repository| > |Head(root)| ==> repository[|Head(root)|] == '/')
  }

  lemma {:induction false} ParsedUnder(repository: string)
    requires ParseS3Root(repository).Some?
    ensures Under(repository, ParseS3Root(repository).value)
  {
    var rest := repository[3..];
    var endpoint := Before(rest, '/');
    BeforeFree(rest, '/');
    var tail := rest[|endpoint| + 1..];
    BeforeFree(tail, '/');
    assert rest == endpoint + "/" + tail;
    assert repository == "s3:" + endpoint + "/" + tail;
  }

  lemma {:induction false} ParseSegments(endpoint: string, tail: string)
    requires '/' !in endpoint && endpoint != "" && Before(tail, '/') != ""
    ensures ParseS3Root("s3:" + endpoint + "/" + tail) == Some(Root(endpoint, Before(tail, '/')))
  {
    var repository := "s3:" + endpoint + "/" + tail;
    var rest := endpoint + ['/'] + tail;
    assert repository == S3_PREFIX + rest;
    assert repository[|S3_PREFIX|..] == rest;
    BeforeFirst(endpoint, '/', tail);
    assert rest[|endpoint| + 1..] == tail;
  }

  lemma {:induction false} UnderParses(repository: string, root: Root)
    requires Under(repository, root)
    ensures ParseS3Root(repository) == Some(root)
  {
    var Root(endpoint, bucket) := root;
    var head := Head(root);
    var tail := bucket + repository[|head|..];
    assert repository == "s3:" + endpoint + "/" + tail;
    if |repository| == |head| {
      assert tail == bucket;
      BeforeNone(bucket, '/');
    } else {
      assert tail == bucket + "/" + repository[|head| + 1..];
      BeforeFirst(bucket, '/', repository[|head| + 1..]);
    }
    ParseSegments(endpoint, tail);
  }

  /** parseS3RepositoryRoot accepts exactly the repositories under some root, and finds that root. */
  lemma {:induction false} ParseS3RootIff(repository: string, root: Root)
    ensures ParseS3Root(repository) == Some(root) <==> Under(repository, root)
  {
    if ParseS3Root(repository) == Some(root) {
      ParsedUnder(repository);
    } else if Under(repository, root) {
      UnderParses(repository, root);
    }
  }

  /** A repository keeps its root when trailing slashes go and a directory is added. */
  lemma {:induction false} UnderDir(repository: string, dir: string, root: Root)
    requires Under(repository, root)
    ensures Under(TrimSlash(repository) + "/" + dir, root)
  {
    var head, trimmed := Head(root), TrimSlash(repository);
    TrimRightCut(repository, Slash);
    assert head[|head| - 1] == root.bucket[|root.bucket| - 1];
    assert !Cuts(Slash, repository[|head| - 1]);
    assert |trimmed| >= |head|;
    assert trimmed[..|head|] == repository[..|head|];
  }

  /** Only "s3:" and one segment gets a root from the directory alone. */
  lemma {:induction false} UnderFromDir(repository: string, dir: string, root: Root)
    requires '/' !in dir && Under(TrimSlash(repository) + "/" + dir, root)
    ensures Under(repository, root) || (TrimSlash(repository) == "s3:" + root.endpoint && root.bucket == dir)
  {
    var head, trimmed := Head(root), TrimSlash(repository);
    var full := trimmed + "/" + dir;
    TrimRightCut(repository, Slash);
    if |head| <= |trimmed| {
      assert head == full[..|head|] == trimmed[..|head|] == repository[..|head|];
      assert |trimmed| == |head| && |repository| > |head| ==> Cuts(Slash, repository[|head|]);
      assert |trimmed| > |head| ==> repository[|head|] == trimmed[|head|] == full[|head|];
    } else {
      assert head[|trimmed|] == full[|trimmed|] == '/';
      assert |trimmed| == 3 + |root.endpoint|;
      assert trimmed == full[..|trimmed|] == head[..|trimmed|];
      assert full[|trimmed| + 1..] == dir;
      assert forall i | |trimmed| < i < |full| :: full[i] in dir;
      assert root.bucket == head[|trimmed| + 1..] == full[|trimmed| + 1..];
    }
  }

  function Nuls(s: string): nat {
    multiset(s)[NUL]
  }

  lemma {:induction false} NulsConcat(a: string, b: string)
    ensures Nuls(a + b) == Nuls(a) + Nuls(b)
  {
  }

  lemma {:induction false} LowerSplits(s: string, lib: Library)
    ensures Lower(s, lib) == if s == [] then s else [lib.lower(s[0])] + Lower(s[1..], lib)
  {
  }

  lemma {:induction false} LowerKeepsNul(c: char, lib: Library)
    requires Sound(lib)
    ensures Nuls([lib.lower(c)]) == Nuls([c])
  {
  }

  lemma {:induction false} NulsOfLower(s: string, lib: Library)
    requires Sound(lib)
    ensures Nuls(Lower(s, lib)) == Nuls(s)
    decreases |s|
  {
    hide Nuls, Sound, Lower;
    LowerSplits(s, lib);
    if s != [] {
      var first, rest := [lib.lower(s[0])], Lower(s[1..], lib);
      LowerKeepsNul(s[0], lib);
      NulsOfLower(s[1..], lib);
      NulsConcat(first, rest);
      NulsConcat([s[0]], s[1..]);
      assert s == [s[0]] + s[1..];
    }
  }

  lemma {:induction false} NoNulCut(s: string, cut: CutSet)
    requires forall i | 0 <= i < |s| :: Cuts(cut, s[i])
    ensures Nuls(s) == 0
  {
  }

  lemma {:induction false} NulsOfTrim(s: string, cut: CutSet)
    ensures Nuls(TrimLeft(s, cut)) == Nuls(s) && Nuls(TrimRight(s, cut)) == Nuls(s)
  {
    var l, r := TrimLeft(s, cut), TrimRight(s, cut);
    TrimLeftCut(s, cut);
    TrimRightCut(s, cut);
    var front, back := s[..|s| - |l|], s[|r|..];
    NoNulCut(front, cut);
    NoNulCut(back, cut);
    assert s == front + l && s == r + back;
    NulsConcat(front, l);
    NulsConcat(r, back);
  }

  lemma {:induction false} NulsOfNormal(s: string, lib: Library)
    requires Sound(lib)
    ensures Nuls(NormalizeBackendPart(s, lib)) == Nuls(s)
  {
    NulsOfTrim(s, Space);
    NulsOfTrim(TrimLeft(s, Space), Space);
    NulsOfTrim(TrimSpace(s), Slash);
    NulsOfLower(TrimSlash(TrimSpace(s)), lib);
  }

  lemma {:induction false} TrimLeftExtends(s: string, tail: string)
    requires tail != [] && tail[0] == '/'
    ensures TrimLeft(s + tail, Space) == TrimLeft(s, Space) + tail
    decreases |s|
  {
    if s == [] {
      assert s + tail == tail;
      assert TrimLeft(tail, Space) == tail && TrimLeft(s, Space) == [];
      assert [] + tail == tail;
    } else {
      TrimLeftExtends(s[1..], tail);
      assert (s + tail)[0] == s[0];
      assert (s + tail)[1..] == s[1..] + tail;
    }
  }

  /** With a directory added, normalizing only cuts blanks in front and lower-cases. */
  lemma {:induction false} NormalOfDir(s: string, dir: string, lib: Library)
    requires dir != "" && SafeDir(dir)
    ensures NormalizeBackendPart(s + "/" + dir, lib) == Lower(TrimLeft(s, Space) + "/" + dir, lib)
  {
    var tail := "/" + dir;
    assert s + "/" + dir == s + tail;
    SafeCharStays(dir[|dir| - 1]);
    TrimLeftExtends(s, tail);
    var left := TrimLeft(s, Space);
    assert (left + tail)[|left + tail| - 1] == dir[|dir| - 1];
    assert TrimSlash(TrimSpace(s + tail)) == left + tail == left + "/" + dir;
  }

  /** Adding a directory makes a normalized backend part strictly longer. */
  lemma {:induction false} NormalGrows(s: string, dir: string, lib: Library)
    requires dir != "" && SafeDir(dir)
    ensures |NormalizeBackendPart(s + "/" + dir, lib)| > |NormalizeBackendPart(s, lib)|
  {
    NormalOfDir(s, dir, lib);
    TrimRightCut(TrimLeft(s, Space), Space);
    TrimRightCut(TrimSpace(s), Slash);
  }

  /** Putting an app's directory under a profile keeps its backend, except for the S3 repositories
      that parseS3RepositoryRoot rejects: there it always changes it. */
  lemma {:induction false} ForAppKeepsBackend(p: Profile, appName: string, lib: Library)
    requires Sound(lib)
    ensures BackendKey(ForApp(p, appName, lib), lib) == BackendKey(p, lib)
            <==> !p.kind.S3? || ParseS3Root(p.repository).Some?
  {
    var dir := AppDir(appName, lib);
    AppDirIsSafe(appName, lib);
    SafeHasNoSlash(dir);
    if p.kind.S3? {
      if ParseS3Root(p.repository).Some? {
        var root := ParseS3Root(p.repository).value;
        ParsedUnder(p.repository);
        UnderDir(p.repository, dir, root);
        UnderParses(TrimSlash(p.repository) + "/" + dir, root);
      } else {
        RejectedChangesBackend(p, dir, lib);
      }
    }
  }

  lemma {:induction false} SafeHasNoSlash(dir: string)
    requires SafeChars(dir)
    ensures '/' !in dir && NUL !in dir
  {
  }

  lemma {:induction false} OneMoreNul(before: string, endpoint: string, bucket: string)
    requires Nuls(before) == Nuls(endpoint)
    ensures Join(["s3", before], [NUL]) != Join(["s3", endpoint, bucket], [NUL])
  {
    JoinTwo("s3", before, [NUL]);
    JoinThree("s3", endpoint, bucket, [NUL]);
    var head, tail := "s3" + [NUL], endpoint + [NUL] + bucket;
    NulsConcat(endpoint + [NUL], bucket);
    NulsConcat(endpoint, [NUL]);
    NulsConcat(head, before);
    NulsConcat(head, tail);
  }

  lemma {:induction false} RejectedChangesBackend(p: Profile, dir: string, lib: Library)
    requires Sound(lib) && p.kind.S3? && ParseS3Root(p.repository).None?
    requires dir != "" && SafeDir(dir)
    ensures var full := TrimSlash(p.repository) + "/" + dir;
            BackendKey(p.(repository := full), lib) != BackendKey(p, lib)
  {
    var trimmed := TrimSlash(p.repository);
    var full := trimmed + "/" + dir;
    var before := NormalizeBackendPart(trimmed, lib);
    SafeHasNoSlash(dir);
    if ParseS3Root(full).Some? {
      var root := ParseS3Root(full).value;
      ParsedUnder(full);
      ParseS3RootIff(p.repository, root);
      UnderFromDir(p.repository, dir, root);
      NulsOfNormal(trimmed, lib);
      NulsOfNormal(root.endpoint, lib);
      NulsConcat("s3:", root.endpoint);
      OneMoreNul(before, NormalizeBackendPart(root.endpoint, lib), root.bucket);
    } else {
      SafeCharStays(dir[|dir| - 1]);
      assert full[|full| - 1] == dir[|dir| - 1];
      assert TrimSlash(full) == full;
      NormalGrows(trimmed, dir, lib);
      JoinTwo("s3", before, [NUL]);
      JoinTwo("s3", NormalizeBackendPart(full, lib), [NUL]);
    }
  }

  // ---- Which apps share a backend ----

  /** "s3:" and one segment, but for slashes at the end. */
  predicate OneSegment(repository: string) {
    var trimmed := TrimSlash(repository);
    S3_PREFIX <= trimmed && |trimmed| > |S3_PREFIX| && '/' !in trimmed[|S3_PREFIX|..]
  }

  /** Under a rejected repository the parser finds a root exactly if there is one segment; the directory is the
      bucket then. */
  lemma {:induction false} RejectedWithDir(repository: string, dir: string)
    requires ParseS3Root(repository).None? && dir != "" && '/' !in dir
    ensures var trimmed := TrimSlash(repository);
            ParseS3Root(trimmed + "/" + dir)
            == if OneSegment(repository) then Some(Root(trimmed[3..], dir)) else None
  {
    var trimmed := TrimSlash(repository);
    var full := trimmed + "/" + dir;
    if OneSegment(repository) {
      BeforeNone(dir, '/');
      assert trimmed == "s3:" + trimmed[3..];
      ParseSegments(trimmed[3..], dir);
    } else if ParseS3Root(full).Some? {
      var root := ParseS3Root(full).value;
      ParsedUnder(full);
      ParseS3RootIff(repository, root);
      SegmentAlone(repository, root.endpoint);
      UnderFromDir(repository, dir, root);
    }
  }

  lemma {:induction false} SegmentAlone(repository: string, segment: string)
    ensures TrimSlash(repository) == "s3:" + segment && segment != "" && '/' !in segment ==> OneSegment(repository)
  {
    assert ("s3:" + segment)[3..] == segment;
  }

  /** When two apps of one profile share a backend, and with it a write limit: always, but for S3 repositories
      that the parser rejects. There the directories must be equal up to case, and entirely if the repository is
      "s3:" and one segment. */
  lemma {:induction false} SharedBackendIff(p: Profile, app0: string, app1: string, lib: Library)
    requires Sound(lib)
    ensures BackendKey(ForApp(p, app0, lib), lib) == BackendKey(ForApp(p, app1, lib), lib)
            <==> SharesBackend(p, AppDir(app0, lib), AppDir(app1, lib), lib)
  {
    ForAppKeepsBackend(p, app0, lib);
    ForAppKeepsBackend(p, app1, lib);
    if p.kind.S3? && ParseS3Root(p.repository).None? {
      var dir0, dir1 := AppDir(app0, lib), AppDir(app1, lib);
      AppDirIsSafe(app0, lib);
      AppDirIsSafe(app1, lib);
      RejectedBackendIff(p, dir0, dir1, lib);
    }
  }

  predicate SharesBackend(p: Profile, dir0: string, dir1: string, lib: Library) {
    if p.kind.S3? && ParseS3Root(p.repository).None? then
      if OneSegment(p.repository) then dir0 == dir1 else Lower(dir0, lib) == Lower(dir1, lib)
    else true
  }

  lemma {:induction false} RejectedBackendIff(p: Profile, dir0: string, dir1: string, lib: Library)
    requires Sound(lib) && p.kind.S3? && ParseS3Root(p.repository).None?
    requires dir0 != "" && SafeDir(dir0) && dir1 != "" && SafeDir(dir1)
    ensures var trimmed := TrimSlash(p.repository);
            BackendKey(p.(repository := trimmed + "/" + dir0), lib)
            == BackendKey(p.(repository := trimmed + "/" + dir1), lib)
            <==> SharesBackend(p, dir0, dir1, lib)
  {
    SafeHasNoSlash(dir0);
    SafeHasNoSlash(dir1);
    RejectedWithDir(p.repository, dir0);
    RejectedWithDir(p.repository, dir1);
    RejectedKey(p, dir0, lib);
    RejectedKey(p, dir1, lib);
    if OneSegment(p.repository) {
      SameSuffix("s3" + [NUL] + NormalizeBackendPart(TrimSlash(p.repository)[3..], lib) + [NUL], dir0, dir1);
    } else {
      var head := "s3" + [NUL] + Lower(TrimLeft(TrimSlash(p.repository), Space) + "/", lib);
      SameSuffix(head, Lower(dir0, lib), Lower(dir1, lib));
    }
  }

  lemma {:induction false} RejectedKey(p: Profile, dir: string, lib: Library)
    requires p.kind.S3? && ParseS3Root(p.repository).None? && dir != "" && SafeDir(dir)
    ensures var trimmed := TrimSlash(p.repository);
            BackendKey(p.(repository := trimmed + "/" + dir), lib)
            == if OneSegment(p.repository) then "s3" + [NUL] + NormalizeBackendPart(trimmed[3..], lib) + [NUL] + dir
               else "s3" + [NUL] + Lower(TrimLeft(trimmed, Space) + "/", lib) + Lower(dir, lib)
  {
    hide ParseS3Root, TrimLeft, TrimRight, Join;
    var trimmed := TrimSlash(p.repository);
    SafeHasNoSlash(dir);
    RejectedWithDir(p.repository, dir);
    if OneSegment(p.repository) {
      JoinThree("s3", NormalizeBackendPart(trimmed[3..], lib), dir, [NUL]);
    } else {
      EndsSafely(trimmed + "/", dir);
      NormalOfDir(trimmed, dir, lib);
      JoinTwo("s3", NormalizeBackendPart(trimmed + "/" + dir, lib), [NUL]);
      LowerConcat(TrimLeft(trimmed, Space) + "/", dir, lib);
      assert "s3" + [NUL] + (Lower(TrimLeft(trimmed, Space) + "/", lib) + Lower(dir, lib))
          == "s3" + [NUL] + Lower(TrimLeft(trimmed, Space) + "/", lib) + Lower(dir, lib);
    }
  }

  lemma {:induction false} EndsSafely(s: string, dir: string)
    requires dir != "" && SafeDir(dir)
    ensures TrimSlash(s + dir) == s + dir
  {
    SafeCharStays(dir[|dir| - 1]);
    assert (s + dir)[|s + dir| - 1] == dir[|dir| - 1];
  }

  lemma {:induction false} LowerConcat(a: string, b: string, lib: Library)
    ensures Lower(a + b, lib) == Lower(a, lib) + Lower(b, lib)
  {
  }

  /** A repository given as a URL, such as "s3:http://host/bucket", is one the parser rejects. */
  lemma {:induction false} UrlRejected(scheme: string, rest: string)
    requires '/' !in scheme && rest != "" && rest[|rest| - 1] != '/'
    ensures var repository := "s3:" + scheme + "//" + rest;
            ParseS3Root(repository).None? && !OneSegment(repository)
  {
    var tail := "/" + rest;
    var repository, after := "s3:" + scheme + "//" + rest, scheme + "/" + tail;
    assert repository == S3_PREFIX + after && repository[|S3_PREFIX|..] == after;
    BeforeFirst(scheme, '/', tail);
    assert after[|scheme| + 1..] == tail && Before(tail, '/') == "";
    assert repository[|repository| - 1] == rest[|rest| - 1];
    assert after[|scheme|] == '/';
  }

  /** There apps "A" and "a" share a write limit, although they have different directories. */
  lemma {:induction false} UrlSharesLimit(p: Profile, scheme: string, rest: string, lib: Library)
    requires Sound(lib) && lib.lower('A') == lib.lower('a')
    requires '/' !in scheme && rest != "" && rest[|rest| - 1] != '/'
    requires p.kind.S3? && p.repository == "s3:" + scheme + "//" + rest
    ensures AppDir("A", lib) != AppDir("a", lib)
    ensures BackendKey(ForApp(p, "A", lib), lib) == BackendKey(ForApp(p, "a", lib), lib) != BackendKey(p, lib)
  {
    hide BackendKey, ForApp, AppDir, ParseS3Root, OneSegment;
    UrlRejected(scheme, rest);
    AppDirFixed("A", lib);
    AppDirFixed("a", lib);
    assert "A"[0] != "a"[0];
    assert Lower("A", lib) == Lower("a", lib);
    SharedBackendIff(p, "A", "a", lib);
    ForAppKeepsBackend(p, "A", lib);
  }

  // ---- Backend keys ----

  /** When two profiles write to one backend. */
  ghost predicate SameBackend(p: Profile, q: Profile, lib: Library) {
    match (p.kind, q.kind)
    case (WebDAV, WebDAV) => NormalizeBackendPart(p.url, lib) == NormalizeBackendPart(q.url, lib)
    case (S3, S3) =>
      var x, y := ParseS3Root(p.repository), ParseS3Root(q.repository);
      if x.Some? && y.Some? then
        && NormalizeBackendPart(x.value.endpoint, lib) == NormalizeBackendPart(y.value.endpoint, lib)
        && x.value.bucket == y.value.bucket
      else
        && x.None? && y.None?
        && NormalizeBackendPart(TrimSlash(p.repository), lib) == NormalizeBackendPart(TrimSlash(q.repository), lib)
    case (Other(m), Other(n)) =>
      m == n && NormalizeBackendPart(p.repository, lib) == NormalizeBackendPart(q.repository, lib)
    case _ => false
  }

  ghost predicate NulFree(p: Profile) {
    && NUL !in p.url && NUL !in p.repository
    && (p.kind.Other? ==> NUL !in p.kind.name && p.kind.name != "s3" && p.kind.name != "webdav")
  }

  lemma {:induction false} NormalIsNulFree(s: string, lib: Library)
    requires Sound(lib) && NUL !in s
    ensures NUL !in NormalizeBackendPart(s, lib)
  {
    NulsOfNormal(s, lib);
    assert NUL !in multiset(s);
    assert NUL !in multiset(NormalizeBackendPart(s, lib));
  }

  lemma {:induction false} BackendParts(p: Profile, lib: Library) returns (parts: seq<string>)
    requires Sound(lib) && NulFree(p)
    ensures BackendKey(p, lib) == Join(parts, [NUL]) && Free(parts, NUL) && parts != []
    ensures match p.kind
            case WebDAV => parts == ["webdav", NormalizeBackendPart(p.url, lib)]
            case Other(name) => parts == [name, NormalizeBackendPart(p.repository, lib)]
            case S3 =>
              match ParseS3Root(p.repository)
              case Some(root) => parts == ["s3", NormalizeBackendPart(root.endpoint, lib), root.bucket]
              case None => parts == ["s3", NormalizeBackendPart(TrimSlash(p.repository), lib)]
  {
    hide NormalizeBackendPart, Join, ParseS3Root, TrimRight;
    match p.kind
    case WebDAV =>
      NormalIsNulFree(p.url, lib);
      parts := ["webdav", NormalizeBackendPart(p.url, lib)];
    case Other(name) =>
      NormalIsNulFree(p.repository, lib);
      parts := [name, NormalizeBackendPart(p.repository, lib)];
    case S3 =>
      if ParseS3Root(p.repository).Some? {
        var root := ParseS3Root(p.repository).value;
        RootIsNulFree(p.repository, root);
        NormalIsNulFree(root.endpoint, lib);
        parts := ["s3", NormalizeBackendPart(root.endpoint, lib), root.bucket];
      } else {
        TrimRightCut(p.repository, Slash);
        NormalIsNulFree(TrimSlash(p.repository), lib);
        parts := ["s3", NormalizeBackendPart(TrimSlash(p.repository), lib)];
      }
  }

  lemma {:induction false} RootIsNulFree(repository: string, root: Root)
    requires ParseS3Root(repository) == Some(root) && NUL !in repository
    ensures NUL !in root.endpoint && NUL !in root.bucket
  {
    ParsedUnder(repository);
    var head := Head(root);
    assert head == repository[..|head|];
    assert forall c | c in root.endpoint || c in root.bucket :: c in head;
  }

  /** Backend keys are equal exactly for one backend: one WebDAV server; one S3 endpoint and bucket, or one S3
      repository where the parser finds no root; one repository of any other kind. */
  lemma {:induction false} BackendKeysIff(p: Profile, q: Profile, lib: Library)
    requires Sound(lib) && NulFree(p) && NulFree(q)
    ensures BackendKey(p, lib) == BackendKey(q, lib) <==> SameBackend(p, q, lib)
  {
    hide NormalizeBackendPart, Join, ParseS3Root, TrimRight, BackendKey;
    var x := BackendParts(p, lib);
    var y := BackendParts(q, lib);
    JoinInjective(x, y, NUL);
    assert x == y ==> x[0] == y[0] && x[1] == y[1];
    assert |x| == |y| == 3 && x == y ==> x[2] == y[2];
  }
}
