/** The keys of the file locks (internal/daemon/lock.go). The name of a lock file is a SHA-256 of
    its key; here a lock file is identified with its key. */
module Keys {
  import opened Text
  import opened Config
  import opened Sources

  function SourceLockKey(profile: string, spec: Spec, source: Source): string {
    if source.kind == "volume" && source.volumeName != "" then "volume" + [NUL] + source.volumeName
    else if source.kind == "bind" && source.hostSource != "" then "bind" + [NUL] + source.hostSource
    else profile + [NUL] + spec.name + [NUL] + source.id
  }

  function RepositoryLockKey(p: Profile): string {
    match p.kind
    case WebDAV => "repo" + [NUL] + "webdav" + [NUL] + TrimSlash(p.url) + [NUL] + Trim(p.path, Slash)
    case _ => "repo" + [NUL] + RepositoryString(p)
  }

  function ContainerLockKey(containerID: string): string {
    "container" + [NUL] + containerID
  }

  /** What a lock stands for. */
  datatype LockId =
    | VolumeLock(volume: string)
    | BindLock(host: string)
    | SourceLock(profile: string, app: string, source: string)
    | RepoLock(repository: string)
    | WebDavLock(url: string, path: string)
    | ContainerLock(container: string)
  {
    predicate IsRepository() { RepoLock? || WebDavLock? }
    predicate IsSource() { VolumeLock? || BindLock? || SourceLock? }
  }

  function LockOfSource(profile: string, spec: Spec, source: Source): (l: LockId)
    ensures l.IsSource()
  {
    if source.kind == "volume" && source.volumeName != "" then VolumeLock(source.volumeName)
    else if source.kind == "bind" && source.hostSource != "" then BindLock(source.hostSource)
    else SourceLock(profile, spec.name, source.id)
  }

  function LockOfRepository(p: Profile): (l: LockId)
    ensures l.IsRepository()
  {
    match p.kind
    case WebDAV => WebDavLock(TrimSlash(p.url), Trim(p.path, Slash))
    case _ => RepoLock(RepositoryString(p))
  }

  function Parts(l: LockId): seq<string> {
    match l
    case VolumeLock(volume) => ["volume", volume]
    case BindLock(host) => ["bind", host]
    case SourceLock(profile, app, source) => [profile, app, source]
    case RepoLock(repository) => ["repo", repository]
    case WebDavLock(url, path) => ["repo", "webdav", url, path]
    case ContainerLock(container) => ["container", container]
  }

  function KeyOf(l: LockId): string {
    Join(Parts(l), [NUL])
  }

  lemma {:induction false} KeysOfLocks(profile: string, spec: Spec, source: Source, p: Profile, containerID: string)
    ensures SourceLockKey(profile, spec, source) == KeyOf(LockOfSource(profile, spec, source))
    ensures RepositoryLockKey(p) == KeyOf(LockOfRepository(p))
    ensures ContainerLockKey(containerID) == KeyOf(ContainerLock(containerID))
  {
    JoinTwo("volume", source.volumeName, [NUL]);
    JoinTwo("bind", source.hostSource, [NUL]);
    JoinThree(profile, spec.name, source.id, [NUL]);
    JoinTwo("repo", RepositoryString(p), [NUL]);
    JoinTwo("container", containerID, [NUL]);
    var url, path := TrimSlash(p.url), Trim(p.path, Slash);
    JoinThree("webdav", url, path, [NUL]);
    assert ["repo", "webdav", url, path][1..] == ["webdav", url, path];
  }

  ghost predicate NulFree(l: LockId) {
    Free(Parts(l), NUL)
  }

  /** Locks of different families, or of different things, never share a key. */
  lemma {:induction false} KeysInjective(a: LockId, b: LockId)
    requires NulFree(a) && NulFree(b)
    ensures KeyOf(a) == KeyOf(b) <==> a == b
  {
    JoinInjective(Parts(a), Parts(b), NUL);
    assert Parts(a) == Parts(b) ==> a == b by {
      var x, y := Parts(a), Parts(b);
      assert |x| == |y| == 2 ==> x[0] == y[0] ==> a.VolumeLock? == b.VolumeLock?;
      assert x[0] != y[0] ==> x != y;
      assert x[1] != y[1] ==> x != y;
    }
  }

  lemma {:induction false} S3LockKey(p: Profile, app: string, lib: Library)
    requires Sound(lib) && p.kind.S3?
    ensures RepositoryLockKey(ForApp(p, app, lib))
            == "repo" + [NUL] + (TrimSlash(p.repository) + "/") + AppDir(app, lib)
  {
  }

  lemma {:induction false} WebDavLockKey(p: Profile, app: string, lib: Library)
    requires Sound(lib) && p.kind.WebDAV?
    ensures RepositoryLockKey(ForApp(p, app, lib))
            == "repo" + [NUL] + "webdav" + [NUL] + TrimSlash(p.url) + [NUL]
               + TrimLeft(TrimSlash(p.path) + "/", Slash) + AppDir(app, lib)
  {
    AppDirIsSafe(app, lib);
    WebDavPath(TrimSlash(p.path), AppDir(app, lib));
  }

  /** Two apps of one profile share the repository lock exactly when they share the directory. */
  lemma {:induction false} SameRepositoryLock(p: Profile, app1: string, app2: string, lib: Library)
    requires Sound(lib) && !p.kind.Other?
    ensures RepositoryLockKey(ForApp(p, app1, lib)) == RepositoryLockKey(ForApp(p, app2, lib))
            <==> AppDir(app1, lib) == AppDir(app2, lib)
  {
    hide RepositoryLockKey, ForApp, AppDir, TrimLeft;
    if p.kind.S3? {
      S3LockKey(p, app1, lib);
      S3LockKey(p, app2, lib);
      SameSuffix("repo" + [NUL] + (TrimSlash(p.repository) + "/"), AppDir(app1, lib), AppDir(app2, lib));
    } else {
      WebDavLockKey(p, app1, lib);
      WebDavLockKey(p, app2, lib);
      var root := TrimLeft(TrimSlash(p.path) + "/", Slash);
      var head := "repo" + [NUL] + "webdav" + [NUL] + TrimSlash(p.url) + [NUL] + root;
      SameSuffix(head, AppDir(app1, lib), AppDir(app2, lib));
    }
  }

  lemma {:induction false} SlashesGo(s: string, dir: string)
    requires dir != "" && SafeDir(dir)
    ensures TrimLeft(s + dir, Slash) == TrimLeft(s, Slash) + dir
    decreases |s|
  {
    SafeCharStays(dir[0]);
    if s == [] {
      assert s + dir == dir;
    } else {
      SlashesGo(s[1..], dir);
      assert (s + dir)[0] == s[0] && (s + dir)[1..] == s[1..] + dir;
    }
  }

  lemma {:induction false} WebDavPath(path: string, dir: string)
    requires dir != "" && SafeDir(dir)
    ensures Trim(path + "/" + dir, Slash) == TrimLeft(path + "/", Slash) + dir
  {
    SlashesGo(path + "/", dir);
    SafeCharStays(dir[|dir| - 1]);
    var left := TrimLeft(path + "/", Slash) + dir;
    assert left[|left| - 1] == dir[|dir| - 1];
  }

  // ---- WebDAV ----

  lemma {:induction false} TrimPastSlash(path: string)
    requires path != [] && path[0] == '/'
    ensures Trim(path, Slash) == Trim(path[1..], Slash)
  {
  }

  /** What restic is given is the remote and the path that the lock is about, but for slashes at the ends. */
  lemma {:induction false} WebDavRepository(p: Profile) returns (path: string)
    requires p.kind.WebDAV?
    ensures RepositoryString(p) == "rclone:" + p.remote + ":" + path
    ensures p.path == path || p.path == "/" + path
    ensures LockOfRepository(p) == WebDavLock(TrimSlash(p.url), Trim(path, Slash))
  {
    if p.path != [] && p.path[0] == '/' {
      path := p.path[1..];
      TrimPastSlash(p.path);
    } else {
      path := p.path;
    }
  }

  /** Two WebDAV profiles whose repository is one to restic have one path in their lock keys. */
  lemma {:induction false} OneRepositoryOneLock(p: Profile, q: Profile)
    requires p.kind.WebDAV? && q.kind.WebDAV? && ':' !in p.remote && ':' !in q.remote
    ensures RepositoryString(p) == RepositoryString(q) ==>
              p.remote == q.remote && LockOfRepository(p).path == LockOfRepository(q).path
    ensures RepositoryString(p) == RepositoryString(q) && TrimSlash(p.url) == TrimSlash(q.url) ==>
              RepositoryLockKey(p) == RepositoryLockKey(q)
  {
    var x := WebDavRepository(p);
    var y := WebDavRepository(q);
    if RepositoryString(p) == RepositoryString(q) {
      var a, b := p.remote + [':'] + x, q.remote + [':'] + y;
      assert RepositoryString(p) == "rclone:" + a && RepositoryString(q) == "rclone:" + b;
      SameSuffix("rclone:", a, b);
      BeforeFirst(p.remote, ':', x);
      BeforeFirst(q.remote, ':', y);
      assert a[|p.remote| + 1..] == x && b[|q.remote| + 1..] == y;
    }
  }

  /** Two WebDAV profiles share a backend, and with it a write limit, exactly if their URLs are one when normalized. */
  lemma {:induction false} WebDavBackendIff(p: Profile, q: Profile, lib: Library)
    requires p.kind.WebDAV? && q.kind.WebDAV?
    ensures BackendKey(p, lib) == BackendKey(q, lib)
       <==> NormalizeBackendPart(p.url, lib) == NormalizeBackendPart(q.url, lib)
  {
    var a, b := NormalizeBackendPart(p.url, lib), NormalizeBackendPart(q.url, lib);
    JoinTwo("webdav", a, [NUL]);
    JoinTwo("webdav", b, [NUL]);
    SameSuffix("webdav" + [NUL], a, b);
  }

  // ---- Restored sources ----

  predicate NamedVolume(source: Source) {
    source.kind == "volume" && source.volumeName != ""
  }

  predicate NamedBind(source: Source) {
    source.kind == "bind" && source.hostSource != ""
  }

  /** Restores of two sources share a lock exactly if the sources are one volume or one host path, whatever their apps
      and profiles; any other source is known by profile, app and id. */
  lemma {:induction false} SameSourceLock(profile1: string, a: Spec, x: Source, profile2: string, b: Spec, y: Source)
    ensures LockOfSource(profile1, a, x) == LockOfSource(profile2, b, y) <==>
              || (NamedVolume(x) && NamedVolume(y) && x.volumeName == y.volumeName)
              || (NamedBind(x) && NamedBind(y) && x.hostSource == y.hostSource)
              || (!NamedVolume(x) && !NamedBind(x) && !NamedVolume(y) && !NamedBind(y)
                  && profile1 == profile2 && a.name == b.name && x.id == y.id)
  {
  }

  /** A source that was resolved from a mount is locked by the mount's volume or host path. */
  lemma {:induction false} LockOfResolved(profile: string, spec: Spec, mounts: seq<Mount>, clean: string -> string,
      path: string, i: nat)
    requires LastAt(mounts, clean, path, i)
    ensures path in MountIndex(mounts, clean)
    ensures var m, lock := mounts[i], LockOfSource(profile, spec, Resolved(path, MountIndex(mounts, clean)));
            && (m.kind == "volume" && m.name != "" ==> lock == VolumeLock(m.name))
            && (m.kind == "bind" && m.source != "" ==> lock == BindLock(m.source))
  {
    IndexHoldsLast(mounts, clean, path);
  }
}
