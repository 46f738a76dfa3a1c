/** Backup specifications and the resolution of declared sources (internal/docker/types.go). */
module Sources {
  import opened Text

  datatype Mount = Mount(kind: string, name: string, source: string, destination: string, readOnly: bool)

  datatype Source = Source(
    id: string, containerPath: string, hostSource: string, volumeName: string, kind: string, readOnly: bool)

  /** `retention` is what Retention.Args returns; `stop` is the label that overrides the global default. */
  datatype Spec = Spec(
    containerID: string, containerName: string, running: bool, name: string, profile: string,
    schedule: string, retention: seq<string>, stop: Option<bool>, excludes: seq<string>,
    sources: seq<Source>)

  function SourceID(containerPath: string): string {
    var id := Replace(Trim(containerPath, Slash), '/', "-");
    if id == "" then "root" else id
  }

  lemma {:induction false} ReplaceRemoves(s: string, c: char, replacement: string)
    requires c !in replacement
    ensures c !in Replace(s, c, replacement)
  {
    if s != [] {
      ReplaceRemoves(s[1..], c, replacement);
    }
  }

  /** A source id is one non-empty path segment. */
  lemma {:induction false} SourceIDSegment(containerPath: string)
    ensures SourceID(containerPath) != "" && '/' !in SourceID(containerPath)
  {
    ReplaceRemoves(Trim(containerPath, Slash), '/', "-");
  }

  lemma {:induction false} ReplaceConcat(a: string, b: string, c: char, replacement: string)
    ensures Replace(a + b, c, replacement) == Replace(a, c, replacement) + Replace(b, c, replacement)
  {
    if a == [] {
      assert a + b == b;
    } else {
      ReplaceConcat(a[1..], b, c, replacement);
      assert (a + b)[0] == a[0] && (a + b)[1..] == a[1..] + b;
      var head := if a[0] == c then replacement else [a[0]];
      var x, y := Replace(a[1..], c, replacement), Replace(b, c, replacement);
      assert head + (x + y) == head + x + y;
    }
  }

  lemma {:induction false} ReplaceNothing(s: string, c: char, replacement: string)
    requires c !in s
    ensures Replace(s, c, replacement) == s
  {
    if s != [] {
      ReplaceNothing(s[1..], c, replacement);
    }
  }

  lemma {:induction false} ReplaceJoined(segments: seq<string>)
    requires Free(segments, '/')
    ensures Replace(Join(segments, "/"), '/', "-") == Join(segments, "-")
  {
    if |segments| == 1 {
      ReplaceNothing(segments[0], '/', "-");
    } else if segments != [] {
      var first, rest := segments[0], Join(segments[1..], "/");
      ReplaceNothing(first, '/', "-");
      ReplaceJoined(segments[1..]);
      ReplaceConcat(first, "/", '/', "-");
      ReplaceConcat(first + "/", rest, '/', "-");
      assert Replace("/", '/', "-") == "-" by {
        assert "/"[1..] == [] && "-" + [] == "-";
      }
    }
  }

  lemma {:induction false} JoinedEnds(segments: seq<string>)
    requires segments != [] && forall i | 0 <= i < |segments| :: segments[i] != ""
    ensures var path := Join(segments, "/");
            path != "" && path[0] == segments[0][0]
            && path[|path| - 1] == segments[|segments| - 1][|segments[|segments| - 1]| - 1]
  {
    if |segments| > 1 {
      JoinedEnds(segments[1..]);
      var path, rest := Join(segments, "/"), Join(segments[1..], "/");
      assert path == segments[0] + "/" + rest;
      assert path[|path| - 1] == rest[|rest| - 1];
    }
  }

  /** The id of an absolute path is its segments, with dashes for slashes: a path of one segment has that for its id. */
  lemma {:induction false} SourceIDJoins(segments: seq<string>)
    requires segments != [] && Free(segments, '/') && forall i | 0 <= i < |segments| :: segments[i] != ""
    ensures SourceID("/" + Join(segments, "/")) == Join(segments, "-")
    ensures |segments| == 1 ==> SourceID("/" + segments[0]) == segments[0]
  {
    var path := Join(segments, "/");
    JoinedEnds(segments);
    assert segments[0][0] in segments[0];
    var last := segments[|segments| - 1];
    assert last[|last| - 1] in last;
    assert ("/" + path)[1..] == path;
    assert path[0] != '/' && path[|path| - 1] != '/';
    assert TrimLeft(path, Slash) == path && TrimRight(path, Slash) == path;
    assert TrimLeft("/" + path, Slash) == TrimLeft(("/" + path)[1..], Slash);
    ReplaceJoined(segments);
    JoinNotEmpty(segments);
  }

  lemma {:induction false} JoinNotEmpty(segments: seq<string>)
    requires segments != [] && segments[0] != ""
    ensures Join(segments, "-") != ""
  {
  }

  /** The mounts by clean destination: of two mounts on one destination, the later one counts. */
  ghost function MountIndex(mounts: seq<Mount>, clean: string -> string): map<string, Mount> {
    if mounts == [] then map[]
    else
      var last := mounts[|mounts| - 1];
      MountIndex(mounts[..|mounts| - 1], clean)[clean(last.destination) := last]
  }

  /** The mount counts, and no later one has its clean destination. */
  ghost predicate LastAt(mounts: seq<Mount>, clean: string -> string, path: string, i: nat) {
    && i < |mounts| && clean(mounts[i].destination) == path
    && forall j | i < j < |mounts| :: clean(mounts[j].destination) != path
  }

  /** The index holds, for every clean destination, the last mount with it. */
  lemma {:induction false} IndexHoldsLast(mounts: seq<Mount>, clean: string -> string, path: string)
    ensures path in MountIndex(mounts, clean) <==> exists i: nat :: LastAt(mounts, clean, path, i)
    ensures forall i: nat | LastAt(mounts, clean, path, i) ::
              path in MountIndex(mounts, clean) && MountIndex(mounts, clean)[path] == mounts[i]
  {
    if mounts != [] {
      var n := |mounts| - 1;
      var rest := mounts[..n];
      IndexHoldsLast(rest, clean, path);
      if clean(mounts[n].destination) == path {
        assert LastAt(mounts, clean, path, n);
      } else {
        assert forall i: nat :: LastAt(mounts, clean, path, i) <==> LastAt(rest, clean, path, i);
      }
    }
  }

  method ByDestination(mounts: seq<Mount>, clean: string -> string) returns (index: map<string, Mount>)
    ensures index == MountIndex(mounts, clean)
    ensures forall path, i: nat | LastAt(mounts, clean, path, i) :: path in index && index[path] == mounts[i]
    ensures forall path | path in index :: exists i: nat :: LastAt(mounts, clean, path, i)
  {
    index := map[];
    for i := 0 to |mounts|
      invariant index == MountIndex(mounts[..i], clean)
    {
      assert mounts[..i + 1][..i] == mounts[..i];
      index := index[clean(mounts[i].destination) := mounts[i]];
    }
    assert mounts[..|mounts|] == mounts;
    forall path
      ensures path in index <==> exists i: nat :: LastAt(mounts, clean, path, i)
      ensures forall i: nat | LastAt(mounts, clean, path, i) :: path in index && index[path] == mounts[i]
    {
      IndexHoldsLast(mounts, clean, path);
    }
  }

  ghost function Ids(paths: seq<string>, clean: string -> string): (ids: seq<string>)
    ensures |ids| == |paths| && forall i | 0 <= i < |ids| :: ids[i] == SourceID(clean(paths[i]))
  {
    seq(|paths|, i requires 0 <= i < |paths| => SourceID(clean(paths[i])))
  }

  ghost predicate Distinct(ids: seq<string>) {
    forall i, j | 0 <= i < j < |ids| :: ids[i] != ids[j]
  }

  ghost predicate Mounted(paths: seq<string>, index: map<string, Mount>, clean: string -> string) {
    forall i | 0 <= i < |paths| :: clean(paths[i]) in index
  }

  ghost function Resolved(path: string, index: map<string, Mount>): Source
    requires path in index
  {
    var mount := index[path];
    Source(SourceID(path), path, mount.source, mount.name, mount.kind, mount.readOnly)
  }

  /** The source is what is mounted at the path. */
  predicate StandsFor(source: Source, path: string, mount: Mount) {
    && source.containerPath == path && source.id == SourceID(path)
    && source.kind == mount.kind && source.volumeName == mount.name && source.hostSource == mount.source
    && source.readOnly == mount.readOnly
  }

  method HasID(sources: seq<Source>, id: string) returns (found: bool)
    ensures found <==> exists j | 0 <= j < |sources| :: sources[j].id == id
  {
    for j := 0 to |sources|
      invariant forall k | 0 <= k < j :: sources[k].id != id
    {
      if sources[j].id == id {
        return true;
      }
    }
    return false;
  }

  /** resolveSources: succeeds exactly when every path is a mount and no two paths get the same id;
      then the sources stand for the paths, in order. `clean` is path.Clean. */
  method ResolveSources(paths: seq<string>, mounts: seq<Mount>, clean: string -> string)
    returns (r: Option<seq<Source>>)
    ensures r.Some? <==> Mounted(paths, MountIndex(mounts, clean), clean) && Distinct(Ids(paths, clean))
    ensures r.Some? ==> |r.value| == |paths|
    ensures r.Some? ==> forall i | 0 <= i < |paths| ::
              r.value[i] == Resolved(clean(paths[i]), MountIndex(mounts, clean))
    ensures r.Some? ==> forall i, m: nat | 0 <= i < |paths| && LastAt(mounts, clean, clean(paths[i]), m) ::
              StandsFor(r.value[i], clean(paths[i]), mounts[m])
  {
    hide SourceID, MountIndex;
    var byDestination := ByDestination(mounts, clean);
    ghost var ids := Ids(paths, clean);
    var sources: seq<Source> := [];
    for i := 0 to |paths|
      invariant |sources| == i
      invariant forall j | 0 <= j < i :: clean(paths[j]) in byDestination
      invariant forall j, k | 0 <= j < k < i :: ids[j] != ids[k]
      invariant forall j | 0 <= j < i :: sources[j].id == ids[j]
      invariant forall j | 0 <= j < i :: sources[j] == Resolved(clean(paths[j]), byDestination)
    {
      var path := clean(paths[i]);
      if path !in byDestination {
        return None;
      }
      var mount := byDestination[path];
      var source := Source(SourceID(path), path, mount.source, mount.name, mount.kind, mount.readOnly);
      var duplicate := HasID(sources, source.id);
      if duplicate {
        return None;
      }
      sources := sources + [source];
    }
    forall i, m: nat | 0 <= i < |paths| && LastAt(mounts, clean, clean(paths[i]), m)
      ensures StandsFor(sources[i], clean(paths[i]), mounts[m])
    {
      IndexHoldsLast(mounts, clean, clean(paths[i]));
    }
    return Some(sources);
  }
}
