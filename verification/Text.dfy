/** String helpers with the meaning of the Go `strings` calls the repository uses.
    A string is a sequence of Unicode characters. */
module Text {

  datatype Option<+T> = None | Some(value: T) {
    function GetOr(default: T): T {
      if Some? then value else default
    }
  }

  const NUL: char := '\0'

  /** What the `strings.Trim` calls of the repository cut off: Unicode White_Space, "/" or ".-_". */
  datatype CutSet = Space | Slash | Edge

  predicate Cuts(cut: CutSet, c: char) {
    match cut
    case Space =>
      '\t' <= c <= '\r' || c == ' ' || c == '\U{85}' || c == '\U{a0}' || c == '\U{1680}' ||
      '\U{2000}' <= c <= '\U{200a}' || c == '\U{2028}' || c == '\U{2029}' || c == '\U{202f}' ||
      c == '\U{205f}' || c == '\U{3000}'
    case Slash => c == '/'
    case Edge => c == '.' || c == '-' || c == '_'
  }

  function TrimLeft(s: string, cut: CutSet): string
    decreases |s|
  {
    if s != [] && Cuts(cut, s[0]) then TrimLeft(s[1..], cut) else s
  }

  function TrimRight(s: string, cut: CutSet): string
    decreases |s|
  {
    if s != [] && Cuts(cut, s[|s| - 1]) then TrimRight(s[..|s| - 1], cut) else s
  }

  function Trim(s: string, cut: CutSet): string {
    TrimRight(TrimLeft(s, cut), cut)
  }

  /** TrimLeft drops exactly the longest prefix of cut characters. */
  lemma {:induction false} TrimLeftCut(s: string, cut: CutSet)
    ensures var r := TrimLeft(s, cut);
            && |r| <= |s| && s[|s| - |r|..] == r && (r == [] || !Cuts(cut, r[0]))
            && forall i | 0 <= i < |s| - |r| :: Cuts(cut, s[i])
    decreases |s|
  {
    if s != [] && Cuts(cut, s[0]) {
      TrimLeftCut(s[1..], cut);
    }
  }

  /** TrimRight drops exactly the longest suffix of cut characters. */
  lemma {:induction false} TrimRightCut(s: string, cut: CutSet)
    ensures var r := TrimRight(s, cut);
            && |r| <= |s| && s[..|r|] == r && (r == [] || !Cuts(cut, r[|r| - 1]))
            && forall i | |r| <= i < |s| :: Cuts(cut, s[i])
    decreases |s|
  {
    if s != [] && Cuts(cut, s[|s| - 1]) {
      TrimRightCut(s[..|s| - 1], cut);
    }
  }

  lemma {:induction false} TrimCut(s: string, cut: CutSet)
    ensures var r := Trim(s, cut);
            && |r| <= |s| && (r == [] || (!Cuts(cut, r[0]) && !Cuts(cut, r[|r| - 1])))
            && forall i | 0 <= i < |r| :: r[i] in s
  {
    TrimLeftCut(s, cut);
    TrimRightCut(TrimLeft(s, cut), cut);
  }

  function TrimSpace(s: string): string {
    Trim(s, Space)
  }

  /** `strings.ReplaceAll` for a single character. */
  function Replace(s: string, c: char, replacement: string): string {
    if s == [] then [] else (if s[0] == c then replacement else [s[0]]) + Replace(s[1..], c, replacement)
  }

  /** `strings.Join`. */
  function Join(parts: seq<string>, sep: string): string {
    if parts == [] then []
    else if |parts| == 1 then parts[0]
    else parts[0] + sep + Join(parts[1..], sep)
  }

  lemma {:induction false} JoinTwo(a: string, b: string, sep: string)
    ensures Join([a, b], sep) == a + sep + b
  {
    assert [a, b][1..] == [b];
  }

  lemma {:induction false} JoinThree(a: string, b: string, c: string, sep: string)
    ensures Join([a, b, c], sep) == a + sep + (b + sep + c)
  {
    assert [a, b, c][1..] == [b, c];
    JoinTwo(b, c, sep);
  }

  ghost predicate Free(parts: seq<string>, c: char) {
    forall i | 0 <= i < |parts| :: c !in parts[i]
  }

  /** The part of `s` before its first `c`. */
  function Before(s: string, c: char): string {
    if s == [] || s[0] == c then [] else [s[0]] + Before(s[1..], c)
  }

  lemma {:induction false} BeforeFirst(x: string, c: char, rest: string)
    requires c !in x
    ensures Before(x + [c] + rest, c) == x
  {
    if x != [] {
      BeforeFirst(x[1..], c, rest);
      assert (x + [c] + rest)[1..] == x[1..] + [c] + rest;
    }
  }

  lemma {:induction false} BeforeNone(s: string, c: char)
    requires c !in s
    ensures Before(s, c) == s
  {
    if s != [] {
      BeforeNone(s[1..], c);
    }
  }

  lemma {:induction false} SameSuffix(head: string, a: string, b: string)
    ensures head + a == head + b <==> a == b
  {
    assert a == (head + a)[|head|..] && b == (head + b)[|head|..];
  }

  /** A separator that occurs in no part can be undone: joining is injective. */
  lemma {:induction false} JoinInjective(xs: seq<string>, ys: seq<string>, sep: char)
    requires xs != [] && ys != []
    requires Free(xs, sep) && Free(ys, sep)
    ensures Join(xs, [sep]) == Join(ys, [sep]) <==> xs == ys
  {
    var jx, jy := Join(xs, [sep]), Join(ys, [sep]);
    assert |xs| > 1 ==> jx[|xs[0]|] == sep;
    assert |ys| > 1 ==> jy[|ys[0]|] == sep;
    if jx == jy && |xs| > 1 && |ys| > 1 {
      var tx, ty := Join(xs[1..], [sep]), Join(ys[1..], [sep]);
      BeforeFirst(xs[0], sep, tx);
      BeforeFirst(ys[0], sep, ty);
      assert tx == jx[|xs[0]| + 1..] && ty == jy[|ys[0]| + 1..];
      JoinInjective(xs[1..], ys[1..], sep);
      assert xs == [xs[0]] + xs[1..] && ys == [ys[0]] + ys[1..];
    }
  }

  /** Go's string order: lexicographic by character. */
  predicate StrLe(a: string, b: string) {
    a == [] || (b != [] && (a[0] < b[0] || (a[0] == b[0] && StrLe(a[1..], b[1..]))))
  }

  lemma {:induction false} StrLeTotal(a: string, b: string)
    ensures StrLe(a, b) || StrLe(b, a)
    ensures StrLe(a, b) && StrLe(b, a) ==> a == b
  {
    if a != [] && b != [] {
      StrLeTotal(a[1..], b[1..]);
      if a[0] == b[0] && a[1..] == b[1..] {
        assert a == [a[0]] + a[1..] == b;
      }
    }
  }

  lemma {:induction false} StrLeTransitive(a: string, b: string, c: string)
    requires StrLe(a, b) && StrLe(b, c)
    ensures StrLe(a, c)
  {
    if a != [] && b != [] && c != [] && a[0] == b[0] == c[0] {
      StrLeTransitive(a[1..], b[1..], c[1..]);
    }
  }

  /** The strings are equal up to i; there the first ends or has the smaller character. */
  ghost predicate LeAt(a: string, b: string, i: nat) {
    i <= |a| && i <= |b| && a[..i] == b[..i] && (i == |a| || (i < |b| && a[i] < b[i]))
  }

  lemma {:induction false} StrLeMeans(a: string, b: string)
    ensures StrLe(a, b) <==> exists i: nat :: LeAt(a, b, i)
  {
    if a == [] {
      assert LeAt(a, b, 0);
    } else if b != [] && a[0] == b[0] {
      StrLeMeans(a[1..], b[1..]);
      if i: nat :| LeAt(a[1..], b[1..], i) {
        assert a[..i + 1] == [a[0]] + a[1..][..i] && b[..i + 1] == [b[0]] + b[1..][..i];
        assert LeAt(a, b, i + 1);
      }
      if i: nat :| LeAt(a, b, i) {
        assert i > 0 && a[1..][..i - 1] == a[..i][1..] && b[1..][..i - 1] == b[..i][1..];
        assert LeAt(a[1..], b[1..], i - 1);
      }
    } else if b != [] {
      assert a[0] < b[0] ==> LeAt(a, b, 0);
      assert forall i: nat | LeAt(a, b, i) && i > 0 :: a[0] == a[..i][0] == b[..i][0] == b[0];
    }
  }
}
