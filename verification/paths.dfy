/**
 * File-name helpers the core calls: `File.basename`, `File.join`, and a lexical
 * model of `Pathname#relative_path_from` over normalised absolute paths.
 * An absolute path is rendered as "/" followed by its segments joined by "/".
 */
module Paths {
  import Text

  // ---------------------------------------------------------------------
  // File.basename and File.join
  // ---------------------------------------------------------------------

  function StripTrailingSlashes(s: string): (r: string)
    ensures |r| <= |s| && r == s[..|r|]
    ensures |r| > 0 ==> r[|r| - 1] != '/'
  {
    if |s| > 0 && s[|s| - 1] == '/' then StripTrailingSlashes(s[..|s| - 1]) else s
  }

  /** The text after the last "/" (all of `s` when it has none). */
  function AfterLastSlash(s: string): (r: string)
    ensures '/' !in r
    ensures |r| <= |s| && r == s[|s| - |r|..]
    ensures |r| < |s| ==> s[|s| - |r| - 1] == '/'
  {
    if |s| == 0 || s[|s| - 1] == '/' then ""
    else AfterLastSlash(s[..|s| - 1]) + [s[|s| - 1]]
  }

  /**
   * `File.basename(s)`: trailing slashes are ignored; a name made only of
   * slashes gives "/", and the empty name gives "".
   */
  function Basename(s: string): (r: string)
    ensures r != "/" ==> '/' !in r
    ensures |s| > 0 ==> |r| > 0
    ensures s != "" && '/' !in s ==> r == s
  {
    var t := StripTrailingSlashes(s);
    assert s != "" && '/' !in s ==> s[|s| - 1] != '/' && t == s;
    if |t| == 0 then (if |s| == 0 then "" else "/") else AfterLastSlash(t)
  }

  /** The basename of "dir/name" is "name" for a non-empty name without "/". */
  lemma BasenameOfChild(dir: string, name: string)
    requires name != "" && '/' !in name
    ensures Basename(dir + "/" + name) == name
  {
    var s := dir + "/" + name;
    assert s[|s| - 1] == name[|name| - 1];
    assert StripTrailingSlashes(s) == s;
    AfterSlashOfChild(dir, name);
  }

  lemma {:induction false} AfterSlashOfChild(dir: string, name: string)
    requires '/' !in name
    ensures AfterLastSlash(dir + "/" + name) == name
    decreases |name|
  {
    var s := dir + "/" + name;
    if name != "" {
      var init := name[..|name| - 1];
      AfterSlashOfChild(dir, init);
      assert s[..|s| - 1] == dir + "/" + init;
      assert s[|s| - 1] == name[|name| - 1];
      assert init + [name[|name| - 1]] == name;
    }
  }

  /**
   * `File.join(a, b)` for two parts: one "/" between them, after dropping one
   * separator on each side of the boundary.
   */
  function FileJoin(a: string, b: string): (r: string)
    ensures |b| > 0 && b[0] != '/' && (|a| == 0 || a[|a| - 1] != '/') ==> r == a + "/" + b
  {
    var left := if |a| > 0 && a[|a| - 1] == '/' then a[..|a| - 1] else a;
    var right := if |b| > 0 && b[0] == '/' then b[1..] else b;
    left + "/" + right
  }

  // ---------------------------------------------------------------------
  // Normalised absolute paths as sequences of segments
  // ---------------------------------------------------------------------

  /** A path segment after cleaning: non-empty, not "." or "..", no "/". */
  predicate IsSegment(x: string)
  {
    x != "" && x != "." && x != ".." && '/' !in x
  }

  predicate AllSegments(p: seq<string>)
  {
    forall i :: 0 <= i < |p| ==> IsSegment(p[i])
  }

  /**
   * A clean absolute path: "/" alone, or "/" followed by segments separated by
   * single slashes, with no "." or ".." segment and no trailing slash.
   */
  predicate IsNormalAbsolute(s: string)
  {
    |s| >= 1 && s[0] == '/' && (s == "/" || AllSegments(Text.Split(s[1..], '/')))
  }

  function Parse(s: string): (p: seq<string>)
    requires IsNormalAbsolute(s)
    ensures AllSegments(p)
  {
    if s == "/" then [] else Text.Split(s[1..], '/')
  }

  function Render(p: seq<string>): string
  {
    "/" + Text.Join(p, '/')
  }

  lemma RenderParse(s: string)
    requires IsNormalAbsolute(s)
    ensures Render(Parse(s)) == s
  {
    if s != "/" {
      Text.JoinSplit(s[1..], '/');
      assert s == "/" + s[1..];
    }
  }

  lemma ParseRender(p: seq<string>)
    requires AllSegments(p)
    ensures IsNormalAbsolute(Render(p)) && Parse(Render(p)) == p
  {
    var s := Render(p);
    assert s[1..] == Text.Join(p, '/');
    if |p| == 0 {
      assert s == "/";
    } else {
      Text.SplitJoin(p, '/');
      assert |Text.Join(p, '/')| >= |p[0]| > 0 by { JoinLength(p); }
      assert s != "/";
    }
  }

  lemma {:induction false} JoinLength(p: seq<string>)
    requires |p| >= 1
    ensures |Text.Join(p, '/')| >= |p[0]|
  {
  }

  // ---------------------------------------------------------------------
  // Relative paths (`Pathname#relative_path_from`) and their resolution
  // ---------------------------------------------------------------------

  /** Number of leading segments two paths share. */
  function CommonPrefixLength(a: seq<string>, b: seq<string>): (k: nat)
    ensures k <= |a| && k <= |b| && a[..k] == b[..k]
    ensures k < |a| && k < |b| ==> a[k] != b[k]
  {
    if |a| == 0 || |b| == 0 || a[0] != b[0] then 0
    else
      var k := 1 + CommonPrefixLength(a[1..], b[1..]);
      assert a[..k] == [a[0]] + a[1..][..k - 1];
      assert b[..k] == [b[0]] + b[1..][..k - 1];
      k
  }

  function Ups(n: nat): (r: seq<string>)
    ensures |r| == n && forall i :: 0 <= i < n ==> r[i] == ".."
  {
    seq(n, _ => "..")
  }

  /** A relative step: a real segment or "..". */
  predicate IsRelativeStep(x: string)
  {
    IsSegment(x) || x == ".."
  }

  /**
   * `target.relative_path_from(base)`: climb out of `base` past the segments
   * the two share, then walk down the rest of `target`.
   */
  function RelativeFrom(target: seq<string>, base: seq<string>): (r: seq<string>)
    requires AllSegments(target)
    ensures forall i :: 0 <= i < |r| ==> IsRelativeStep(r[i])
  {
    var k := CommonPrefixLength(target, base);
    Ups(|base| - k) + target[k..]
  }

  /** Follow relative steps from `base`, lexically: ".." drops a segment. */
  function Resolve(base: seq<string>, rel: seq<string>): seq<string>
    decreases rel
  {
    if rel == [] then base
    else
      var next := if rel[0] == ".." then (if base == [] then [] else base[..|base| - 1])
                  else base + [rel[0]];
      Resolve(next, rel[1..])
  }

  lemma {:induction false} ResolveAppend(base: seq<string>, a: seq<string>, b: seq<string>)
    ensures Resolve(base, a + b) == Resolve(Resolve(base, a), b)
    decreases a
  {
    if a != [] {
      assert (a + b)[0] == a[0] && (a + b)[1..] == a[1..] + b;
      var next := if a[0] == ".." then (if base == [] then [] else base[..|base| - 1])
                  else base + [a[0]];
      ResolveAppend(next, a[1..], b);
    } else {
      assert a + b == b;
    }
  }

  lemma {:induction false} ResolveUps(base: seq<string>, n: nat)
    requires n <= |base|
    ensures Resolve(base, Ups(n)) == base[..|base| - n]
  {
    if n > 0 {
      assert Ups(n)[1..] == Ups(n - 1);
      ResolveUps(base[..|base| - 1], n - 1);
      assert base[..|base| - 1][..|base| - n] == base[..|base| - n];
    }
  }

  lemma {:induction false} ResolveDown(base: seq<string>, rest: seq<string>)
    requires AllSegments(rest)
    ensures Resolve(base, rest) == base + rest
    decreases rest
  {
    if rest != [] {
      ResolveDown(base + [rest[0]], rest[1..]);
      assert base + [rest[0]] + rest[1..] == base + rest;
    }
  }

  /** Resolving the relative path against its base names the target again. */
  lemma ResolveRelativeFrom(target: seq<string>, base: seq<string>)
    requires AllSegments(target)
    ensures Resolve(base, RelativeFrom(target, base)) == target
  {
    var k := CommonPrefixLength(target, base);
    ResolveAppend(base, Ups(|base| - k), target[k..]);
    ResolveUps(base, |base| - k);
    assert AllSegments(target[k..]) by {
      forall i | 0 <= i < |target[k..]| ensures IsSegment(target[k..][i]) {
        assert target[k..][i] == target[k + i];
      }
    }
    ResolveDown(base[..k], target[k..]);
    assert base[..k] + target[k..] == target[..k] + target[k..] == target;
  }

  /** Below an ancestor the relative path only walks down. */
  lemma RelativeFromAncestor(target: seq<string>, base: seq<string>)
    requires AllSegments(target)
    requires |base| <= |target| && target[..|base|] == base
    ensures RelativeFrom(target, base) == target[|base|..]
  {
    assert Ups(0) == [];
  }

  /** `Pathname#to_s` of a relative path: "." when there are no steps. */
  function RelativeString(rel: seq<string>): (r: string)
    ensures rel == [] ==> r == "."
    ensures (forall i :: 0 <= i < |rel| ==> IsRelativeStep(rel[i])) ==> |r| >= 1 && r[0] != '/'
  {
    if rel == [] then "." else Text.Join(rel, '/')
  }

  /** Reads a relative path string back into its steps. */
  function RelativeSteps(u: string): seq<string>
  {
    if u == "." then [] else Text.Split(u, '/')
  }

  lemma RelativeStringSteps(rel: seq<string>)
    requires forall i :: 0 <= i < |rel| ==> IsRelativeStep(rel[i])
    ensures RelativeSteps(RelativeString(rel)) == rel
  {
    if rel != [] {
      Text.SplitJoin(rel, '/');
    }
  }
}
