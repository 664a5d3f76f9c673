/** File-path handling of the Parser constructor: Node's POSIX
    `path.extname` and the filter that keeps the `.css` paths. */
module Paths {

  /** The path without the separators it ends with. */
  function TrimTrailingSlashes(p: string): (r: string)
    ensures r == [] || r[|r| - 1] != '/'
    decreases |p|
  {
    if p != [] && p[|p| - 1] == '/' then TrimTrailingSlashes(p[..|p| - 1]) else p
  }

  /** The part of `s` after its last separator. */
  function LastSegment(s: string): (r: string)
    ensures '/' !in r
    decreases |s|
  {
    if s == [] || s[|s| - 1] == '/' then [] else LastSegment(s[..|s| - 1]) + [s[|s| - 1]]
  }

  /** The last path portion, trailing separators ignored: what `extname` inspects. */
  function Basename(p: string): string
  {
    LastSegment(TrimTrailingSlashes(p))
  }

  /** The index of the last `c` in `s`, or -1. */
  function LastIndexOf(s: string, c: char): (r: int)
    ensures -1 <= r < |s|
    ensures r >= 0 ==> s[r] == c
    ensures forall i :: r < i < |s| ==> s[i] != c
    decreases |s|
  {
    if s == [] then -1
    else if s[|s| - 1] == c then |s| - 1
    else LastIndexOf(s[..|s| - 1], c)
  }

  /** The extension of a last path portion: from its last dot onwards, or
      "" when it has no dot, starts with its only dot (a hidden file such as
      ".css"), or is "..". */
  function Extension(base: string): (r: string)
    ensures r == [] || (r[0] == '.' && '.' !in r[1..])
    ensures r != [] ==> |r| < |base| && r == base[|base| - |r|..]
    ensures r != [] <==> base != ".." && exists i :: 0 < i < |base| && base[i] == '.'
  {
    var dot := LastIndexOf(base, '.');
    if dot <= 0 || base == ".." then "" else base[dot..]
  }

  /** Node's `path.extname` on POSIX paths: a dot and what follows it in the
      last path portion, never reaching back past a separator. */
  function ExtName(p: string): (r: string)
    ensures r == [] || (r[0] == '.' && '.' !in r[1..])
    ensures '/' !in r
  {
    var base := Basename(p);
    var r := Extension(base);
    assert forall i :: 0 <= i < |r| ==> r[i] == base[|base| - |r| + i];
    r
  }

  /** The constructor's test, `path.extname(file)` being exactly ".css": a
      path counts as a stylesheet exactly when its last portion is longer
      than ".css" and ends with ".css" (case matters; ".css" alone is a
      hidden file without extension). */
  predicate IsCssPath(p: string)
    ensures IsCssPath(p) <==> (var b := Basename(p); |b| >= 5 && b[|b| - 4..] == ".css")
  {
    CssExtensionIff(Basename(p));
    ExtName(p) == ".css"
  }

  lemma CssExtensionIff(b: string)
    ensures Extension(b) == ".css" <==> |b| >= 5 && b[|b| - 4..] == ".css"
  {
    if |b| >= 5 && b[|b| - 4..] == ".css" {
      assert b[|b| - 4] == '.';
      assert forall i :: |b| - 4 < i < |b| ==> b[i] == b[|b| - 4..][i - (|b| - 4)];
      assert LastIndexOf(b, '.') == |b| - 4;
    }
  }

  /** The paths of `files` that name stylesheets, in their original order. */
  function CssPaths(files: seq<string>): (r: seq<string>)
    ensures |r| <= |files|
    ensures forall i :: 0 <= i < |r| ==> IsCssPath(r[i])
    decreases |files|
  {
    if files == [] then []
    else
      var last := files[|files| - 1];
      CssPaths(files[..|files| - 1]) + (if IsCssPath(last) then [last] else [])
  }

  /** Exactly the stylesheet paths are kept; the others are dropped. */
  lemma {:induction false} CssPathsMembers(files: seq<string>, p: string)
    ensures p in CssPaths(files) <==> p in files && IsCssPath(p)
    decreases |files|
  {
    if files != [] {
      var init := files[..|files| - 1];
      CssPathsMembers(init, p);
      assert files == init + [files[|files| - 1]];
    }
  }

  /** Filtering commutes with concatenation, so relative order is kept. */
  lemma {:induction false} CssPathsAppend(a: seq<string>, b: seq<string>)
    ensures CssPaths(a + b) == CssPaths(a) + CssPaths(b)
    decreases |b|
  {
    if b == [] {
      assert a + b == a;
      assert CssPaths(a) + CssPaths(b) == CssPaths(a);
    } else {
      var b', last := b[..|b| - 1], b[|b| - 1];
      var keep := if IsCssPath(last) then [last] else [];
      CssPathsAppend(a, b');
      assert (a + b)[..|a + b| - 1] == a + b[..|b| - 1];
      assert (CssPaths(a) + CssPaths(b')) + keep == CssPaths(a) + (CssPaths(b') + keep);
    }
  }
}
