/**
  POSIX path-string functions that the file handles rely on: the parts of
  Python's `posixpath` (join, basename, dirname, splitext, normpath) and of
  `pathlib.PurePath` (name, stem) that the handle layer calls, written out on
  strings so that their edge cases are those of the library.

  A resolved location in the filesystem is a list of segments (`[]` is "/");
  `Segments` is the lexical normalisation that `os.path.abspath` performs and
  `Render` turns a segment list back into the canonical absolute string.
*/
module Paths {

  /** Python's `s.rfind(c)`: the last index of `c` in `s`, or -1. */
  function RFind(s: string, c: char): (i: int)
    ensures -1 <= i < |s|
    ensures i >= 0 ==> s[i] == c
    ensures forall j :: i < j < |s| ==> s[j] != c
  {
    if s == [] then -1
    else if s[|s| - 1] == c then |s| - 1
    else RFind(s[..|s| - 1], c)
  }

  /** `os.path.join(a, b)`: an absolute `b` discards `a`; otherwise a separator is added unless `a` is empty or already ends with one. */
  function Join(a: string, b: string): string {
    if |b| > 0 && b[0] == '/' then b
    else if a == [] || a[|a| - 1] == '/' then a + b
    else a + "/" + b
  }

  /** Python's slice `s[:-k]`, including its quirk that `s[:-0]` is empty. */
  function DropLast(s: string, k: nat): (r: string)
    ensures k == 0 || k >= |s| ==> r == []
    ensures 0 < k < |s| ==> |r| == |s| - k && r + s[|s| - k..] == s
  {
    if k == 0 || k >= |s| then [] else s[..|s| - k]
  }

  predicate AllSlashes(s: string) {
    forall i :: 0 <= i < |s| ==> s[i] == '/'
  }

  /** `s.rstrip('/')`. */
  function RStripSlashes(s: string): (r: string)
    ensures |r| <= |s| && r == s[..|r|]
    ensures AllSlashes(s[|r|..])
    ensures r == [] || r[|r| - 1] != '/'
  {
    if s != [] && s[|s| - 1] == '/' then RStripSlashes(s[..|s| - 1]) else s
  }

  /** `os.path.basename(p)`: everything after the last separator. */
  function Basename(p: string): (r: string)
    ensures '/' !in r
    ensures |r| <= |p| && p[|p| - |r|..] == r
    ensures |r| < |p| ==> p[|p| - |r| - 1] == '/'
  {
    p[RFind(p, '/') + 1..]
  }

  /** `os.path.dirname(p)`: everything before the last separator, with trailing separators removed unless nothing else is left. */
  function Dirname(p: string): (r: string)
    ensures |r| <= |p| && r == p[..|r|]
    ensures '/' in p <==> r != []
  {
    var head := p[..RFind(p, '/') + 1];
    if head != [] && !AllSlashes(head) then RStripSlashes(head) else head
  }

  /** Some character of `s[lo..hi]` is not a dot. */
  predicate HasNonDot(s: string, lo: int, hi: int)
    requires 0 <= lo <= hi <= |s|
  {
    exists j :: lo <= j < hi && s[j] != '.'
  }

  /**
    `os.path.splitext(p)`: the extension starts at the last dot of the last
    segment, provided that the segment has a non-dot character before it
    (leading dots do not start an extension).
  */
  function SplitExt(p: string): (r: (string, string))
    ensures r.0 + r.1 == p
    ensures r.1 != [] ==> r.1[0] == '.' && '/' !in r.1 && '.' !in r.1[1..]
  {
    var sepIndex := RFind(p, '/');
    var dotIndex := RFind(p, '.');
    if dotIndex > sepIndex && HasNonDot(p, sepIndex + 1, dotIndex) then (p[..dotIndex], p[dotIndex..])
    else (p, [])
  }

  /** Splits on every separator, keeping empty pieces, like Python's `p.split('/')`. */
  function Components(p: string): (cs: seq<string>)
    ensures |cs| >= 1
    ensures forall k :: 0 <= k < |cs| ==> '/' !in cs[k]
    ensures cs[|cs| - 1] == Basename(p)
  {
    var i := RFind(p, '/');
    if i < 0 then [p] else Components(p[..i]) + [p[i + 1..]]
  }

  /** `pathlib.PurePath(p).name`: the last component that is neither empty nor ".", or "" when there is none. */
  function LastProper(cs: seq<string>): (n: string)
    ensures n == [] || n in cs
    ensures n != "."
  {
    if cs == [] then []
    else if cs[|cs| - 1] != [] && cs[|cs| - 1] != "." then cs[|cs| - 1]
    else LastProper(cs[..|cs| - 1])
  }

  function PathName(p: string): (n: string)
    ensures '/' !in n && n != "."
  {
    LastProper(Components(p))
  }

  /**
    `pathlib.PurePath(p).stem` under the rule of Python 3.12 and 3.13: the name
    up to its last dot when that dot is neither the first nor the last
    character, else the whole name.
  */
  function Stem(p: string): (r: string)
    ensures |r| <= |PathName(p)| && r == PathName(p)[..|r|]
    ensures r == PathName(p) || (0 < |r| < |PathName(p)| - 1 && PathName(p)[|r|] == '.')
  {
    var n := PathName(p);
    var i := RFind(n, '.');
    if 0 < i < |n| - 1 then n[..i] else n
  }

  /** A name that can label a directory entry. */
  predicate ValidName(n: string) {
    n != [] && n != "." && n != ".." && '/' !in n
  }

  predicate AllValid(segs: seq<string>) {
    forall k :: 0 <= k < |segs| ==> ValidName(segs[k])
  }

  /** One step of `os.path.normpath` on an absolute path: skip "" and ".", pop on "..", else push. */
  function Step(acc: seq<string>, c: string): seq<string> {
    if c == [] || c == "." then acc
    else if c == ".." then (if acc == [] then [] else acc[..|acc| - 1])
    else acc + [c]
  }

  function Normalize(cs: seq<string>): (segs: seq<string>)
    requires forall k :: 0 <= k < |cs| ==> '/' !in cs[k]
    ensures AllValid(segs)
    ensures |segs| <= |cs|
  {
    if cs == [] then [] else Step(Normalize(cs[..|cs| - 1]), cs[|cs| - 1])
  }

  /** The segments of `p` read as an absolute path, as `os.path.abspath` normalises it. */
  function Segments(p: string): (segs: seq<string>)
    ensures AllValid(segs)
  {
    Normalize(Components(p))
  }

  /** The canonical absolute string of a segment list. */
  function Render(segs: seq<string>): (p: string)
    ensures |p| >= 1 && p[0] == '/'
  {
    if segs == [] then "/"
    else if |segs| == 1 then "/" + segs[0]
    else Render(segs[..|segs| - 1]) + "/" + segs[|segs| - 1]
  }

  /** The location an OS call reaches with path `p` from working directory `cwd`; the empty path reaches nothing. */
  function Resolve(cwd: string, p: string): (r: seq<string>)
    requires p != []
    ensures AllValid(r)
  {
    Segments(Join(cwd, p))
  }
}
