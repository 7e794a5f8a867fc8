/**
  `File.update_filename_with_version_num(new_name, v_num)` (core.py): while
  the parent directory of the handle holds a regular file under the proposed
  name, propose `<stem>_<k><ext>` for the next `k`, joined to that parent.
  Stem and extension are the handle's own, not those of `new_name`; a handle
  without an extension makes the concatenation fail with a `TypeError`.
*/
module Versioning {
  import opened Wrappers
  import opened Paths
  import opened PathFacts
  import opened Names
  import opened FileSystem
  import opened Handles
  import NameFacts

  function Pow10(n: nat): (r: nat)
    ensures r >= 1
  {
    if n == 0 then 1 else 10 * Pow10(n - 1)
  }

  /** The decimal digit character for `d`. */
  function DigitChar(d: nat): (c: char)
    requires d < 10
    ensures '0' <= c <= '9'
    ensures c as int - '0' as int == d
  {
    ('0' as int + d) as char
  }

  /** The number a string of decimal digits denotes (`int(s)`). */
  function DigitsValue(s: string): nat
    requires forall i :: 0 <= i < |s| ==> '0' <= s[i] <= '9'
  {
    if s == [] then 0 else 10 * DigitsValue(s[..|s| - 1]) + (s[|s| - 1] as int - '0' as int)
  }

  /** `str(n)` for a natural number: its decimal digits, without leading zeros. */
  function NatToString(n: nat): (s: string)
    ensures s != [] && (forall i :: 0 <= i < |s| ==> '0' <= s[i] <= '9')
    ensures n < 10 <==> |s| == 1
  {
    if n < 10 then [DigitChar(n)] else NatToString(n / 10) + [DigitChar(n % 10)]
  }

  /** `int(str(n)) == n`: the digits written for `n` denote `n`. */
  lemma {:induction false} NatToStringValue(n: nat)
    ensures DigitsValue(NatToString(n)) == n
  {
    if n >= 10 {
      NatToStringValue(n / 10);
      var s := NatToString(n);
      assert s[..|s| - 1] == NatToString(n / 10);
    }
  }

  /** Different numbers are written differently, so different versions get different names. */
  lemma NatToStringInjective(a: nat, b: nat)
    requires NatToString(a) == NatToString(b)
    ensures a == b
  {
    NatToStringValue(a);
    NatToStringValue(b);
  }

  /** `str(k)` for any integer. */
  function IntToString(k: int): (s: string)
    ensures s != [] && '/' !in s && '_' !in s
    ensures |s| >= |NatToString(if k < 0 then -k else k)|
  {
    if k < 0 then "-" + NatToString(-k) else NatToString(k)
  }

  /** A number of at least `10^L` has more than `L` digits. */
  lemma {:induction false} LongDigits(n: nat, L: nat)
    requires n >= Pow10(L)
    ensures |NatToString(n)| > L
  {
    if L > 0 {
      LongDigits(n / 10, L - 1);
    }
  }

  /** The name proposed for version `k`: `get_base_name() + "_" + str(k) + get_extension()`. */
  function VersionName(abspath: string, ext: string, k: int): (n: string)
    requires '/' !in ext
    ensures ValidName(n)
    ensures |n| > |IntToString(k)|
  {
    var stem := BaseName(abspath);
    StemHasNoSlash(abspath);
    var n := stem + "_" + IntToString(k) + ext;
    assert n[|stem|] == '_';
    n
  }

  lemma StemHasNoSlash(abspath: string)
    ensures '/' !in BaseName(abspath)
  {
    var n := PathName(abspath);
    var s := BaseName(abspath);
    assert s == n[..|s|];
    forall i | 0 <= i < |s|
      ensures s[i] != '/'
    {
      assert s[i] == n[i];
    }
  }

  /** The length of the longest segment of a location. */
  ghost function LongestSegment(p: Location): (b: nat)
    ensures forall i :: 0 <= i < |p| ==> |p[i]| <= b
  {
    if p == [] then 0
    else
      var b := LongestSegment(p[..|p| - 1]);
      if |p[|p| - 1]| > b then |p[|p| - 1]| else b
  }

  /** A length no segment of any of `keys` exceeds. */
  ghost function SegmentBound(keys: set<Location>): (b: nat)
    ensures forall p :: p in keys ==> LongestSegment(p) <= b
    decreases keys
  {
    if keys == {} then 0
    else
      var p :| p in keys;
      var b := SegmentBound(keys - {p});
      if LongestSegment(p) > b then LongestSegment(p) else b
  }

  /** Past `10^bound`, a version name is longer than every name in the tree. */
  ghost function Horizon(t: Tree): nat {
    Pow10(SegmentBound(t.Keys))
  }

  /** Checking `join(parent, join(parent, name))` reaches the entry called `name` under the parent as the working directory sees it. */
  lemma CandidateLocated(cwd: Location, parent: string, name: string)
    requires ValidName(name)
    ensures Locate(cwd, Join(parent, Join(parent, name))) == Some(Segments(Join(Render(cwd), Join(parent, parent))) + [name])
  {
    JoinAssoc(parent, parent, name);
    JoinAssoc(Render(cwd), Join(parent, parent), name);
    JoinName(Join(Render(cwd), Join(parent, parent)), name);
  }

  lemma JoinAssoc(x: string, a: string, n: string)
    requires n != [] && n[0] != '/'
    ensures Join(x, Join(a, n)) == Join(Join(x, a), n)
  {
    if a != [] && a[0] == '/' {
      JoinAbsolute(x, a, n);
    } else {
      JoinRelative(x, a, n);
    }
  }

  lemma JoinAbsolute(x: string, a: string, n: string)
    requires a != [] && a[0] == '/'
    ensures Join(x, Join(a, n)) == Join(Join(x, a), n)
  {
    var an := Join(a, n);
    assert an[0] == '/' by {
      if n != [] && n[0] == '/' {
      } else if a[|a| - 1] == '/' {
        assert an == a + n;
      } else {
        assert an == a + "/" + n;
      }
    }
  }

  /** The string `join(x, s)` for a relative `s`: `x`, a separator when needed, then `s`. */
  function Glue(x: string): string {
    if x == [] || x[|x| - 1] == '/' then x else x + "/"
  }

  lemma JoinRelative(x: string, a: string, n: string)
    requires n != [] && n[0] != '/' && (a == [] || a[0] != '/')
    ensures Join(x, Join(a, n)) == Join(Join(x, a), n)
  {
    var g := Glue(x);
    var an := Glue(a) + n;
    JoinGlue(a, n);
    RelativeAppend(a, n);
    JoinGlue(x, an);
    JoinGlue(x, a);
    GlueAppend(g, a);
    JoinGlue(g + a, n);
    ConcatAssoc(g, Glue(a), n);
  }

  lemma ConcatAssoc(p: string, q: string, r: string)
    ensures p + (q + r) == p + q + r
  {
  }

  lemma JoinGlue(a: string, b: string)
    requires b == [] || b[0] != '/'
    ensures Join(a, b) == Glue(a) + b
  {
  }

  lemma RelativeAppend(a: string, n: string)
    requires n != [] && n[0] != '/' && (a == [] || a[0] != '/')
    ensures var s := Glue(a) + n; s != [] && s[0] != '/'
  {
    if a != [] {
      assert (Glue(a) + n)[0] == a[0];
    }
  }

  lemma GlueAppend(g: string, a: string)
    requires g == [] || g[|g| - 1] == '/'
    ensures Glue(g + a) == g + Glue(a)
  {
    if a == [] {
      assert g + a == g;
    } else {
      assert (g + a)[|g + a| - 1] == a[|a| - 1];
    }
  }

  /** A name longer than every segment of the tree names no file. */
  lemma LongNameAbsent(t: Tree, cwd: Location, parent: string, name: string)
    requires ValidName(name) && |name| > SegmentBound(t.Keys)
    ensures !IsFilePath(t, cwd, Join(parent, Join(parent, name)))
  {
    CandidateLocated(cwd, parent, name);
    var loc := Locate(cwd, Join(parent, Join(parent, name))).value;
    assert loc[|loc| - 1] == name;
  }

  /** The version that comes after `v` names no file once `v` has reached the horizon. */
  lemma NextAbsent(t: Tree, cwd: Location, abspath: string, ext: string, v: int)
    requires '/' !in ext
    ensures v >= Horizon(t) ==> !IsFilePath(t, cwd, Join(ParentName(abspath), Join(ParentName(abspath), VersionName(abspath, ext, v + 1))))
  {
    if v >= Horizon(t) {
      LongDigits(v + 1, SegmentBound(t.Keys));
      LongNameAbsent(t, cwd, ParentName(abspath), VersionName(abspath, ext, v + 1));
    }
  }

  /**
    The versioned name: `new_name` itself when the parent holds no file of
    that name, else the result for `join(parent, <stem>_<v+1><ext>)` and
    `v + 1`; a collision without an extension raises `TypeError`.
  */
  function VersionedName(t: Tree, cwd: Location, abspath: string, newName: string, v: int): (r: Result<string, Error>)
    ensures !IsFilePath(t, cwd, Join(ParentName(abspath), newName)) ==> r == Ok(newName)
    ensures IsFilePath(t, cwd, Join(ParentName(abspath), newName)) && Extension(abspath).None? ==> r == Err(TypeError)
    ensures r.Err? ==> r.error == TypeError
    ensures r.Ok? && r.value != newName ==> Extension(abspath).Some?
    decreases if v < Horizon(t) then Horizon(t) - v else 0,
              if IsFilePath(t, cwd, Join(ParentName(abspath), newName)) then 1 else 0
  {
    var parent := ParentName(abspath);
    if !IsFilePath(t, cwd, Join(parent, newName)) then Ok(newName)
    else match Extension(abspath)
      case None => Err(TypeError)
      case Some(ext) =>
        var name := VersionName(abspath, ext, v + 1);
        NextAbsent(t, cwd, abspath, ext, v);
        VersionedName(t, cwd, abspath, Join(parent, name), v + 1)
  }

  /** The path proposed for version `k` of a handle with an extension. */
  function Candidate(abspath: string, k: int): string
    requires Extension(abspath).Some?
  {
    Join(ParentName(abspath), VersionName(abspath, Extension(abspath).value, k))
  }

  /** An absolute handle has an absolute parent, so proposing a candidate again re-checks the same path. */
  lemma CandidateRechecked(abspath: string, k: int)
    requires abspath != [] && abspath[0] == '/' && Extension(abspath).Some?
    ensures Join(ParentName(abspath), Candidate(abspath, k)) == Candidate(abspath, k)
  {
    var parent := ParentName(abspath);
    assert '/' in abspath;
    assert parent != [] && parent[0] == '/';
    var name := VersionName(abspath, Extension(abspath).value, k);
    JoinGlue(parent, name);
    var c := Glue(parent) + name;
    assert c[0] == '/';
    assert Candidate(abspath, k) == c;
    JoinOntoAbsolute(parent, c);
  }

  lemma JoinOntoAbsolute(a: string, b: string)
    requires b != [] && b[0] == '/'
    ensures Join(a, b) == b
  {
  }

  /** On a collision, the call goes on with the candidate for `v + 1`. */
  lemma VersionedStep(t: Tree, cwd: Location, abspath: string, newName: string, v: int)
    requires Extension(abspath).Some?
    requires IsFilePath(t, cwd, Join(ParentName(abspath), newName))
    ensures VersionedName(t, cwd, abspath, newName, v) == VersionedName(t, cwd, abspath, Candidate(abspath, v + 1), v + 1)
  {
  }

  /**
    On a collision the result is the candidate for the first `k` above `v`
    whose path is not a regular file: every candidate between `v` and `k`
    is a file.
  */
  lemma {:induction false} VersionedFirstFree(t: Tree, cwd: Location, abspath: string, newName: string, v: int)
    requires abspath != [] && abspath[0] == '/' && Extension(abspath).Some?
    requires IsFilePath(t, cwd, Join(ParentName(abspath), newName))
    ensures exists k :: (v < k && VersionedName(t, cwd, abspath, newName, v) == Ok(Candidate(abspath, k))
      && !IsFilePath(t, cwd, Candidate(abspath, k))
      && (forall j :: v < j < k ==> IsFilePath(t, cwd, Candidate(abspath, j))))
    decreases if v < Horizon(t) then Horizon(t) - v else 0
  {
    var c := Candidate(abspath, v + 1);
    var ext := Extension(abspath).value;
    CandidateRechecked(abspath, v + 1);
    VersionedStep(t, cwd, abspath, newName, v);
    NextAbsent(t, cwd, abspath, ext, v);
    if !IsFilePath(t, cwd, c) {
      assert VersionedName(t, cwd, abspath, newName, v) == Ok(Candidate(abspath, v + 1));
    } else {
      VersionedFirstFree(t, cwd, abspath, c, v + 1);
      var k :| v + 1 < k && VersionedName(t, cwd, abspath, c, v + 1) == Ok(Candidate(abspath, k))
        && !IsFilePath(t, cwd, Candidate(abspath, k))
        && (forall j :: v + 1 < j < k ==> IsFilePath(t, cwd, Candidate(abspath, j)));
      assert forall j :: v < j < k ==> IsFilePath(t, cwd, Candidate(abspath, j));
    }
  }

  /**
    For an ordinary name `stem.suffix` in an absolute directory `d`
    ("/d/report.pdf"), version `k` is `d/stem_k.suffix` ("/d/report_1.pdf").
  */
  lemma OrdinaryCandidate(d: string, stem: string, suffix: string, k: int)
    requires d != [] && d[0] == '/' && d[|d| - 1] != '/'
    requires stem != [] && stem[0] != '.' && '/' !in stem
    requires suffix != [] && '.' !in suffix && '/' !in suffix
    ensures var p := d + "/" + (stem + ("." + suffix));
            && Extension(p).Some?
            && Candidate(p, k) == d + "/" + (stem + "_" + IntToString(k) + ("." + suffix))
  {
    var w := d + "/";
    var n := stem + ("." + suffix);
    NameFacts.OrdinaryName(w, stem, suffix);
    assert ValidName(n) by { assert n[0] == stem[0]; }
    NameFacts.DirnameOfChild(w, n);
    assert !AllSlashes(w) by { assert w[|d| - 1] != '/'; }
    NameFacts.RStripOneSlash(d);
    var v := stem + "_" + IntToString(k) + ("." + suffix);
    assert v[0] == stem[0];
    JoinGlue(d, v);
  }

  /**
    With `d/stem.suffix` a file, asking for that name again gives
    `d/stem_1.suffix` when that is free, and `d/stem_2.suffix` when only
    version 1 is taken.
  */
  lemma OrdinaryVersions(t: Tree, cwd: Location, d: string, stem: string, suffix: string)
    requires d != [] && d[0] == '/' && d[|d| - 1] != '/'
    requires stem != [] && stem[0] != '.' && '/' !in stem
    requires suffix != [] && '.' !in suffix && '/' !in suffix
    requires IsFilePath(t, cwd, d + "/" + (stem + ("." + suffix)))
    ensures var p := d + "/" + (stem + ("." + suffix));
            var first := d + "/" + (stem + "_" + IntToString(1) + ("." + suffix));
            var second := d + "/" + (stem + "_" + IntToString(2) + ("." + suffix));
            && (!IsFilePath(t, cwd, first) ==> VersionedName(t, cwd, p, stem + ("." + suffix), 0) == Ok(first))
            && (IsFilePath(t, cwd, first) && !IsFilePath(t, cwd, second) ==>
                  VersionedName(t, cwd, p, stem + ("." + suffix), 0) == Ok(second))
  {
    var p := d + "/" + (stem + ("." + suffix));
    var n := stem + ("." + suffix);
    OrdinaryCandidate(d, stem, suffix, 1);
    OrdinaryCandidate(d, stem, suffix, 2);
    NameFacts.OrdinaryName(d + "/", stem, suffix);
    assert n[0] == stem[0];
    NameFacts.DirnameOfChild(d + "/", n);
    assert !AllSlashes(d + "/") by { assert (d + "/")[|d| - 1] != '/'; }
    NameFacts.RStripOneSlash(d);
    JoinGlue(d, n);
    assert Join(ParentName(p), n) == p;
    VersionedStep(t, cwd, p, n, 0);
    CandidateRechecked(p, 1);
    CandidateRechecked(p, 2);
    if IsFilePath(t, cwd, Candidate(p, 1)) {
      VersionedStep(t, cwd, p, Candidate(p, 1), 1);
    }
  }
}
