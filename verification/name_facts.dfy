/** What the name getters compute on the canonical path a handle is built with. */
module NameFacts {
  import opened Wrappers
  import opened Paths
  import opened PathFacts
  import opened Names

  lemma {:induction false} RFindConcat(x: string, y: string, c: char)
    ensures RFind(x + y, c) == if RFind(y, c) >= 0 then |x| + RFind(y, c) else RFind(x, c)
  {
    if y == [] {
      assert x + y == x;
    } else {
      assert (x + y)[..|x + y| - 1] == x + y[..|y| - 1];
      if y[|y| - 1] != c {
        RFindConcat(x, y[..|y| - 1], c);
      }
    }
  }

  lemma HasNonDotShift(w: string, n: string, i: int)
    requires 0 <= i <= |n|
    ensures HasNonDot(w + n, |w|, |w| + i) == HasNonDot(n, 0, i)
  {
    if HasNonDot(n, 0, i) {
      var j :| 0 <= j < i && n[j] != '.';
      assert (w + n)[|w| + j] == n[j];
    }
    if HasNonDot(w + n, |w|, |w| + i) {
      var j :| |w| <= j < |w| + i && (w + n)[j] != '.';
      assert n[j - |w|] == (w + n)[j];
    }
  }

  /** The last component of a path whose parent part ends in a separator is the appended name, for both libraries. */
  lemma ChildComponents(w: string, n: string)
    requires |w| > 0 && w[|w| - 1] == '/'
    requires ValidName(n)
    ensures Basename(w + n) == n
    ensures PathName(w + n) == n
    ensures RFind(w + n, '/') == |w| - 1
  {
    RFindAppend(w, n, '/');
    assert (w + n)[..|w| - 1] == w[..|w| - 1];
    assert (w + n)[|w|..] == n;
    var cs := Components(w + n);
    assert cs == Components(w[..|w| - 1]) + [n];
  }

  lemma StemOfChild(w: string, n: string)
    requires |w| > 0 && w[|w| - 1] == '/'
    requires ValidName(n)
    ensures var i := RFind(n, '.'); BaseName(w + n) == if 0 < i < |n| - 1 then n[..i] else n
  {
    ChildComponents(w, n);
  }

  lemma ExtensionOfChild(w: string, n: string)
    requires |w| > 0 && w[|w| - 1] == '/'
    requires ValidName(n)
    ensures var i := RFind(n, '.');
            Extension(w + n) == if i >= 0 && HasNonDot(n, 0, i) then Some(n[i..]) else None
  {
    var p := w + n;
    ChildComponents(w, n);
    var i := RFind(n, '.');
    RFindConcat(w, n, '.');
    if i >= 0 {
      HasNonDotShift(w, n, i);
      assert RFind(p, '.') == |w| + i;
      assert p[|w| + i..] == n[i..];
    } else {
      assert RFind(w, '.') < |w| - 1;
    }
  }

  lemma SplitAt(s: string, i: int)
    requires 0 <= i <= |s|
    ensures s[..i] + s[i..] == s
  {
  }

  lemma NameWithTrailingDot(w: string, n: string, i: int)
    requires |w| > 0 && w[|w| - 1] == '/' && ValidName(n)
    requires i == RFind(n, '.') && i >= 0 && HasNonDot(n, 0, i) && i == |n| - 1
    ensures Name(w + n) == n + "."
  {
    StemOfChild(w, n);
    ExtensionOfChild(w, n);
    LastDot(n, i);
  }

  lemma LastDot(n: string, i: int)
    requires i == |n| - 1 && i >= 0 && n[i] == '.'
    ensures n[i..] == "."
  {
  }

  lemma NameWithExtension(w: string, n: string, i: int)
    requires |w| > 0 && w[|w| - 1] == '/' && ValidName(n)
    requires i == RFind(n, '.') && i >= 0 && HasNonDot(n, 0, i) && i < |n| - 1
    ensures Name(w + n) == n
  {
    var p := w + n;
    StemOfChild(w, n);
    ExtensionOfChild(w, n);
    var b, e := BaseName(p), Extension(p);
    assert b == n[..i] && e == Some(n[i..]);
    assert Name(p) == b + e.value;
    SplitAt(n, i);
  }

  lemma NameWithoutExtension(w: string, n: string, i: int)
    requires |w| > 0 && w[|w| - 1] == '/' && ValidName(n)
    requires i == RFind(n, '.') && !(i >= 0 && HasNonDot(n, 0, i))
    ensures Name(w + n) == if 0 < i < |n| - 1 then n[..i] else n
  {
    StemOfChild(w, n);
    ExtensionOfChild(w, n);
  }

  /**
    `get_name` of a path `w + n` (`w` ending in a separator): the last name
    itself, except where the stem and `splitext` disagree, and then what
    the glued result is.
  */
  lemma {:induction false} NameOfChild(w: string, n: string)
    requires |w| > 0 && w[|w| - 1] == '/'
    requires ValidName(n)
    ensures Name(w + n) == if StemCutsLeadingDots(n) then n[..RFind(n, '.')]
                           else if SplitTakesTrailingDot(n) then n + "."
                           else n
    ensures Name(w + n) == n <==> !StemCutsLeadingDots(n) && !SplitTakesTrailingDot(n)
  {
    var i := RFind(n, '.');
    if i >= 0 && HasNonDot(n, 0, i) {
      if i == |n| - 1 {
        NameWithTrailingDot(w, n, i);
        assert |n + "."| != |n|;
      } else {
        NameWithExtension(w, n, i);
      }
    } else {
      NameWithoutExtension(w, n, i);
      if 0 < i < |n| - 1 {
        assert |n[..i]| < |n|;
      }
    }
  }

  /** `os.path.dirname` of `w + n` (`w` ending in a separator) is `w` without its trailing separators, unless it is all separators. */
  lemma DirnameOfChild(w: string, n: string)
    requires |w| > 0 && w[|w| - 1] == '/'
    requires ValidName(n)
    ensures Dirname(w + n) == if AllSlashes(w) then w else RStripSlashes(w)
  {
    ChildComponents(w, n);
    PrefixOfConcat(w, n);
  }

  /** `get_parent_file_name` of a canonical path is the rendering of its parent. */
  lemma {:induction false} ParentOfCanonical(segs: seq<string>)
    requires AllValid(segs) && segs != []
    ensures ParentName(Render(segs)) == Render(segs[..|segs| - 1])
  {
    var init, n := segs[..|segs| - 1], segs[|segs| - 1];
    var w := DirPrefix(init);
    RenderLast(segs);
    DirnameOfChild(w, n);
    if init != [] {
      RenderLastChar(init);
      RStripOneSlash(Render(init));
    }
  }

  lemma PrefixOfConcat(w: string, n: string)
    ensures (w + n)[..|w|] == w
  {
  }

  lemma DropLastConcat(w: string, n: string)
    requires w != [] && n != []
    ensures DropLast(w + n, |n|) == w
  {
    assert (w + n)[..|w|] == w;
  }

  lemma RStripOneSlash(s: string)
    requires s != [] && s[|s| - 1] != '/'
    ensures RStripSlashes(s + "/") == s
  {
    assert (s + "/")[..|s|] == s;
  }

  /**
    The prefix that `rename` slices off a canonical path is its parent
    directory followed by a separator exactly when `get_name` is the last
    name; it then leads to the parent.
  */
  lemma {:induction false} RenamePrefixOfCanonical(segs: seq<string>)
    requires AllValid(segs) && segs != []
    requires Name(Render(segs)) == segs[|segs| - 1]
    ensures DropLast(Render(segs), |Name(Render(segs))|) == DirPrefix(segs[..|segs| - 1])
    ensures Segments(DirPrefix(segs[..|segs| - 1])) == segs[..|segs| - 1]
  {
    var init, n := segs[..|segs| - 1], segs[|segs| - 1];
    var w := DirPrefix(init);
    RenderLast(segs);
    DropLastConcat(w, n);
    DirPrefixSegments(init);
    RenderRoundTrip(init);
  }

  lemma RenderLastChar(segs: seq<string>)
    requires AllValid(segs) && segs != []
    ensures var p := Render(segs); p[|p| - 1] != '/' && !AllSlashes(p + "/")
  {
    RenderLast(segs);
    var n := segs[|segs| - 1];
    var p := Render(segs);
    assert n[|n| - 1] != '/';
    assert (p + "/")[|p| - 1] == p[|p| - 1];
  }

  /**
    The docstring examples, for any parent: a name `stem + "." + suffix` whose
    stem does not start with a dot and whose suffix has no dot ("file.ext",
    "a.tar.gz") splits into that stem, that root and that extension.
  */
  lemma {:induction false} OrdinaryName(w: string, stem: string, suffix: string)
    requires |w| > 0 && w[|w| - 1] == '/'
    requires stem != [] && stem[0] != '.' && '/' !in stem
    requires suffix != [] && '.' !in suffix && '/' !in suffix
    ensures var p := w + (stem + ("." + suffix));
            && BaseName(p) == stem
            && Extension(p) == Some("." + suffix)
            && Name(p) == stem + ("." + suffix)
  {
    var n := stem + ("." + suffix);
    OrdinaryPieces(stem, suffix);
    StemOfChild(w, n);
    ExtensionOfChild(w, n);
    NameWithExtension(w, n, |stem|);
  }

  /** The root of such a path is the path up to the last dot. */
  lemma {:induction false} OrdinaryRoot(w: string, stem: string, suffix: string)
    requires |w| > 0 && w[|w| - 1] == '/'
    requires stem != [] && stem[0] != '.' && '/' !in stem
    requires suffix != [] && '.' !in suffix && '/' !in suffix
    ensures Root(w + (stem + ("." + suffix))) == w + stem
  {
    var ext := "." + suffix;
    OrdinaryPieces(stem, suffix);
    ExtensionOfChild(w, stem + ext);
    RootOfOrdinary(w, stem, ext);
  }

  lemma OrdinaryPieces(stem: string, suffix: string)
    requires stem != [] && stem[0] != '.' && '/' !in stem
    requires suffix != [] && '.' !in suffix && '/' !in suffix
    ensures var ext := "." + suffix; var n := stem + ext;
            && RFind(n, '.') == |stem| && HasNonDot(n, 0, |stem|) && ValidName(n)
            && n[..|stem|] == stem && n[|stem|..] == ext
  {
    var ext := "." + suffix;
    var n := stem + ext;
    var d := stem + ".";
    assert n == d + suffix;
    RFindConcat(d, suffix, '.');
    assert RFind(d, '.') == |stem|;
    assert n[0] == stem[0];
    assert n[|stem|..] == ext;
    assert n[..|stem|] == stem;
  }

  lemma RootOfOrdinary(w: string, stem: string, ext: string)
    requires SplitExt(w + (stem + ext)).1 == ext
    ensures Root(w + (stem + ext)) == w + stem
  {
    var p := w + (stem + ext);
    assert p == (w + stem) + ext;
  }

  /** A dot-file such as ".gitignore" has no extension: its name and its stem are the whole last name. */
  lemma {:induction false} DotFileName(w: string, rest: string)
    requires |w| > 0 && w[|w| - 1] == '/'
    requires rest != [] && '.' !in rest && '/' !in rest
    ensures var p := w + "." + rest;
            && BaseName(p) == "." + rest
            && Extension(p) == None
            && Name(p) == "." + rest
  {
    var n := "." + rest;
    assert w + "." + rest == w + n;
    RFindConcat(".", rest, '.');
    assert RFind(n, '.') == 0;
    assert ValidName(n) by { assert n[1..] == rest; }
    NameWithoutExtension(w, n, 0);
    ExtensionOfChild(w, n);
    StemOfChild(w, n);
  }
}
