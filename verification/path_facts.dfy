/** Facts about the path functions that the handle layer depends on. */
module PathFacts {
  import opened Paths

  lemma {:induction false} RFindAppend(x: string, y: string, c: char)
    requires c !in y
    ensures RFind(x + y, c) == RFind(x, c)
  {
    if y != [] {
      assert (x + y)[..|x + y| - 1] == x + y[..|y| - 1];
      RFindAppend(x, y[..|y| - 1], c);
    } else {
      assert x + y == x;
    }
  }

  /** Splitting "a/" gives the pieces of "a" and one empty piece. */
  lemma {:induction false} ComponentsSlash(a: string)
    ensures Components(a + "/") == Components(a) + [[]]
  {
    var p := a + "/";
    assert RFind(p, '/') == |a|;
    assert p[..|a|] == a;
  }

  /** A name appended after a separator (or to nothing) becomes the last segment. */
  lemma {:induction false} SegmentsAppendName(w: string, n: string)
    requires w == [] || w[|w| - 1] == '/'
    requires ValidName(n)
    ensures Segments(w + n) == Segments(w) + [n]
  {
    if w == [] {
      assert w + n == n;
      assert RFind(n, '/') == -1;
      assert Components([]) == [[]];
    } else {
      var a := w[..|w| - 1];
      assert w == a + "/";
      RFindAppend(w, n, '/');
      assert (w + n)[..|w| - 1] == a;
      assert (w + n)[|w|..] == n;
      assert Components(w + n) == Components(a) + [n];
      ComponentsSlash(a);
      assert Components(w) == Components(a) + [[]];
      assert (Components(a) + [n])[..|Components(a)|] == Components(a);
      assert (Components(a) + [[]])[..|Components(a)|] == Components(a);
    }
  }

  /** A trailing separator does not change where a path leads. */
  lemma {:induction false} SegmentsTrailingSlash(a: string)
    ensures Segments(a + "/") == Segments(a)
  {
    ComponentsSlash(a);
    assert (Components(a) + [[]])[..|Components(a)|] == Components(a);
  }

  /** Joining a valid name onto a path descends one level into that name. */
  lemma {:induction false} JoinName(a: string, n: string)
    requires ValidName(n)
    ensures Segments(Join(a, n)) == Segments(a) + [n]
  {
    if a == [] || a[|a| - 1] == '/' {
      assert Join(a, n) == a + n;
      SegmentsAppendName(a, n);
    } else {
      var w := a + "/";
      assert Join(a, n) == w + n;
      assert w[|w| - 1] == '/';
      SegmentsAppendName(w, n);
      SegmentsTrailingSlash(a);
    }
  }

  lemma ComponentsOfEmpty()
    ensures Components([]) == [[]]
  {
    assert RFind([], '/') == -1;
  }

  /** "/" splits into two empty pieces. */
  lemma ComponentsOfRoot()
    ensures Components("/") == [[], []]
  {
    var root: string := "/";
    var e: string := [];
    assert RFind(root, '/') == 0;
    assert Components(root) == Components(root[..0]) + [root[1..]];
    assert root[..0] == e && root[1..] == e;
    ComponentsOfEmpty();
    assert Components(root) == [e] + [e];
  }

  /** Two empty pieces normalise to the root. */
  lemma NormalizeEmpties()
    ensures Normalize([[], []]) == []
  {
    var e: string := [];
    var one: seq<string> := [e];
    var two: seq<string> := [e, e];
    assert one[..0] == [];
    assert Normalize(one) == Step(Normalize([]), e) == [];
    assert two[..1] == one;
    assert Normalize(two) == Step(Normalize(one), e);
  }

  /** The root renders as "/", which leads to the root. */
  lemma RenderRoot()
    ensures Segments(Render([])) == []
  {
    ComponentsOfRoot();
    NormalizeEmpties();
  }

  /** The string a child's name is appended to when rendering: the parent's rendering followed by one separator. */
  function DirPrefix(init: seq<string>): (w: string)
    ensures |w| >= 1 && w[|w| - 1] == '/'
  {
    if init == [] then "/" else Render(init) + "/"
  }

  lemma DirPrefixSegments(init: seq<string>)
    ensures Segments(DirPrefix(init)) == Segments(Render(init))
  {
    if init != [] {
      SegmentsTrailingSlash(Render(init));
    }
  }

  /** A non-root location renders as its parent's prefix followed by its last name. */
  lemma RenderLast(segs: seq<string>)
    requires segs != []
    ensures Render(segs) == DirPrefix(segs[..|segs| - 1]) + segs[|segs| - 1]
  {
  }

  lemma InitLast(segs: seq<string>)
    requires segs != []
    ensures segs[..|segs| - 1] + [segs[|segs| - 1]] == segs
  {
  }

  /** `Render` is a right inverse of `Segments`: the canonical string leads back to the same location. */
  lemma {:induction false} RenderRoundTrip(segs: seq<string>)
    requires AllValid(segs)
    ensures Segments(Render(segs)) == segs
  {
    if segs == [] {
      RenderRoot();
    } else {
      var init, last := segs[..|segs| - 1], segs[|segs| - 1];
      RenderLast(segs);
      SegmentsAppendName(DirPrefix(init), last);
      DirPrefixSegments(init);
      RenderRoundTrip(init);
      InitLast(segs);
    }
  }
}
