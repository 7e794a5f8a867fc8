/** What the filesystem calls do to a well-formed tree. */
module FileSystemFacts {
  import opened Wrappers
  import opened Paths
  import opened FileSystem

  lemma PrefixOfAppend(a: Location, rest: Location)
    ensures IsPrefix(a, a + rest) && (a + rest)[|a|..] == rest
  {
    assert (a + rest)[..|a|] == a;
  }

  lemma PrefixOfParent(a: Location, q: Location)
    requires q != [] && IsPrefix(a, Parent(q))
    ensures IsPrefix(a, q)
  {
    assert q[..|a|] == Parent(q)[..|a|];
  }

  lemma ParentOfAppend(a: Location, rest: Location)
    requires rest != []
    ensures Parent(a + rest) == a + Parent(rest)
  {
  }

  /** Every prefix of an entry's location is in the tree, and every proper prefix is a directory. */
  lemma {:induction false} Ancestor(t: Tree, q: Location, k: nat)
    requires WellFormed(t) && q in t && k <= |q|
    ensures q[..k] in t
    ensures k < |q| ==> t[q[..k]] == Dir
    decreases |q|
  {
    if k < |q| {
      var up := Parent(q);
      assert up[..k] == q[..k];
      if k < |up| {
        Ancestor(t, up, k);
      } else {
        assert q[..k] == up;
      }
    } else {
      assert q[..k] == q;
    }
  }

  /** Below a location lies something only when the location is a directory with a child on the way. */
  lemma ChildOnTheWay(t: Tree, p: Location, q: Location)
    requires WellFormed(t) && q in t && IsPrefix(p, q) && |q| > |p|
    ensures p in t && t[p] == Dir && q[|p|] in Children(t, p)
  {
    Ancestor(t, q, |p| + 1);
    Ancestor(t, q, |p|);
    assert q[..|p| + 1] == p + [q[|p|]];
  }

  /** Nothing lies below a file or an empty directory. */
  lemma NothingBelow(t: Tree, p: Location, q: Location)
    requires WellFormed(t) && p in t && (t[p].File? || Children(t, p) == {})
    requires q in t && IsPrefix(p, q)
    ensures q == p
  {
    if |q| > |p| {
      ChildOnTheWay(t, p, q);
    }
  }

  /** The locations of a moved tree: what stays, and what arrives below `dst`. */
  lemma MoveTreeKeys(t: Tree, src: Location, dst: Location, q: Location)
    ensures q in MoveTree(t, src, dst) <==>
      (q in t && !IsPrefix(src, q) && !IsPrefix(dst, q)) || (IsPrefix(dst, q) && src + q[|dst|..] in t)
  {
    var moved := set p | p in t && IsPrefix(src, p) :: dst + p[|src|..];
    if IsPrefix(dst, q) && src + q[|dst|..] in t {
      var p := src + q[|dst|..];
      PrefixOfAppend(src, q[|dst|..]);
      assert q == dst + p[|src|..];
      assert q in moved;
    }
    if q in moved {
      var p :| p in t && IsPrefix(src, p) && q == dst + p[|src|..];
      PrefixOfAppend(dst, p[|src|..]);
      assert src + q[|dst|..] == p;
    }
  }

  lemma MoveTreeKept(t: Tree, src: Location, dst: Location, q: Location)
    requires q in t && !IsPrefix(src, q) && !IsPrefix(dst, q)
    ensures q in MoveTree(t, src, dst) && MoveTree(t, src, dst)[q] == t[q]
  {
    MoveTreeKeys(t, src, dst, q);
  }

  lemma MoveTreeMoved(t: Tree, src: Location, dst: Location, rest: Location)
    requires src + rest in t
    ensures dst + rest in MoveTree(t, src, dst) && MoveTree(t, src, dst)[dst + rest] == t[src + rest]
  {
    PrefixOfAppend(dst, rest);
    MoveTreeKeys(t, src, dst, dst + rest);
  }

  /** `os.mkdir` creates exactly `p`, and only where its parent is a directory. */
  lemma MakeDirEffect(t: Tree, p: Location)
    requires WellFormed(t) && AllValid(p)
    ensures var r := MakeDir(t, p);
      && (r.Ok? <==> IsDirAt(t, p) || (p !in t && IsDirAt(t, Parent(p))))
      && (r.Ok? ==> r.value == t[p := Dir] && WellFormed(r.value))
  {
    if MakeDir(t, p).Ok? && p !in t {
      var r := t[p := Dir];
      forall q | q in r && q != [] ensures Parent(q) in r && r[Parent(q)] == Dir {
        if q != p {
          assert Parent(q) in t && t[Parent(q)] == Dir;
        }
      }
    }
  }

  lemma PrefixOfLonger(a: Location, q: Location)
    requires IsPrefix(a, q) && |q| > |a|
    ensures IsPrefix(a, Parent(q))
  {
  }

  lemma PrefixesOfOne(a: Location, b: Location, q: Location)
    requires IsPrefix(a, q) && IsPrefix(b, q) && |a| <= |b|
    ensures IsPrefix(a, b)
  {
    assert b[..|a|] == q[..|a|];
  }

  /** What a successful move of a file does. */
  lemma RenameFileEffect(t: Tree, src: Location, dst: Location)
    requires WellFormed(t) && src != dst
    requires Rename(t, src, dst).Ok? && t[src].File?
    ensures var r := Rename(t, src, dst).value;
      && !IsPrefix(src, dst) && !IsPrefix(dst, src)
      && (forall rest :: src + rest in t ==> dst + rest in r && r[dst + rest] == t[src + rest])
      && (forall q :: q in r && IsPrefix(dst, q) ==> src + q[|dst|..] in t)
      && (forall q :: IsPrefix(src, q) ==> q !in r)
      && (forall q :: !IsPrefix(src, q) && !IsPrefix(dst, q) ==> (q in r <==> q in t) && (q in t ==> r[q] == t[q]))
  {
    var r := Rename(t, src, dst).value;
    assert r == t - {src} + map[dst := t[src]];
    if IsPrefix(src, dst) {
      PrefixOfLonger(src, dst);
      NothingBelow(t, src, Parent(dst));
    }
    if IsPrefix(dst, src) {
      ChildOnTheWay(t, dst, src);
    }
    forall rest | src + rest in t ensures dst + rest in r && r[dst + rest] == t[src + rest] {
      PrefixOfAppend(src, rest);
      NothingBelow(t, src, src + rest);
      assert rest == [];
      assert src + rest == src && dst + rest == dst;
    }
    forall q | q in r && IsPrefix(dst, q) ensures src + q[|dst|..] in t {
      if q != dst {
        ChildOnTheWay(t, dst, q);
      } else {
        assert src + q[|dst|..] == src;
      }
    }
    forall q | IsPrefix(src, q) ensures q !in r {
      if q in t {
        NothingBelow(t, src, q);
      }
    }
  }

  /** What a successful move of a directory does. */
  lemma RenameDirEffect(t: Tree, src: Location, dst: Location)
    requires WellFormed(t) && src != dst
    requires Rename(t, src, dst).Ok? && t[src] == Dir
    ensures var r := Rename(t, src, dst).value;
      && !IsPrefix(src, dst) && !IsPrefix(dst, src)
      && (forall rest :: src + rest in t ==> dst + rest in r && r[dst + rest] == t[src + rest])
      && (forall q :: q in r && IsPrefix(dst, q) ==> src + q[|dst|..] in t)
      && (forall q :: IsPrefix(src, q) ==> q !in r)
      && (forall q :: !IsPrefix(src, q) && !IsPrefix(dst, q) ==> (q in r <==> q in t) && (q in t ==> r[q] == t[q]))
  {
    var r := Rename(t, src, dst).value;
    assert r == MoveTree(t, src, dst);
    if IsPrefix(dst, src) {
      ChildOnTheWay(t, dst, src);
    }
    forall rest | src + rest in t ensures dst + rest in r && r[dst + rest] == t[src + rest] {
      MoveTreeMoved(t, src, dst, rest);
    }
    forall q | q in r && IsPrefix(dst, q) ensures src + q[|dst|..] in t {
      MoveTreeKeys(t, src, dst, q);
    }
    forall q | IsPrefix(src, q) ensures q !in r {
      MoveTreeKeys(t, src, dst, q);
      if IsPrefix(dst, q) {
        if |src| <= |dst| {
          PrefixesOfOne(src, dst, q);
        } else {
          PrefixesOfOne(dst, src, q);
        }
      }
    }
    forall q | !IsPrefix(src, q) && !IsPrefix(dst, q) ensures (q in r <==> q in t) && (q in t ==> r[q] == t[q]) {
      MoveTreeKeys(t, src, dst, q);
    }
  }

  /**
    A successful `os.rename` moves the entry at `src`, with everything below
    it and with its content, to `dst`; nothing is left at or below `src`,
    and every location outside both is untouched.
  */
  lemma RenameMoves(t: Tree, src: Location, dst: Location)
    requires WellFormed(t) && Rename(t, src, dst).Ok?
    ensures var r := Rename(t, src, dst).value;
      && (src == dst ==> r == t)
      && (src != dst ==>
        && !IsPrefix(src, dst) && !IsPrefix(dst, src)
        && (forall rest :: src + rest in t ==> dst + rest in r && r[dst + rest] == t[src + rest])
        && (forall q :: q in r && IsPrefix(dst, q) ==> src + q[|dst|..] in t)
        && (forall q :: IsPrefix(src, q) ==> q !in r)
        && (forall q :: !IsPrefix(src, q) && !IsPrefix(dst, q) ==> (q in r <==> q in t) && (q in t ==> r[q] == t[q])))
  {
    if src != dst {
      if t[src].File? {
        RenameFileEffect(t, src, dst);
      } else {
        RenameDirEffect(t, src, dst);
      }
    }
  }

  /** A file moved onto a free location or onto another file: the content travels, the old name goes, the rest stays. */
  lemma RenameFile(t: Tree, src: Location, dst: Location)
    requires WellFormed(t) && IsFileAt(t, src) && src != dst && dst != []
    requires IsDirAt(t, Parent(dst)) && !IsDirAt(t, dst)
    ensures Rename(t, src, dst) == Ok(t - {src} + map[dst := t[src]])
  {
  }

  /** A directory moved to a free location in an existing directory, outside itself. */
  lemma RenameDir(t: Tree, src: Location, dst: Location)
    requires IsDirAt(t, src) && src != [] && dst != [] && src != dst
    requires IsDirAt(t, Parent(dst)) && dst !in t && !IsPrefix(src, dst)
    ensures Rename(t, src, dst) == Ok(MoveTree(t, src, dst))
  {
  }

  /** Two different names in one directory are not prefixes of each other. */
  lemma SiblingsApart(dir: Location, a: string, b: string)
    requires a != b
    ensures !IsPrefix(dir + [a], dir + [b])
  {
    var x, y := dir + [a], dir + [b];
    assert x[|dir|] == a && y[|dir|] == b;
    assert y[..|x|] == y;
  }

  lemma {:induction false} RenameWellFormed(t: Tree, src: Location, dst: Location)
    requires WellFormed(t) && AllValid(dst) && Rename(t, src, dst).Ok?
    ensures WellFormed(Rename(t, src, dst).value)
  {
    var r := Rename(t, src, dst).value;
    RenameMoves(t, src, dst);
    if src != dst {
      assert !IsPrefix(src, []) && !IsPrefix(dst, []);
      forall q | q in r ensures AllValid(q) && (q != [] ==> Parent(q) in r && r[Parent(q)] == Dir) {
        if IsPrefix(dst, q) {
          var rest := q[|dst|..];
          assert q == dst + rest;
          assert src + rest in t;
          assert AllValid(src + rest);
          assert forall k :: 0 <= k < |rest| ==> (src + rest)[|src| + k] == rest[k];
          if rest != [] {
            ParentOfAppend(src, rest);
            ParentOfAppend(dst, rest);
            assert src + Parent(rest) in t;
          } else {
            assert q == dst;
            if IsPrefix(src, Parent(dst)) {
              PrefixOfParent(src, dst);
            }
          }
        } else {
          assert !IsPrefix(src, q);
          if q != [] {
            if IsPrefix(src, Parent(q)) {
              PrefixOfParent(src, q);
            }
            if IsPrefix(dst, Parent(q)) {
              PrefixOfParent(dst, q);
            }
          }
        }
      }
    }
  }

  /** Some prefix of `p`, `p` included, is a file. */
  predicate FileOnTheWay(t: Tree, p: Location) {
    exists k :: 0 <= k <= |p| && IsFileAt(t, p[..k])
  }

  /**
    For a missing location the lookup raises `NotADirectoryError` exactly
    when a file lies on the way to it, and `FileNotFoundError` otherwise.
  */
  lemma {:induction false} MissingErrorMeaning(t: Tree, p: Location)
    requires WellFormed(t) && p !in t
    ensures MissingError(t, p) == NotADirectory <==> FileOnTheWay(t, p)
    ensures MissingError(t, p) == NotFound <==> !FileOnTheWay(t, p)
    decreases |p|
  {
    var q := Parent(p);
    assert p == q + [p[|p| - 1]] && p[..|p|] == p;
    assert forall k :: 0 <= k <= |q| ==> p[..k] == q[..k];
    if q in t {
      if t[q].File? {
        assert IsFileAt(t, p[..|q|]);
      } else {
        AncestorsAreDirs(t, q);
        assert !IsFileAt(t, p[..|p|]);
      }
    } else {
      MissingErrorMeaning(t, q);
      assert !IsFileAt(t, p[..|p|]);
    }
  }

  /** The proper prefixes of a directory's location are directories. */
  lemma AncestorsAreDirs(t: Tree, p: Location)
    requires WellFormed(t) && IsDirAt(t, p)
    ensures !FileOnTheWay(t, p)
  {
    forall k | 0 <= k <= |p| ensures !IsFileAt(t, p[..k]) {
      Ancestor(t, p, k);
      if k == |p| {
        assert p[..k] == p;
      }
    }
  }

  /** `r` is `t` with directories added at prefixes of `p`, `p` among them. */
  ghost predicate GrownTo(t: Tree, r: Tree, p: Location) {
    && WellFormed(r) && IsDirAt(r, p)
    && (forall q :: q in t ==> q in r && r[q] == t[q])
    && (forall q :: q in r && q !in t ==> IsPrefix(q, p) && r[q] == Dir)
  }

  /**
    `os.makedirs(p, exist_ok=True)` succeeds exactly when no prefix of `p` is
    a file; it then adds directories at the missing prefixes of `p` and
    changes nothing else. Otherwise it raises `FileExistsError` when `p`
    itself is a file and `NotADirectoryError` when an ancestor is.
  */
  lemma {:induction false} MakeDirsEffect(t: Tree, p: Location)
    requires WellFormed(t) && AllValid(p)
    ensures var r := MakeDirs(t, p);
      && (r.Ok? <==> !FileOnTheWay(t, p))
      && (r.Err? ==> r.error == (if IsFileAt(t, p) then FileExists else NotADirectory))
      && (r.Ok? ==> GrownTo(t, r.value, p))
    decreases |p|, 1
  {
    if p != [] && Parent(p) !in t {
      MakeDirsMissingParent(t, p);
    } else {
      MakeDirsParentPresent(t, p);
    }
  }

  lemma MakeDirsParentPresent(t: Tree, p: Location)
    requires WellFormed(t) && AllValid(p)
    requires p == [] || Parent(p) in t
    ensures var r := MakeDirs(t, p);
      && (r.Ok? <==> !FileOnTheWay(t, p))
      && (r.Err? ==> r.error == (if IsFileAt(t, p) then FileExists else NotADirectory))
      && (r.Ok? ==> GrownTo(t, r.value, p))
  {
    assert MakeDirs(t, p) == MakeDir(t, p);
    if p == [] {
      AncestorsAreDirs(t, p);
    } else {
      MakeDirEffect(t, p);
      if p in t && t[p] == Dir {
        AncestorsAreDirs(t, p);
      } else if p !in t {
        if t[Parent(p)] == Dir {
          AncestorsAreDirs(t, Parent(p));
          forall k | 0 <= k <= |p| ensures !IsFileAt(t, p[..k]) {
            if k < |p| {
              assert p[..k] == Parent(p)[..k];
            } else {
              assert p[..k] == p;
            }
          }
        } else {
          assert p[..|p| - 1] == Parent(p);
        }
      } else {
        assert p[..|p|] == p;
      }
    }
  }

  lemma {:induction false} MakeDirsMissingParent(t: Tree, p: Location)
    requires WellFormed(t) && AllValid(p)
    requires p != [] && Parent(p) !in t
    ensures var r := MakeDirs(t, p);
      && (r.Ok? <==> !FileOnTheWay(t, p))
      && (r.Err? ==> r.error == (if IsFileAt(t, p) then FileExists else NotADirectory))
      && (r.Ok? ==> GrownTo(t, r.value, p))
    decreases |p|, 0
  {
    var up := Parent(p);
    assert p !in t;
    MakeDirsEffect(t, up);
    FileOnTheWayOfParent(t, p);
    match MakeDirs(t, up)
    case Err(e) =>
    case Ok(t1) =>
      assert p !in t1;
      MakeDirEffect(t1, p);
      forall q | q in t1[p := Dir] && q !in t ensures IsPrefix(q, p) {
        if q != p {
          assert IsPrefix(q, up);
          PrefixOfParent(q, p);
        }
      }
  }

  lemma FileOnTheWayOfParent(t: Tree, p: Location)
    requires p != [] && p !in t
    ensures FileOnTheWay(t, p) <==> FileOnTheWay(t, Parent(p))
  {
    var up := Parent(p);
    assert forall k :: 0 <= k <= |up| ==> up[..k] == p[..k];
    assert p[..|p|] == p;
    if FileOnTheWay(t, p) {
      var k :| 0 <= k <= |p| && IsFileAt(t, p[..k]);
      assert k <= |up|;
      assert up[..k] == p[..k];
    }
  }

  /** Deleting an entry with nothing below it keeps the tree well formed. */
  lemma DeleteLeaf(t: Tree, p: Location)
    requires WellFormed(t) && p in t && p != [] && (t[p].File? || Children(t, p) == {})
    ensures WellFormed(t - {p})
  {
    forall q | q in t - {p} && q != [] ensures Parent(q) != p {
      if Parent(q) == p {
        PrefixOfParent(p, q);
        NothingBelow(t, p, q);
      }
    }
  }

  /** `os.remove` deletes exactly a file; a directory raises `IsADirectoryError`. */
  lemma RemoveEffect(t: Tree, p: Location)
    requires WellFormed(t)
    ensures var r := Remove(t, p);
      && (r.Ok? <==> IsFileAt(t, p))
      && (r.Ok? ==> r.value == t - {p} && WellFormed(r.value))
      && (r.Err? ==> r.error == if p in t then IsADirectory else MissingError(t, p))
  {
    if IsFileAt(t, p) {
      DeleteLeaf(t, p);
    }
  }

  /** `os.rmdir` deletes exactly an empty directory other than the root. */
  lemma RmdirEffect(t: Tree, p: Location)
    requires WellFormed(t)
    ensures var r := Rmdir(t, p);
      && (r.Ok? <==> IsDirAt(t, p) && p != [] && Children(t, p) == {})
      && (r.Ok? ==> r.value == t - {p} && WellFormed(r.value))
      && (r.Err? ==> r.error == if p !in t then MissingError(t, p)
                                else if t[p].File? then NotADirectory
                                else if p == [] then Busy
                                else DirectoryNotEmpty)
  {
    if Rmdir(t, p).Ok? {
      DeleteLeaf(t, p);
    }
  }
}
