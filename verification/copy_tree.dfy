/**
  `Directory.copy_tree(source_path, destination_path)` in core.py: a
  top-down `os.walk` of the source in which each visited directory's files
  are moved (`os.replace`) to the same relative place under the
  destination and each of its subdirectories is made there
  (`os.makedirs(..., exist_ok=True)`) before the walk descends into it.
  As in the removal walk, the walk's `root` strings and the relative
  `new_root` are modelled directly as locations.
*/
module CopyTrees {
  import opened Wrappers
  import opened Paths
  import opened FileSystem
  import opened FileSystemFacts
  import opened Handles
  import opened Directories
  import opened Walks
  import PathFacts
  import Versioning

  /** Neither location lies at or below the other. */
  predicate Disjoint(a: Location, b: Location) {
    !IsPrefix(a, b) && !IsPrefix(b, a)
  }

  /** `q` lies strictly below the child of `p` named by one of `names`. */
  predicate Under(p: Location, names: seq<string>, q: Location) {
    Below(p, q) && |q| > |p| + 1 && q[|p|] in names
  }

  /** `q` is the child of `p` named by one of `names`. */
  predicate Child(p: Location, names: seq<string>, q: Location) {
    Below(p, q) && |q| == |p| + 1 && q[|p|] in names
  }

  /** The place under `b` that mirrors `q` under `a`. */
  function Image(a: Location, b: Location, q: Location): Location
    requires IsPrefix(a, q)
  {
    b + q[|a|..]
  }

  /** The errors `copy_tree` lets through. */
  predicate CopyError(e: OsError) {
    e == NotADirectory || e == IsADirectory || e == FileExists
  }

  /**
    What walking source root `a` into destination root `b` achieves: every
    file below `a` is moved to its image below `b` with its content, except
    that the files directly in `a` stay where they are when `b` was not a
    directory (`moveTop` false); every directory below `a` stays and has a
    directory as its image.
  */
  ghost predicate Mirrored(t: Tree, u: Tree, a: Location, b: Location, moveTop: bool) {
    && (forall q :: IsFileAt(t, q) && Below(a, q) ==>
          if moveTop || |q| > |a| + 1 then q !in u && Image(a, b, q) in u && u[Image(a, b, q)] == t[q]
          else q in u && u[q] == t[q])
    && (forall q :: IsDirAt(t, q) && Below(a, q) ==> IsDirAt(u, q) && IsDirAt(u, Image(a, b, q)))
  }

  /** Nothing changes outside the two subtrees, and what appears is below `b` or a directory on the way to it. */
  ghost predicate Frame(t: Tree, u: Tree, a: Location, b: Location) {
    && (forall q :: q in t && !Below(a, q) && !Below(b, q) ==> q in u && u[q] == t[q])
    && (forall q :: q in u && q !in t ==> Below(b, q) || (IsPrefix(q, b) && u[q] == Dir))
  }

  /** The tree after the first `k` files `names` directly in `a` have each been moved to the same name in `b`. */
  function Moves(t: Tree, a: Location, b: Location, names: seq<string>, k: nat): Tree
    requires k <= |names|
    requires forall i :: 0 <= i < |names| ==> IsFileAt(t, a + [names[i]])
  {
    if k == 0 then t
    else
      var n := names[k - 1];
      assert IsFileAt(t, a + [n]);
      Moves(t, a, b, names, k - 1) - {a + [n]} + map[b + [n] := t[a + [n]]]
  }

  lemma {:induction false} MovesAt(t: Tree, a: Location, b: Location, names: seq<string>, k: nat, q: Location)
    requires k <= |names|
    requires forall i :: 0 <= i < |names| ==> IsFileAt(t, a + [names[i]])
    requires a != b
    ensures q in Moves(t, a, b, names, k) <==> (q in t && !Child(a, names[..k], q)) || Child(b, names[..k], q)
    ensures Child(b, names[..k], q) ==> a + [q[|b|]] in t && Moves(t, a, b, names, k)[q] == t[a + [q[|b|]]]
    ensures q in t && !Child(a, names[..k], q) && !Child(b, names[..k], q) ==> Moves(t, a, b, names, k)[q] == t[q]
  {
    if k > 0 {
      var n := names[k - 1];
      MovesAt(t, a, b, names, k - 1, q);
      IsChild(a, n, q);
      IsChild(b, n, q);
      assert names[..k] == names[..k - 1] + [n];
      if Child(b, names[..k], q) {
        var i :| 0 <= i < k && names[i] == q[|b|];
        assert IsFileAt(t, a + [names[i]]);
      }
    }
  }

  /** What the first `k` moves leave: `b` a directory or not, as it was before them. */
  function Target(t: Tree, a: Location, b: Location, names: seq<string>, k: nat): Tree
    requires k <= |names|
    requires forall i :: 0 <= i < |names| ==> IsFileAt(t, a + [names[i]])
  {
    if IsDirAt(t, b) then Moves(t, a, b, names, k) else t
  }

  /**
    `os.replace` into directory `b` fails with the `FileNotFoundError` that
    `copy_tree` swallows: nothing is at `b` and the lookup of `b` meets no
    file on the way.
  */
  predicate Skipped(t: Tree, b: Location) {
    b !in t && MissingError(t, b) == NotFound
  }

  /** A destination is skipped exactly when it is missing and no file lies on the way to it. */
  lemma SkippedMeaning(t: Tree, b: Location)
    requires WellFormed(t)
    ensures Skipped(t, b) <==> b !in t && !FileOnTheWay(t, b)
  {
    if b !in t {
      MissingErrorMeaning(t, b);
    }
  }

  /**
    `for name in files: os.replace(join(root, name), join(destination, new_root, name))`
    in one visited directory `a`, with `b` the place that mirrors it.
  */
  method MoveFiles(disk: Disk, a: Location, b: Location, names: seq<string>) returns (r: Result<(), OsError>)
    requires disk.Valid() && Disjoint(a, b) && AllValid(b)
    requires forall i :: 0 <= i < |names| ==> IsFileAt(disk.tree, a + [names[i]])
    requires forall i, j :: 0 <= i < j < |names| ==> names[i] != names[j]
    modifies disk
    ensures disk.Valid()
    ensures r.Err? ==> CopyError(r.error)
    ensures r.Ok? ==> disk.tree == Target(old(disk.tree), a, b, names, |names|)
    ensures r.Ok? && names != [] ==> IsDirAt(old(disk.tree), b) || Skipped(old(disk.tree), b)
  {
    ghost var t0 := disk.tree;
    r := Ok(());
    var i := 0;
    while i < |names| && r.Ok?
      invariant 0 <= i <= |names|
      invariant disk.Valid()
      invariant r.Ok? ==> disk.tree == Target(t0, a, b, names, i)
      invariant r.Ok? && i > 0 ==> IsDirAt(t0, b) || Skipped(t0, b)
      invariant r.Err? ==> CopyError(r.error)
    {
      r := ReplaceOrSkip(disk, t0, a, b, names, i);
      i := i + 1;
    }
  }

  /**
    One pass of that loop, on the tree the earlier passes left: the
    `os.replace` and its `except FileNotFoundError: pass`.
  */
  method ReplaceOrSkip(disk: Disk, ghost t: Tree, a: Location, b: Location, names: seq<string>, i: nat) returns (r: Result<(), OsError>)
    requires disk.Valid() && WellFormed(t) && Disjoint(a, b) && AllValid(b) && i < |names|
    requires forall j :: 0 <= j < |names| ==> IsFileAt(t, a + [names[j]])
    requires forall j, k :: 0 <= j < k < |names| ==> names[j] != names[k]
    requires disk.tree == Target(t, a, b, names, i)
    modifies disk
    ensures disk.Valid()
    ensures r.Err? ==> CopyError(r.error)
    ensures r.Ok? ==> disk.tree == Target(t, a, b, names, i + 1)
    ensures r.Ok? ==> IsDirAt(t, b) || Skipped(t, b)
  {
    var n := names[i];
    MoveStep(t, disk.tree, a, b, names, i);
    var moved := Rename(disk.tree, a + [n], b + [n]);
    if moved.Ok? {
      disk.tree := moved.value;
    } else if moved.error != NotFound {
      return Err(moved.error);
    }
    r := Ok(());
  }

  /**
    One `os.replace` of the loop, from the tree `cur` the earlier moves
    left: with `b` a directory it moves the file or fails with
    `IsADirectoryError`; otherwise it fails, and only a missing `b` lets
    the walk go on, with nothing changed.
  */
  lemma MoveStep(t: Tree, cur: Tree, a: Location, b: Location, names: seq<string>, i: nat)
    requires WellFormed(t) && WellFormed(cur) && Disjoint(a, b) && AllValid(b)
    requires i < |names|
    requires forall j :: 0 <= j < |names| ==> IsFileAt(t, a + [names[j]])
    requires forall j, k :: 0 <= j < k < |names| ==> names[j] != names[k]
    requires cur == Target(t, a, b, names, i)
    ensures var r := Rename(cur, a + [names[i]], b + [names[i]]);
      && (r.Err? ==> r.error == NotFound || CopyError(r.error))
      && (r.Err? && r.error == NotFound ==> Skipped(t, b))
      && (r.Ok? || r.error == NotFound ==>
            var next := if r.Ok? then r.value else cur;
            WellFormed(next) && next == Target(t, a, b, names, i + 1))
  {
    var n := names[i];
    var src := a + [n];
    var dst := b + [n];
    assert IsFileAt(t, src);
    Ancestor(t, src, |a|);
    assert AllValid(src) && src[|a|] == n;
    IsChild(b, n, dst);
    assert Parent(dst) == b;
    assert src != dst;
    if IsDirAt(t, b) {
      assert n !in names[..i];
      MovesAt(t, a, b, names, i, src);
      MovesAt(t, a, b, names, i, b);
      IsChild(a, n, src);
      Apart(a, b, src);
    }
    if Rename(cur, src, dst).Ok? {
      RenameWellFormed(cur, src, dst);
    }
  }

  /** Two prefixes of one location are prefixes of each other. */
  lemma Comparable(a: Location, b: Location, q: Location)
    requires IsPrefix(a, q)
    ensures IsPrefix(b, q) ==> IsPrefix(a, b) || IsPrefix(b, a)
    ensures IsPrefix(q, b) ==> IsPrefix(a, b)
  {
    if IsPrefix(b, q) {
      if |a| <= |b| {
        PrefixesOfOne(a, b, q);
      } else {
        PrefixesOfOne(b, a, q);
      }
    }
    if IsPrefix(q, b) {
      assert b[..|a|] == q[..|a|];
    }
  }

  /** Entries at or below one of two disjoint locations are neither at or below, nor on the way to, the other. */
  lemma Apart(a: Location, b: Location, q: Location)
    requires Disjoint(a, b) && IsPrefix(a, q)
    ensures !IsPrefix(b, q) && !IsPrefix(q, b)
  {
    Comparable(a, b, q);
  }

  /** Every prefix of a child of `b` is that child or a prefix of `b`. */
  lemma PrefixOfChild(q: Location, b: Location, n: string)
    requires IsPrefix(q, b + [n])
    ensures q == b + [n] || IsPrefix(q, b)
  {
    if |q| <= |b| {
      assert q == (b + [n])[..|q|] == b[..|q|];
    }
  }

  /**
    `u` is `t` after `os.makedirs(b + [d], exist_ok=True)` for the first `k`
    of `names`: nothing of `t` changes, each `b + [d]` is a directory, and
    the directories added are those children of `b` or lie on the way to `b`.
  */
  ghost predicate Grown(t: Tree, u: Tree, b: Location, names: seq<string>, k: nat)
    requires k <= |names|
  {
    && (forall q :: q in t ==> q in u && u[q] == t[q])
    && (forall q :: q in u && q !in t ==> u[q] == Dir && (IsPrefix(q, b) || Child(b, names, q)))
    && (forall i :: 0 <= i < k ==> IsDirAt(u, b + [names[i]]))
  }

  lemma GrownStep(t: Tree, cur: Tree, next: Tree, b: Location, names: seq<string>, k: nat)
    requires k < |names|
    requires Grown(t, cur, b, names, k) && GrownTo(cur, next, b + [names[k]])
    ensures Grown(t, next, b, names, k + 1)
  {
    forall q | q in next && q !in t
      ensures next[q] == Dir && (IsPrefix(q, b) || Child(b, names, q))
    {
      if q !in cur {
        PrefixOfChild(q, b, names[k]);
        IsChild(b, names[k], q);
      }
    }
    forall i | 0 <= i < k + 1
      ensures IsDirAt(next, b + [names[i]])
    {
      if i < k {
        assert IsDirAt(cur, b + [names[i]]);
      }
    }
  }

  /**
    `for name in dirs: os.makedirs(join(destination, new_root, name), exist_ok=True)`:
    the first call that raises ends the walk with its error.
  */
  method MakeMirrors(disk: Disk, b: Location, names: seq<string>) returns (r: Result<(), OsError>)
    requires disk.Valid() && AllValid(b)
    requires forall i :: 0 <= i < |names| ==> ValidName(names[i])
    modifies disk
    ensures disk.Valid()
    ensures r.Err? ==> r.error == FileExists || r.error == NotADirectory
    ensures r.Ok? ==> Grown(old(disk.tree), disk.tree, b, names, |names|)
  {
    ghost var t0 := disk.tree;
    var i := 0;
    while i < |names|
      invariant 0 <= i <= |names|
      invariant disk.Valid()
      invariant Grown(t0, disk.tree, b, names, i)
    {
      var p := b + [names[i]];
      assert AllValid(p);
      MakeDirsEffect(disk.tree, p);
      var made := MakeDirs(disk.tree, p);
      if made.Err? {
        return Err(made.error);
      }
      GrownStep(t0, disk.tree, made.value, b, names, i);
      disk.tree := made.value;
      i := i + 1;
    }
    r := Ok(());
  }

  // The walk into the subdirectories

  /** The mirrored place of a location below a child `a + [d]` is the same seen from `a` or from that child. */
  lemma ImageOfChild(a: Location, b: Location, d: string, q: Location)
    requires Below(a + [d], q)
    ensures IsPrefix(a, q) && Image(a + [d], b + [d], q) == Image(a, b, q)
  {
    BelowChild(a, d, q);
    assert q[|a|..] == [d] + q[|a| + 1..];
  }

  /** The image of a location under the children `names` of `a` lies under the same children of `b`. */
  lemma ImageUnder(a: Location, b: Location, names: seq<string>, q: Location)
    requires Under(a, names, q)
    ensures Under(b, names, Image(a, b, q)) && Image(a, b, q)[|b|] == q[|a|]
  {
    var i := Image(a, b, q);
    assert i[..|b|] == b;
  }

  /** Proof step for `DisjointChildren`: a common last segment does not create a prefix. */
  lemma ChildPrefix(a: Location, b: Location, d: string)
    ensures IsPrefix(a + [d], b + [d]) ==> IsPrefix(a, b)
  {
    if IsPrefix(a + [d], b + [d]) {
      assert a == (b + [d])[..|a|] == b[..|a|];
    }
  }

  lemma DisjointChildren(a: Location, b: Location, d: string)
    requires Disjoint(a, b)
    ensures Disjoint(a + [d], b + [d])
  {
    ChildPrefix(a, b, d);
    ChildPrefix(b, a, d);
  }

  /** Proof step for `Visit`: a name listed in directory `a` of a well-formed tree is a proper name. */
  lemma ListedName(t: Tree, a: Location, d: string)
    requires WellFormed(t) && a + [d] in t
    ensures ValidName(d)
  {
    assert (a + [d])[|a|] == d;
  }

  lemma NotEarlier(names: seq<string>, i: nat)
    requires i < |names|
    requires forall j, k :: 0 <= j < k < |names| ==> names[j] != names[k]
    ensures names[i] !in names[..i]
  {
  }

  /**
    `u` is `t` after the walk has been through the subdirectories `done`
    of `a`, mirroring each into the child of the same name of `b`: the
    files below them are moved, their directories stay and are mirrored,
    everything neither below them nor below their mirrors is unchanged,
    and what is new lies below the mirrors.
  */
  ghost predicate Copied(t: Tree, u: Tree, a: Location, b: Location, done: seq<string>) {
    && (forall q :: IsFileAt(t, q) && Under(a, done, q) ==>
          q !in u && Image(a, b, q) in u && u[Image(a, b, q)] == t[q])
    && (forall q :: IsDirAt(t, q) && Under(a, done, q) ==> IsDirAt(u, q) && IsDirAt(u, Image(a, b, q)))
    && (forall q :: q in t && !Under(a, done, q) && !Under(b, done, q) ==> q in u && u[q] == t[q])
    && (forall q :: q in u && q !in t ==> Under(b, done, q))
  }

  /** Before the walk descends into `a + [d]`, that directory and its mirror are still there, and its subtree is smaller than that of `a`. */
  lemma SubvisitReady(t: Tree, cur: Tree, a: Location, b: Location, done: seq<string>, d: string)
    requires WellFormed(t) && Disjoint(a, b)
    requires IsDirAt(t, a + [d]) && IsDirAt(t, b + [d])
    requires Copied(t, cur, a, b, done)
    ensures IsDirAt(cur, a + [d]) && IsDirAt(cur, b + [d])
    ensures Descendants(cur, a + [d]) < Descendants(t, a)
  {
    PrefixOfAppend(a, [d]);
    PrefixOfAppend(b, [d]);
    Apart(a, b, a + [d]);
    Apart(b, a, b + [d]);
    forall q | q in Descendants(cur, a + [d])
      ensures q in Descendants(t, a)
    {
      BelowChild(a, d, q);
      Apart(a, b, q);
    }
    IsChild(a, d, a + [d]);
    assert a + [d] in Descendants(t, a);
  }

  /** Where a location below `a` or below `b` can be, seen from the child `d` being walked. */
  lemma Sides(a: Location, b: Location, done: seq<string>, d: string, q: Location)
    requires Disjoint(a, b) && d !in done
    ensures Under(a, done + [d], q) <==> Under(a, done, q) || Below(a + [d], q)
    ensures Under(b, done + [d], q) <==> Under(b, done, q) || Below(b + [d], q)
    ensures Under(a, done, q) ==> !Below(a + [d], q) && !Below(b + [d], q) && !IsPrefix(q, b + [d]) && !Below(b, q)
    ensures Under(b, done, q) ==> !Below(a + [d], q) && !Below(b + [d], q) && !Below(a, q)
    ensures Below(a + [d], q) ==> !Under(a, done, q) && !Under(b, done, q) && !Below(b + [d], q)
  {
    BelowChild(a, d, q);
    BelowChild(b, d, q);
    if Below(a, q) {
      Apart(a, b, q);
      if IsPrefix(q, b + [d]) {
        PrefixOfChild(q, b, d);
      }
    }
    if Below(b, q) {
      Apart(b, a, q);
    }
  }

  /** After the walk of `a + [d]` (the mirror already a directory), `d` counts among the subdirectories done. */
  lemma CopiedStep(t: Tree, cur: Tree, next: Tree, a: Location, b: Location, done: seq<string>, d: string)
    requires WellFormed(cur) && Disjoint(a, b) && d !in done && b + [d] in cur
    requires Copied(t, cur, a, b, done)
    requires Mirrored(cur, next, a + [d], b + [d], true) && Frame(cur, next, a + [d], b + [d])
    ensures Copied(t, next, a, b, done + [d])
  {
    var done' := done + [d];
    forall q | IsFileAt(t, q) && Under(a, done', q)
      ensures q !in next && Image(a, b, q) in next && next[Image(a, b, q)] == t[q]
    {
      Sides(a, b, done, d, q);
      if Under(a, done, q) {
        ImageUnder(a, b, done, q);
        Sides(a, b, done, d, Image(a, b, q));
      } else {
        ImageOfChild(a, b, d, q);
      }
    }
    forall q | IsDirAt(t, q) && Under(a, done', q)
      ensures IsDirAt(next, q) && IsDirAt(next, Image(a, b, q))
    {
      Sides(a, b, done, d, q);
      if Under(a, done, q) {
        ImageUnder(a, b, done, q);
        Sides(a, b, done, d, Image(a, b, q));
      } else {
        ImageOfChild(a, b, d, q);
      }
    }
    forall q | q in t && !Under(a, done', q) && !Under(b, done', q)
      ensures q in next && next[q] == t[q]
    {
      Sides(a, b, done, d, q);
    }
    forall q | q in next && q !in t
      ensures Under(b, done', q)
    {
      Sides(a, b, done, d, q);
      if q !in cur && IsPrefix(q, b + [d]) {
        Ancestor(cur, b + [d], |q|);
      }
    }
  }

  // One visit, stage by stage

  /**
    `u` is `t` after the visit of `a` has moved the files `files` directly
    in `a` (only when `moveTop`) and made the mirrors of its
    subdirectories `dirs`: a moved file is gone and its image holds its
    content, what the moves do not touch is unchanged, and what is new
    lies below `b` or is a directory on the way to it.
  */
  ghost predicate Prepared(t: Tree, u: Tree, a: Location, b: Location, moveTop: bool, files: seq<string>, dirs: seq<string>) {
    && (forall q :: q in t && !(moveTop && (Child(a, files, q) || Child(b, files, q))) ==> q in u && u[q] == t[q])
    && (forall q :: q in t && moveTop && Child(a, files, q) ==>
          q !in u && Image(a, b, q) in u && u[Image(a, b, q)] == t[q])
    && (forall q :: q in u && q !in t ==> Below(b, q) || (IsPrefix(q, b) && u[q] == Dir))
    && (forall d :: d in dirs ==> IsDirAt(u, b + [d]))
  }

  lemma PreparedStages(t0: Tree, t1: Tree, t2: Tree, a: Location, b: Location, files: seq<string>, dirs: seq<string>)
    requires Disjoint(a, b)
    requires forall i :: 0 <= i < |files| ==> IsFileAt(t0, a + [files[i]])
    requires t1 == Target(t0, a, b, files, |files|)
    requires Grown(t1, t2, b, dirs, |dirs|)
    ensures Prepared(t0, t2, a, b, IsDirAt(t0, b), files, dirs)
  {
    assert files[..|files|] == files;
    var moveTop := IsDirAt(t0, b);
    forall q | q in t0 && !(moveTop && (Child(a, files, q) || Child(b, files, q)))
      ensures q in t2 && t2[q] == t0[q]
    {
      if moveTop {
        MovesAt(t0, a, b, files, |files|, q);
      }
    }
    forall q | q in t0 && moveTop && Child(a, files, q)
      ensures q !in t2 && Image(a, b, q) in t2 && t2[Image(a, b, q)] == t0[q]
    {
      var n := q[|a|];
      var i := Image(a, b, q);
      MovesAt(t0, a, b, files, |files|, q);
      IsChild(a, n, q);
      assert i == b + [n];
      IsChild(b, n, i);
      MovesAt(t0, a, b, files, |files|, i);
      Apart(a, b, q);
    }
    forall q | q in t2 && q !in t0
      ensures Below(b, q) || (IsPrefix(q, b) && t2[q] == Dir)
    {
      if moveTop {
        MovesAt(t0, a, b, files, |files|, q);
      }
    }
    forall d | d in dirs
      ensures IsDirAt(t2, b + [d])
    {
      var i :| 0 <= i < |dirs| && dirs[i] == d;
    }
  }

  /** Nothing new appears below `a` before the walk descends, and the subdirectories and their mirrors are directories. */
  lemma PreparedSubdirs(t0: Tree, t2: Tree, a: Location, b: Location, files: seq<string>, dirs: seq<string>)
    requires WellFormed(t0) && Disjoint(a, b)
    requires IsListing(files, FileNames(t0, a)) && IsListing(dirs, SubdirNames(t0, a))
    requires Prepared(t0, t2, a, b, IsDirAt(t0, b), files, dirs)
    ensures Descendants(t2, a) <= Descendants(t0, a)
    ensures forall i :: 0 <= i < |dirs| ==> IsDirAt(t2, a + [dirs[i]]) && IsDirAt(t2, b + [dirs[i]])
  {
    forall q | q in Descendants(t2, a)
      ensures q in Descendants(t0, a)
    {
      Apart(a, b, q);
    }
    forall i | 0 <= i < |dirs|
      ensures IsDirAt(t2, a + [dirs[i]]) && IsDirAt(t2, b + [dirs[i]])
    {
      var q := a + [dirs[i]];
      assert dirs[i] in SubdirNames(t0, a);
      assert dirs[i] !in files;
      IsChild(a, dirs[i], q);
      Apart(a, b, q);
    }
  }

  /** A location two or more levels below `a` lies under one of the listed subdirectories. */
  lemma DeepUnder(t0: Tree, a: Location, dirs: seq<string>, q: Location)
    requires WellFormed(t0) && q in t0 && Below(a, q) && |q| > |a| + 1
    requires IsListing(dirs, SubdirNames(t0, a))
    ensures Under(a, dirs, q)
  {
    var n := q[|a|];
    Ancestor(t0, q, |a| + 1);
    assert q[..|a| + 1] == a + [n];
    assert n in SubdirNames(t0, a);
  }

  /** A file below `a` ends at its image (or, directly in `a` with `b` not a directory, where it was). */
  lemma ComposedFile(t0: Tree, t2: Tree, t3: Tree, a: Location, b: Location, files: seq<string>, dirs: seq<string>, q: Location)
    requires WellFormed(t0) && Disjoint(a, b)
    requires IsListing(files, FileNames(t0, a)) && IsListing(dirs, SubdirNames(t0, a))
    requires Prepared(t0, t2, a, b, IsDirAt(t0, b), files, dirs) && Copied(t2, t3, a, b, dirs)
    requires IsFileAt(t0, q) && Below(a, q)
    ensures if IsDirAt(t0, b) || |q| > |a| + 1 then q !in t3 && Image(a, b, q) in t3 && t3[Image(a, b, q)] == t0[q]
      else q in t3 && t3[q] == t0[q]
  {
    Apart(a, b, q);
    assert !Below(b, q) && !Under(b, dirs, q);
    if |q| == |a| + 1 {
      var n := q[|a|];
      IsChild(a, n, q);
      assert n in FileNames(t0, a);
      assert Child(a, files, q) && !Under(a, dirs, q);
      if IsDirAt(t0, b) {
        TopImageKept(t2, t3, a, b, dirs, q);
      }
    } else {
      DeepUnder(t0, a, dirs, q);
      assert !Child(a, files, q) && !Child(b, files, q);
      assert IsFileAt(t2, q) && t2[q] == t0[q];
    }
  }

  /** An entry the visit itself puts directly in `b` is left alone by the walks below it. */
  lemma TopImageKept(t2: Tree, t3: Tree, a: Location, b: Location, dirs: seq<string>, q: Location)
    requires Disjoint(a, b) && Copied(t2, t3, a, b, dirs)
    requires Below(a, q) && |q| == |a| + 1 && Image(a, b, q) in t2
    ensures Image(a, b, q) in t3 && t3[Image(a, b, q)] == t2[Image(a, b, q)]
  {
    var i := Image(a, b, q);
    assert |i| == |b| + 1 && i[..|b|] == b;
    Apart(b, a, i);
    assert !Under(a, dirs, i) && !Under(b, dirs, i);
  }

  /** A directory below `a` stays, and its image is a directory. */
  lemma ComposedDir(t0: Tree, t2: Tree, t3: Tree, a: Location, b: Location, files: seq<string>, dirs: seq<string>, q: Location)
    requires WellFormed(t0) && Disjoint(a, b)
    requires IsListing(files, FileNames(t0, a)) && IsListing(dirs, SubdirNames(t0, a))
    requires Prepared(t0, t2, a, b, IsDirAt(t0, b), files, dirs) && Copied(t2, t3, a, b, dirs)
    requires IsDirAt(t0, q) && Below(a, q)
    ensures IsDirAt(t3, q) && IsDirAt(t3, Image(a, b, q))
  {
    Apart(a, b, q);
    var n := q[|a|];
    IsChild(a, n, q);
    assert !Below(b, q) && !Child(b, files, q);
    if |q| == |a| + 1 {
      assert n in SubdirNames(t0, a) && n !in files;
      assert !Child(a, files, q) && !Under(a, dirs, q) && !Under(b, dirs, q);
      assert IsDirAt(t2, q);
      var i := Image(a, b, q);
      assert i == b + [n];
      assert IsDirAt(t2, i);
      TopImageKept(t2, t3, a, b, dirs, q);
    } else {
      DeepUnder(t0, a, dirs, q);
      assert !Child(a, files, q);
      assert IsDirAt(t2, q);
    }
  }

  /** What a visit leaves alone and what it adds. */
  lemma ComposedFrame(t0: Tree, t2: Tree, t3: Tree, a: Location, b: Location, files: seq<string>, dirs: seq<string>)
    requires Disjoint(a, b)
    requires Prepared(t0, t2, a, b, IsDirAt(t0, b), files, dirs) && Copied(t2, t3, a, b, dirs)
    ensures Frame(t0, t3, a, b)
  {
    forall q | q in t3 && q !in t0
      ensures Below(b, q) || (IsPrefix(q, b) && t3[q] == Dir)
    {
      if Below(a, q) {
        Comparable(a, b, q);
      }
    }
  }

  /** The three stages of a visit add up to a mirrored subtree and an unchanged rest. */
  lemma Composed(t0: Tree, t2: Tree, t3: Tree, a: Location, b: Location, files: seq<string>, dirs: seq<string>)
    requires WellFormed(t0) && Disjoint(a, b)
    requires IsListing(files, FileNames(t0, a)) && IsListing(dirs, SubdirNames(t0, a))
    requires Prepared(t0, t2, a, b, IsDirAt(t0, b), files, dirs) && Copied(t2, t3, a, b, dirs)
    ensures Mirrored(t0, t3, a, b, IsDirAt(t0, b)) && Frame(t0, t3, a, b)
  {
    forall q | IsFileAt(t0, q) && Below(a, q)
      ensures if IsDirAt(t0, b) || |q| > |a| + 1 then q !in t3 && Image(a, b, q) in t3 && t3[Image(a, b, q)] == t0[q]
        else q in t3 && t3[q] == t0[q]
    {
      ComposedFile(t0, t2, t3, a, b, files, dirs, q);
    }
    forall q | IsDirAt(t0, q) && Below(a, q)
      ensures IsDirAt(t3, q) && IsDirAt(t3, Image(a, b, q))
    {
      ComposedDir(t0, t2, t3, a, b, files, dirs, q);
    }
    ComposedFrame(t0, t2, t3, a, b, files, dirs);
  }

  // The walk

  /**
    The visit of `a` by the top-down walk, with `b` the place that mirrors
    it: `os.walk` lists `a`, the loop body moves its files and makes the
    mirrors of its subdirectories, then the walk descends into each
    subdirectory. Ending without an error, every file below `a` has been
    moved to its image (those directly in `a` only when `b` was a
    directory), every directory below `a` is still there and mirrored, and
    nothing outside the two subtrees has changed.
  */
  method Visit(disk: Disk, a: Location, b: Location) returns (r: Result<(), OsError>)
    requires disk.Valid() && IsDirAt(disk.tree, a) && Disjoint(a, b) && AllValid(b)
    modifies disk
    ensures disk.Valid()
    ensures r.Err? ==> CopyError(r.error)
    ensures r.Ok? ==> Mirrored(old(disk.tree), disk.tree, a, b, IsDirAt(old(disk.tree), b))
    ensures r.Ok? ==> Frame(old(disk.tree), disk.tree, a, b)
    ensures r.Ok? && FileNames(old(disk.tree), a) != {} ==> IsDirAt(old(disk.tree), b) || Skipped(old(disk.tree), b)
    decreases Descendants(disk.tree, a), 1
  {
    ghost var t0 := disk.tree;
    var dirs := ListingOrder(SubdirNames(disk.tree, a));
    var files := ListingOrder(FileNames(disk.tree, a));
    forall i | 0 <= i < |files|
      ensures IsFileAt(t0, a + [files[i]])
    {
      assert files[i] in FileNames(t0, a);
    }
    r := MoveFiles(disk, a, b, files);
    if r.Err? {
      return;
    }
    ghost var t1 := disk.tree;
    forall i | 0 <= i < |dirs|
      ensures ValidName(dirs[i])
    {
      assert dirs[i] in SubdirNames(t0, a);
      ListedName(t0, a, dirs[i]);
    }
    r := MakeMirrors(disk, b, dirs);
    if r.Err? {
      return;
    }
    PreparedStages(t0, t1, disk.tree, a, b, files, dirs);
    PreparedSubdirs(t0, disk.tree, a, b, files, dirs);
    ghost var t2 := disk.tree;
    r := VisitSubdirs(disk, a, b, dirs);
    if r.Err? {
      return;
    }
    Composed(t0, t2, disk.tree, a, b, files, dirs);
  }

  /** The walk into each listed subdirectory `dirs` of `a`, in order, each mirrored by the child of the same name of `b`. */
  method VisitSubdirs(disk: Disk, a: Location, b: Location, dirs: seq<string>) returns (r: Result<(), OsError>)
    requires disk.Valid() && Disjoint(a, b) && AllValid(b)
    requires forall i :: 0 <= i < |dirs| ==> IsDirAt(disk.tree, a + [dirs[i]]) && IsDirAt(disk.tree, b + [dirs[i]])
    requires forall i, j :: 0 <= i < j < |dirs| ==> dirs[i] != dirs[j]
    modifies disk
    ensures disk.Valid()
    ensures r.Err? ==> CopyError(r.error)
    ensures r.Ok? ==> Copied(old(disk.tree), disk.tree, a, b, dirs)
    decreases Descendants(disk.tree, a), 0
  {
    ghost var t0 := disk.tree;
    r := Ok(());
    var i := 0;
    while i < |dirs| && r.Ok?
      invariant 0 <= i <= |dirs|
      invariant disk.Valid()
      invariant r.Ok? ==> Copied(t0, disk.tree, a, b, dirs[..i])
      invariant r.Err? ==> CopyError(r.error)
    {
      var d := dirs[i];
      ghost var cur := disk.tree;
      NotEarlier(dirs, i);
      SubvisitReady(t0, cur, a, b, dirs[..i], d);
      DisjointChildren(a, b, d);
      ListedName(t0, a, d);
      r := Visit(disk, a + [d], b + [d]);
      if r.Ok? {
        CopiedStep(t0, cur, disk.tree, a, b, dirs[..i], d);
      }
      SliceNext(dirs, i);
      i := i + 1;
    }
    SliceAll(dirs);
  }

  /** The location `os.path.join(destination_path, new_root, name)` starts from: the working directory when the destination is empty. */
  function Destination(cwd: Location, p: string): (b: Location)
    requires AllValid(cwd)
    ensures AllValid(b)
    ensures p != [] ==> Some(b) == Locate(cwd, p)
  {
    if p == [] then cwd else Locate(cwd, p).value
  }

  /**
    `os.path.join(destination_path, "", name)` names the child `name` of
    the destination's location, whether or not the destination is empty or
    ends with a slash.
  */
  lemma DestinationChild(cwd: Location, p: string, n: string)
    requires AllValid(cwd) && ValidName(n)
    ensures Locate(cwd, Join(Join(p, ""), n)) == Some(Destination(cwd, p) + [n])
  {
    var r := Render(cwd);
    var q := Join(p, "");
    if p == [] {
      assert Join(q, n) == n;
      PathFacts.JoinName(r, n);
      PathFacts.RenderRoundTrip(cwd);
    } else {
      Versioning.JoinAssoc(r, q, n);
      PathFacts.JoinName(Join(r, q), n);
      GluedSameSegments(r, p);
    }
  }

  /** Joining a trailing slash onto a non-empty path does not change where it leads. */
  lemma GluedSameSegments(r: string, p: string)
    requires p != []
    ensures Segments(Join(r, Join(p, ""))) == Segments(Join(r, p))
  {
    GluedJoin(r, p);
    var b := Join(r, p);
    if Join(r, Join(p, "")) != b {
      PathFacts.SegmentsTrailingSlash(b);
    }
  }

  /** The glued path joins to the same string, or to that string with one more slash. */
  lemma GluedJoin(r: string, p: string)
    requires p != []
    ensures Join(r, Join(p, "")) == Join(r, p) || Join(r, Join(p, "")) == Join(r, p) + "/"
  {
    if p[|p| - 1] != '/' && p[0] != '/' {
      Versioning.JoinGlue(r, p + "/");
      Versioning.JoinGlue(r, p);
      assert Versioning.Glue(r) + (p + "/") == (Versioning.Glue(r) + p) + "/";
    }
  }

  /**
    `Directory.copy_tree(source_path, destination_path)`. When the source
    is not a directory, `os.walk` reports the error to nobody and yields
    nothing, so nothing changes. Otherwise the walk visits it, mirrored by
    the destination, and the first error other than the ignored
    `FileNotFoundError` propagates.
  */
  method CopyTree(disk: Disk, sourcePath: string, destinationPath: string) returns (r: Result<(), OsError>)
    requires disk.Valid()
    requires IsDirPath(disk.tree, disk.cwd, sourcePath) ==>
      Disjoint(Locate(disk.cwd, sourcePath).value, Destination(disk.cwd, destinationPath))
    modifies disk
    ensures disk.Valid()
    ensures r.Err? ==> CopyError(r.error)
    ensures !IsDirPath(old(disk.tree), disk.cwd, sourcePath) ==> r.Ok? && disk.tree == old(disk.tree)
    ensures IsDirPath(old(disk.tree), disk.cwd, sourcePath) && r.Ok? ==>
      var a := Locate(disk.cwd, sourcePath).value;
      var b := Destination(disk.cwd, destinationPath);
      Mirrored(old(disk.tree), disk.tree, a, b, IsDirAt(old(disk.tree), b)) && Frame(old(disk.tree), disk.tree, a, b)
    ensures IsDirPath(old(disk.tree), disk.cwd, sourcePath) && r.Ok? ==>
      var a := Locate(disk.cwd, sourcePath).value;
      var b := Destination(disk.cwd, destinationPath);
      FileNames(old(disk.tree), a) != {} ==> IsDirAt(old(disk.tree), b) || Skipped(old(disk.tree), b)
  {
    var source := Locate(disk.cwd, sourcePath);
    if source.None? || !IsDirAt(disk.tree, source.value) {
      return Ok(());
    }
    r := Visit(disk, source.value, Destination(disk.cwd, destinationPath));
  }
}
