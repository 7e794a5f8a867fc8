/**
  What `os.walk` lists of a directory (its subdirectories and its other
  entries), and `Directory.remove_dir_recursively` in core.py, which walks
  bottom-up and deletes what it meets. A walk's `root` strings are
  `os.path.join` of the walked path and the names listed, so they are
  modelled directly as locations: the walked location followed by the
  names.
*/
module Walks {
  import opened Wrappers
  import opened Paths
  import opened FileSystem
  import opened FileSystemFacts
  import opened Handles
  import opened Directories

  /** `q` lies strictly below `p`. */
  predicate Below(p: Location, q: Location) {
    |q| > |p| && q[..|p|] == p
  }

  /** The names under which `os.walk` lists the subdirectories of `d`. */
  function SubdirNames(t: Tree, d: Location): (names: set<string>)
    ensures forall n :: n in names <==> IsDirAt(t, d + [n])
  {
    set n | n in Children(t, d) && IsDirAt(t, d + [n])
  }

  /** The names under which `os.walk` lists the other entries of `d`. */
  function FileNames(t: Tree, d: Location): (names: set<string>)
    ensures forall n :: n in names <==> IsFileAt(t, d + [n])
  {
    set n | n in Children(t, d) && IsFileAt(t, d + [n])
  }

  ghost function Descendants(t: Tree, p: Location): set<Location> {
    set q | q in t && Below(p, q)
  }

  // ---------------------------------------------------------------------
  // remove_dir_recursively
  // ---------------------------------------------------------------------

  /** The tree with everything strictly below `p` deleted. */
  function Pruned(t: Tree, p: Location): Tree {
    map q | q in t && !Below(p, q) :: t[q]
  }

  /** The tree with everything at or below `p` deleted, the root directory excepted. */
  function Erased(t: Tree, p: Location): Tree {
    map q | q in t && (q == [] || !IsPrefix(p, q)) :: t[q]
  }

  /**
    What `remove_dir_recursively(dir_path)` raises and leaves behind: a path
    that names nothing, or a file, makes the final `os.rmdir` raise before
    anything is deleted (the walk of such a path yields nothing); a
    directory is emptied bottom-up and then removed, except that removing
    the root raises `EBUSY` once it is empty.
  */
  function RemovalOutcome(t: Tree, cwd: Location, dirPath: string): (Result<(), OsError>, Tree) {
    match Locate(cwd, dirPath)
    case None => (Err(NotFound), t)
    case Some(l) =>
      if l !in t then (Err(MissingError(t, l)), t)
      else if t[l].File? then (Err(NotADirectory), t)
      else if l == [] then (Err(Busy), Erased(t, l))
      else (Ok(()), Erased(t, l))
  }

  /** Deleting a whole subtree keeps a tree well formed. */
  lemma ErasedWellFormed(t: Tree, p: Location)
    requires WellFormed(t)
    ensures WellFormed(Erased(t, p))
  {
    forall q | q != [] && IsPrefix(p, Parent(q))
      ensures IsPrefix(p, q)
    {
      PrefixOfParent(p, q);
    }
  }

  /**
    What the removal promises: it succeeds exactly on a directory other than
    the root, and then everything at or below that directory is gone and
    nothing else changes; it only ever deletes, and a failure other than
    `EBUSY` deletes nothing.
  */
  lemma RemovalOutcomeEffect(t: Tree, cwd: Location, dirPath: string)
    requires WellFormed(t)
    ensures var o := RemovalOutcome(t, cwd, dirPath);
      && WellFormed(o.1)
      && (forall q :: q in o.1 ==> q in t && o.1[q] == t[q])
      && (o.0.Ok? <==> Locate(cwd, dirPath).Some? && IsDirAt(t, Locate(cwd, dirPath).value) && Locate(cwd, dirPath).value != [])
      && (o.0.Ok? ==> forall q :: q in t ==> (q in o.1 <==> !IsPrefix(Locate(cwd, dirPath).value, q)))
      && (o.0.Err? && o.0.error != Busy ==> o.1 == t)
  {
    match Locate(cwd, dirPath)
    case None =>
    case Some(l) =>
      if l in t && t[l] == Dir {
        ErasedEffect(t, l);
      }
  }

  /** Erasing `p` deletes exactly what lies at or below it, the root excepted, and keeps the tree well formed. */
  lemma ErasedEffect(t: Tree, p: Location)
    requires WellFormed(t)
    ensures WellFormed(Erased(t, p))
    ensures forall q :: q in Erased(t, p) ==> q in t && Erased(t, p)[q] == t[q]
    ensures p != [] ==> forall q :: q in t ==> (q in Erased(t, p) <==> !IsPrefix(p, q))
  {
    ErasedWellFormed(t, p);
  }

  /** The tree after the subdirectories `deep` of `p` have each been emptied, one after the other. */
  function CutDeep(t: Tree, p: Location, deep: seq<string>): Tree
    decreases |deep|
  {
    if deep == [] then t else Pruned(CutDeep(t, p, deep[..|deep| - 1]), p + [deep[|deep| - 1]])
  }

  /** The tree after the children `names` of `p` have each been deleted, one after the other. */
  function Drop(t: Tree, p: Location, names: seq<string>): Tree
    decreases |names|
  {
    if names == [] then t else Drop(t, p, names[..|names| - 1]) - {p + [names[|names| - 1]]}
  }

  lemma BelowChild(p: Location, d: string, q: Location)
    ensures Below(p + [d], q) <==> Below(p, q) && |q| > |p| + 1 && q[|p|] == d
  {
    if |q| > |p| + 1 && q[..|p|] == p && q[|p|] == d {
      assert q[..|p| + 1] == q[..|p|] + [q[|p|]];
    }
    if Below(p + [d], q) {
      assert q[..|p|] == q[..|p| + 1][..|p|];
    }
  }

  lemma IsChild(p: Location, n: string, q: Location)
    ensures q == p + [n] <==> Below(p, q) && |q| == |p| + 1 && q[|p|] == n
  {
    if Below(p, q) && |q| == |p| + 1 && q[|p|] == n {
      assert q == q[..|p|] + [q[|p|]];
    }
    if q == p + [n] {
      assert q[..|p|] == p;
    }
  }

  /** What the deep cut keeps: everything except what lies below one of the emptied subdirectories. */
  lemma {:induction false} CutDeepAt(t: Tree, p: Location, deep: seq<string>, q: Location)
    ensures q in CutDeep(t, p, deep) <==> q in t && !(Below(p, q) && |q| > |p| + 1 && q[|p|] in deep)
    ensures q in CutDeep(t, p, deep) ==> CutDeep(t, p, deep)[q] == t[q]
    decreases |deep|
  {
    if deep != [] {
      var init := deep[..|deep| - 1];
      CutDeepAt(t, p, init, q);
      BelowChild(p, deep[|deep| - 1], q);
      assert deep == init + [deep[|deep| - 1]];
    }
  }

  /** What the deletions keep: everything except the deleted children. */
  lemma {:induction false} DropAt(t: Tree, p: Location, names: seq<string>, q: Location)
    ensures q in Drop(t, p, names) <==> q in t && !(Below(p, q) && |q| == |p| + 1 && q[|p|] in names)
    ensures q in Drop(t, p, names) ==> Drop(t, p, names)[q] == t[q]
    decreases |names|
  {
    if names != [] {
      var init := names[..|names| - 1];
      DropAt(t, p, init, q);
      IsChild(p, names[|names| - 1], q);
      assert names == init + [names[|names| - 1]];
    }
  }

  /** A subdirectory of `p` outside the emptied ones is still a directory in the deep cut. */
  lemma SubdirKept(t: Tree, p: Location, deep: seq<string>, d: string)
    requires IsDirAt(t, p + [d])
    ensures IsDirAt(CutDeep(t, p, deep), p + [d])
  {
    IsChild(p, d, p + [d]);
    CutDeepAt(t, p, deep, p + [d]);
  }

  /** A child of `p` not yet deleted is still there, unchanged. */
  lemma ChildKept(t: Tree, p: Location, names: seq<string>, n: string)
    requires p + [n] in t && n !in names
    ensures p + [n] in Drop(t, p, names) && Drop(t, p, names)[p + [n]] == t[p + [n]]
  {
    IsChild(p, n, p + [n]);
    DropAt(t, p, names, p + [n]);
  }

  /** Deleting children of `p` leaves the children of an emptied subdirectory empty. */
  lemma EmptiedDir(t: Tree, p: Location, deep: seq<string>, names: seq<string>, d: string)
    requires d in deep
    ensures Children(Drop(CutDeep(t, p, deep), p, names), p + [d]) == {}
  {
    forall n | p + [d] + [n] in Drop(CutDeep(t, p, deep), p, names)
      ensures false
    {
      var q := p + [d] + [n];
      DropAt(CutDeep(t, p, deep), p, names, q);
      CutDeepAt(t, p, deep, q);
      BelowChild(p, d, q);
      IsChild(p + [d], n, q);
    }
  }

  /** Deleting children of `p` deletes nothing below a child. */
  lemma DropKeepsGrandchildren(t: Tree, p: Location, names: seq<string>, d: string)
    ensures Children(Drop(t, p, names), p + [d]) <= Children(t, p + [d])
  {
    forall n | p + [d] + [n] in Drop(t, p, names)
      ensures p + [d] + [n] in t
    {
      DropAt(t, p, names, p + [d] + [n]);
    }
  }

  /** Emptying every subdirectory, then deleting every file and every subdirectory, is pruning. */
  lemma CutAll(t: Tree, p: Location, deep: seq<string>, files: seq<string>, dirs: seq<string>)
    requires WellFormed(t)
    requires forall n :: IsDirAt(t, p + [n]) ==> n in deep && n in dirs
    requires forall n :: IsFileAt(t, p + [n]) ==> n in files
    ensures Drop(Drop(CutDeep(t, p, deep), p, files), p, dirs) == Pruned(t, p)
  {
    var e := CutDeep(t, p, deep);
    var c := Drop(Drop(e, p, files), p, dirs);
    forall q
      ensures q in c <==> q in Pruned(t, p)
      ensures q in c ==> c[q] == t[q]
    {
      DropAt(Drop(e, p, files), p, dirs, q);
      DropAt(e, p, files, q);
      CutDeepAt(t, p, deep, q);
      if q in t && Below(p, q) {
        assert IsPrefix(p, q);
        ChildOnTheWay(t, p, q);
        Ancestor(t, q, |p| + 1);
        IsChild(p, q[|p|], q[..|p| + 1]);
        assert q[..|p| + 1][|p|] == q[|p|];
        if |q| == |p| + 1 {
          assert q[..|p| + 1] == q;
        }
      }
    }
  }

  /** The subtree of a subdirectory, in a tree cut only below other subdirectories, is smaller than that of `p`. */
  lemma DescendantsShrink(t: Tree, p: Location, deep: seq<string>, d: string)
    requires p + [d] in t
    ensures Descendants(CutDeep(t, p, deep), p + [d]) < Descendants(t, p)
  {
    forall q | q in Descendants(CutDeep(t, p, deep), p + [d])
      ensures q in Descendants(t, p)
    {
      CutDeepAt(t, p, deep, q);
      BelowChild(p, d, q);
    }
    IsChild(p, d, p + [d]);
    assert p + [d] in Descendants(t, p);
  }

  /**
    The bottom-up walk of `p` with the body of `remove_dir_recursively`'s
    loop: `os.walk` lists `p`, walks each subdirectory (which empties it),
    then yields `p`, whose listed files are removed and then whose listed
    subdirectories are removed. None of these calls can fail, and
    everything below `p` goes.
  */
  method Purge(disk: Disk, p: Location)
    requires disk.Valid() && IsDirAt(disk.tree, p)
    modifies disk
    ensures disk.Valid() && disk.tree == Pruned(old(disk.tree), p)
    decreases Descendants(disk.tree, p), 1
  {
    ghost var t0 := disk.tree;
    var dirs := ListingOrder(SubdirNames(disk.tree, p));
    var files := ListingOrder(FileNames(disk.tree, p));
    PurgeSubdirs(disk, p, dirs);
    forall i | 0 <= i < |files|
      ensures IsFileAt(disk.tree, p + [files[i]])
    {
      IsChild(p, files[i], p + [files[i]]);
      CutDeepAt(t0, p, dirs, p + [files[i]]);
    }
    RemoveFiles(disk, p, files);
    forall i | 0 <= i < |dirs|
      ensures IsDirAt(disk.tree, p + [dirs[i]]) && Children(disk.tree, p + [dirs[i]]) == {}
    {
      SubdirKept(t0, p, dirs, dirs[i]);
      ChildKept(CutDeep(t0, p, dirs), p, files, dirs[i]);
      EmptiedDir(t0, p, dirs, files, dirs[i]);
    }
    RemoveDirs(disk, p, dirs);
    CutAll(t0, p, dirs, files, dirs);
  }

  lemma SliceNext(names: seq<string>, i: nat)
    requires i < |names|
    ensures names[..i + 1] == names[..i] + [names[i]]
    ensures names[..i + 1][..i] == names[..i]
  {
  }

  lemma SliceAll(names: seq<string>)
    ensures names[..|names|] == names
  {
  }

  /** The walk into each listed subdirectory `dirs` of `p`, in order. */
  method PurgeSubdirs(disk: Disk, p: Location, dirs: seq<string>)
    requires disk.Valid() && IsDirAt(disk.tree, p)
    requires forall i :: 0 <= i < |dirs| ==> IsDirAt(disk.tree, p + [dirs[i]])
    modifies disk
    ensures disk.Valid() && disk.tree == CutDeep(old(disk.tree), p, dirs)
    decreases Descendants(disk.tree, p), 0
  {
    ghost var t0 := disk.tree;
    var i := 0;
    while i < |dirs|
      invariant 0 <= i <= |dirs|
      invariant disk.Valid()
      invariant disk.tree == CutDeep(t0, p, dirs[..i])
    {
      var d := dirs[i];
      SubdirKept(t0, p, dirs[..i], d);
      DescendantsShrink(t0, p, dirs[..i], d);
      Purge(disk, p + [d]);
      SliceNext(dirs, i);
      i := i + 1;
    }
    SliceAll(dirs);
  }

  /** `for name in files: os.remove(os.path.join(root, name))`, for files that are there. */
  method RemoveFiles(disk: Disk, p: Location, names: seq<string>)
    requires disk.Valid()
    requires forall i :: 0 <= i < |names| ==> IsFileAt(disk.tree, p + [names[i]])
    requires forall i, j :: 0 <= i < j < |names| ==> names[i] != names[j]
    modifies disk
    ensures disk.Valid() && disk.tree == Drop(old(disk.tree), p, names)
  {
    ghost var t0 := disk.tree;
    var i := 0;
    while i < |names|
      invariant 0 <= i <= |names|
      invariant disk.Valid()
      invariant disk.tree == Drop(t0, p, names[..i])
    {
      var name := names[i];
      ChildKept(t0, p, names[..i], name);
      RemoveEffect(disk.tree, p + [name]);
      var removed := Remove(disk.tree, p + [name]);
      disk.tree := removed.value;
      SliceNext(names, i);
      i := i + 1;
    }
    SliceAll(names);
  }

  /** `for name in dirs: os.rmdir(os.path.join(root, name))`, for directories already emptied. */
  method RemoveDirs(disk: Disk, p: Location, names: seq<string>)
    requires disk.Valid()
    requires forall i :: 0 <= i < |names| ==> IsDirAt(disk.tree, p + [names[i]]) && Children(disk.tree, p + [names[i]]) == {}
    requires forall i, j :: 0 <= i < j < |names| ==> names[i] != names[j]
    modifies disk
    ensures disk.Valid() && disk.tree == Drop(old(disk.tree), p, names)
  {
    ghost var t0 := disk.tree;
    var i := 0;
    while i < |names|
      invariant 0 <= i <= |names|
      invariant disk.Valid()
      invariant disk.tree == Drop(t0, p, names[..i])
    {
      var name := names[i];
      ChildKept(t0, p, names[..i], name);
      DropKeepsGrandchildren(t0, p, names[..i], name);
      RmdirEffect(disk.tree, p + [name]);
      var removed := Rmdir(disk.tree, p + [name]);
      disk.tree := removed.value;
      SliceNext(names, i);
      i := i + 1;
    }
    SliceAll(names);
  }

  /** A pruned directory has no children. */
  lemma PrunedEmpty(t: Tree, p: Location)
    ensures Children(Pruned(t, p), p) == {}
  {
    forall n | p + [n] in Pruned(t, p)
      ensures false
    {
      IsChild(p, n, p + [n]);
    }
  }

  /** Pruning and then deleting `p` itself erases `p`; pruning the root is erasing it. */
  lemma PrunedThenErased(t: Tree, p: Location)
    ensures p != [] ==> Pruned(t, p) - {p} == Erased(t, p)
    ensures p == [] ==> Pruned(t, p) == Erased(t, p)
  {
    forall q ensures IsPrefix(p, q) <==> Below(p, q) || q == p {
    }
  }

  /**
    The outcome, step by step: the walk empties `p` when it is a
    directory, then `os.rmdir(p)` decides the result.
  */
  lemma RemovalSteps(t: Tree, cwd: Location, dirPath: string, p: Location, emptied: Tree)
    requires WellFormed(t) && WellFormed(emptied) && Locate(cwd, dirPath) == Some(p)
    requires emptied == if IsDirAt(t, p) then Pruned(t, p) else t
    ensures var removed := Rmdir(emptied, p);
      && (removed.Ok? ==> WellFormed(removed.value))
      && RemovalOutcome(t, cwd, dirPath) == if removed.Ok? then (Ok(()), removed.value) else (Err(removed.error), emptied)
  {
    if IsDirAt(t, p) {
      PrunedEmpty(t, p);
      PrunedThenErased(t, p);
    }
    RmdirEffect(emptied, p);
  }

  /** `Directory.remove_dir_recursively(dir_path)`. */
  method RemoveDirRecursively(disk: Disk, dirPath: string) returns (r: Result<(), OsError>)
    requires disk.Valid()
    modifies disk
    ensures disk.Valid()
    ensures (r, disk.tree) == RemovalOutcome(old(disk.tree), disk.cwd, dirPath)
  {
    ghost var t0 := disk.tree;
    var l := Locate(disk.cwd, dirPath);
    if l.None? {
      return Err(NotFound);
    }
    var p := l.value;
    if IsDirAt(disk.tree, p) {
      Purge(disk, p);
    }
    RemovalSteps(t0, disk.cwd, dirPath, p, disk.tree);
    var removed := Rmdir(disk.tree, p);
    if removed.Err? {
      return Err(removed.error);
    }
    disk.tree := removed.value;
    r := Ok(());
  }
}
