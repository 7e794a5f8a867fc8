/**
  What the handle operations do to a handle opened on an existing entry,
  whose `abspath` is the canonical string of a location `segs`.
*/
module HandleFacts {
  import opened Wrappers
  import opened Paths
  import opened PathFacts
  import opened Names
  import opened NameFacts
  import opened Sanitization
  import opened FileSystem
  import opened FileSystemFacts
  import opened Handles

  /** An absolute path string is resolved without the working directory. */
  lemma LocateAbsolute(cwd: Location, p: string)
    requires p != [] && p[0] == '/'
    ensures Locate(cwd, p) == Some(Segments(p))
  {
  }

  /** `w` is an absolute directory string ending in a separator that leads to `init`. */
  predicate DirString(w: string, init: Location) {
    |w| >= 1 && w[0] == '/' && w[|w| - 1] == '/' && Segments(w) == init
  }

  /** A name on which `Path.stem` and `os.path.splitext` agree, so that `get_name` reports it whole. */
  predicate Plain(n: string) {
    !StemCutsLeadingDots(n) && !SplitTakesTrailingDot(n)
  }

  /** The canonical path of a location is its parent's directory string followed by its name. */
  lemma CanonicalIsChild(init: Location, n: string)
    requires AllValid(init)
    ensures DirString(DirPrefix(init), init)
    ensures Render(init + [n]) == DirPrefix(init) + n
  {
    DirPrefixSegments(init);
    RenderRoundTrip(init);
    assert (init + [n])[..|init|] == init;
    RenderLast(init + [n]);
  }

  /**
    For a handle at `w + n`, with `n` a plain name: `get_name` is `n`, the
    prefix `rename` cuts off is `w`, and the paths lead to `init` and
    `init + [n]`.
  */
  lemma {:induction false} ChildHandle(cwd: Location, w: string, init: Location, n: string)
    requires DirString(w, init) && ValidName(n)
    ensures Locate(cwd, w) == Some(init)
    ensures Locate(cwd, w + n) == Some(init + [n])
    ensures Plain(n) ==> Name(w + n) == n && DropLast(w + n, |n|) == w
  {
    SegmentsAppendName(w, n);
    LocateAbsolute(cwd, w);
    LocateAbsolute(cwd, w + n);
    NameOfChild(w, n);
    DropLastConcat(w, n);
  }

  lemma OsRenameLocated(t: Tree, cwd: Location, a: string, b: string, la: Location, lb: Location)
    requires Locate(cwd, a) == Some(la) && Locate(cwd, b) == Some(lb)
    ensures OsRename(t, cwd, a, b) == Rename(t, la, lb)
  {
  }

  /** The branch `rename` takes, read off the listing and the move. */
  lemma OutcomeChanged(t: Tree, cwd: Location, abspath: string, newName: string, force: bool, t1: Tree)
    requires Name(abspath) != newName
    requires var dir := DropLast(abspath, |Name(abspath)|);
      var taken := HasFile(t, cwd, dir, newName);
      && taken.Ok? && (taken.value ==> force)
      && OsRename(t, cwd, abspath, dir + newName) == Ok(t1)
    ensures var dir := DropLast(abspath, |Name(abspath)|);
      RenameOutcome(t, cwd, abspath, newName, force)
        == Outcome(Ok(RenameResult(Changed, (Name(abspath), newName))), t1, dir + newName)
  {
  }

  lemma OutcomeCollision(t: Tree, cwd: Location, abspath: string, newName: string)
    requires Name(abspath) != newName
    requires HasFile(t, cwd, DropLast(abspath, |Name(abspath)|), newName) == Ok(true)
    ensures var dir := DropLast(abspath, |Name(abspath)|);
      RenameOutcome(t, cwd, abspath, newName, false)
        == Outcome(Ok(RenameResult(Collision, (Name(abspath), newName))), t, dir + newName)
  {
  }

  /** Renaming to the current name reports `unchanged`, touches nothing and leaves the handle where it was. */
  lemma RenameToSameName(t: Tree, cwd: Location, w: string, init: Location, n: string, force: bool)
    requires DirString(w, init) && ValidName(n) && Plain(n)
    ensures RenameOutcome(t, cwd, w + n, n, force) == Outcome(Ok(RenameResult(Unchanged, (n, n))), t, w + n)
  {
    ChildHandle(cwd, w, init, n);
    SameNameOutcome(t, cwd, w + n, force);
  }

  /**
    When `get_name` cuts leading dots ("..a" reports "."), renaming to the
    reported name still says `unchanged`, yet the handle no longer names
    the entry it was opened on.
  */
  lemma RenameToSameNameMovesHandle(t: Tree, cwd: Location, w: string, init: Location, n: string, force: bool)
    requires DirString(w, init) && ValidName(n) && StemCutsLeadingDots(n)
    ensures var m := Name(w + n);
      var o := RenameOutcome(t, cwd, w + n, m, force);
      && o.result == Ok(RenameResult(Unchanged, (m, m))) && o.tree == t
      && o.abspath != w + n
  {
    var p := w + n;
    NameOfChild(w, n);
    LeadingDotsEnds(n);
    LastOfAppend(w, n);
    SameNameMoves(t, cwd, p, force);
  }

  /**
    A name ending in a single dot after other characters (`a.`) is reported
    one character too long (`a..`), so the prefix `rename` keeps also loses
    the separator: a successful rename or a collision leaves the handle at
    `d + new_name`, outside directory `d`, and a `changed` rename moves the
    file there.
  */
  lemma TrailingDotLeavesDirectory(t: Tree, cwd: Location, d: string, n: string, newName: string, force: bool)
    requires d != [] && d[|d| - 1] != '/'
    requires ValidName(n) && SplitTakesTrailingDot(n)
    ensures Name(d + "/" + n) == n + "."
    ensures var o := RenameOutcome(t, cwd, d + "/" + n, newName, force);
      o.result.Ok? ==> o.abspath == d + newName
  {
    TrailingDotPrefix(d, n);
  }

  lemma TrailingDotPrefix(d: string, n: string)
    requires d != [] && d[|d| - 1] != '/'
    requires ValidName(n) && SplitTakesTrailingDot(n)
    ensures Name(d + "/" + n) == n + "."
    ensures DropLast(d + "/" + n, |Name(d + "/" + n)|) == d
  {
    var w := d + "/";
    NameOfChild(w, n);
    assert (w + n)[..|d|] == d;
  }

  lemma LastOfAppend(w: string, n: string)
    requires n != []
    ensures (w + n)[|w + n| - 1] == n[|n| - 1]
  {
  }

  /** A name whose stem cuts leading dots ends in something else than a dot, while its stem ends in one. */
  lemma LeadingDotsEnds(n: string)
    requires StemCutsLeadingDots(n)
    ensures var m := n[..RFind(n, '.')];
      m != [] && m[|m| - 1] == '.' && n[|n| - 1] != '.'
  {
  }

  /** When the name `get_name` reports does not end like the path, renaming to it moves the handle. */
  lemma SameNameMoves(t: Tree, cwd: Location, p: string, force: bool)
    requires var m := Name(p); m != [] && p != [] && m[|m| - 1] != p[|p| - 1]
    ensures var m := Name(p);
      var o := RenameOutcome(t, cwd, p, m, force);
      && o.result == Ok(RenameResult(Unchanged, (m, m))) && o.tree == t
      && o.abspath != p
  {
    SameNameOutcome(t, cwd, p, force);
    EndsDiffer(DropLast(p, |Name(p)|), Name(p), p);
  }

  /** Renaming to the name `get_name` reports is always `unchanged` and moves nothing. */
  lemma SameNameOutcome(t: Tree, cwd: Location, abspath: string, force: bool)
    ensures var n := Name(abspath);
      RenameOutcome(t, cwd, abspath, n, force) == Outcome(Ok(RenameResult(Unchanged, (n, n))), t, DropLast(abspath, |n|) + n)
  {
  }

  lemma EndsDiffer(a: string, n: string, p: string)
    requires n != [] && p != [] && n[|n| - 1] != p[|p| - 1]
    ensures a + n != p
  {
    assert (a + n)[|a + n| - 1] == n[|n| - 1];
  }

  /**
    A name already listed in the parent, file or directory, is a collision
    unless forced: nothing moves, yet the handle is left naming that other
    entry.
  */
  lemma RenameCollision(t: Tree, cwd: Location, w: string, init: Location, n: string, newName: string)
    requires DirString(w, init) && ValidName(n) && Plain(n)
    requires newName != n && IsDirAt(t, init) && init + [newName] in t
    ensures RenameOutcome(t, cwd, w + n, newName, false)
      == Outcome(Ok(RenameResult(Collision, (n, newName))), t, w + newName)
  {
    ChildHandle(cwd, w, init, n);
    OutcomeCollision(t, cwd, w + n, newName);
  }

  /**
    A file renamed to a valid name that is free, or taken by another file
    when forced: the content moves to the new name, the old name
    disappears, every other entry stays, and the handle follows the file.
  */
  lemma RenameFileChanged(t: Tree, cwd: Location, w: string, init: Location, n: string, newName: string, force: bool)
    requires DirString(w, init) && ValidName(n) && Plain(n)
    requires ValidName(newName) && newName != n
    requires IsDirAt(t, init) && IsFileAt(t, init + [n])
    requires init + [newName] !in t || (force && IsFileAt(t, init + [newName]))
    ensures var src, dst := init + [n], init + [newName];
      RenameOutcome(t, cwd, w + n, newName, force)
        == Outcome(Ok(RenameResult(Changed, (n, newName))), t - {src} + map[dst := t[src]], w + newName)
  {
    var src, dst := init + [n], init + [newName];
    ChildHandle(cwd, w, init, n);
    ChildHandle(cwd, w, init, newName);
    assert Parent(dst) == init;
    FileRenameRule(t, src, dst);
    OsRenameLocated(t, cwd, w + n, w + newName, src, dst);
    OutcomeChanged(t, cwd, w + n, newName, force, t - {src} + map[dst := t[src]]);
  }

  /** `os.rename` of a file onto a free name or another file, without the well-formedness of the whole tree. */
  lemma FileRenameRule(t: Tree, src: Location, dst: Location)
    requires IsFileAt(t, src) && src != dst && src != [] && dst != []
    requires IsDirAt(t, Parent(dst)) && !IsDirAt(t, dst)
    ensures Rename(t, src, dst) == Ok(t - {src} + map[dst := t[src]])
  {
  }

  /** A directory renamed to a free valid name: its whole subtree moves with it. */
  lemma RenameDirChanged(t: Tree, cwd: Location, w: string, init: Location, n: string, newName: string, force: bool)
    requires DirString(w, init) && ValidName(n) && Plain(n)
    requires ValidName(newName) && newName != n
    requires IsDirAt(t, init) && IsDirAt(t, init + [n]) && init + [newName] !in t
    ensures var src, dst := init + [n], init + [newName];
      RenameOutcome(t, cwd, w + n, newName, force)
        == Outcome(Ok(RenameResult(Changed, (n, newName))), MoveTree(t, src, dst), w + newName)
  {
    var src, dst := init + [n], init + [newName];
    ChildHandle(cwd, w, init, n);
    ChildHandle(cwd, w, init, newName);
    assert Parent(dst) == init;
    SiblingsApart(init, n, newName);
    RenameDir(t, src, dst);
    OsRenameLocated(t, cwd, w + n, w + newName, src, dst);
    OutcomeChanged(t, cwd, w + n, newName, force, MoveTree(t, src, dst));
  }

  /**
    A handle whose name is already clean (allowed characters only, and not
    "", "." or "..") is left alone by `normalize_filename`.
  */
  lemma NormalizeClean(t: Tree, cwd: Location, w: string, init: Location, n: string, force: bool)
    requires DirString(w, init) && ValidName(n) && Plain(n) && AllAllowed(n)
    ensures NormalizeOutcome(t, cwd, w + n, force) == Outcome(Ok(RenameResult(Unchanged, (n, n))), t, w + n)
  {
    ChildHandle(cwd, w, init, n);
    SanitizeClean(n);
    RenameToSameName(t, cwd, w, init, n, force);
  }

  /** A sanitised name that is not refused is a proper name. */
  lemma SanitizedValid(n: string)
    requires !Suspicious(Sanitize(n))
    ensures ValidName(Sanitize(n))
  {
    AllowedHasNo(Sanitize(n), '/');
  }

  /**
    `normalize_filename` is idempotent on a handle: once a call succeeds,
    a second call on the same handle reports `unchanged` and touches
    nothing, provided the sanitised name is one `get_name` reports whole.
  */
  lemma NormalizeTwice(t: Tree, cwd: Location, w: string, init: Location, n: string, force: bool)
    requires DirString(w, init) && ValidName(n) && Plain(n) && Plain(Sanitize(n))
    ensures var o1 := NormalizeOutcome(t, cwd, w + n, force);
      o1.result.Ok? ==>
        var s := Sanitize(n);
        && o1.abspath == w + s
        && NormalizeOutcome(o1.tree, cwd, o1.abspath, force) == Outcome(Ok(RenameResult(Unchanged, (s, s))), o1.tree, w + s)
  {
    var o1 := NormalizeOutcome(t, cwd, w + n, force);
    ChildHandle(cwd, w, init, n);
    if o1.result.Ok? {
      var s := Sanitize(n);
      SanitizedValid(n);
      ChildHandle(cwd, w, init, s);
      NormalizeClean(o1.tree, cwd, w, init, s, force);
    }
  }

  /** Whatever the branch, the filesystem stays well formed. */
  lemma RenameKeepsWellFormed(t: Tree, cwd: Location, abspath: string, newName: string, force: bool)
    requires WellFormed(t)
    ensures WellFormed(RenameOutcome(t, cwd, abspath, newName, force).tree)
  {
    var name := Name(abspath);
    var dir := DropLast(abspath, |name|);
    var target := dir + newName;
    if name != newName {
      var taken := HasFile(t, cwd, dir, newName);
      if taken.Ok? && !(taken.value && !force) {
        var moved := OsRename(t, cwd, abspath, target);
        if moved.Ok? {
          RenameWellFormed(t, Locate(cwd, abspath).value, Locate(cwd, target).value);
          assert RenameOutcome(t, cwd, abspath, newName, force).tree == moved.value;
        }
      }
    }
  }
}
