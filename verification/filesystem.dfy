/**
  The filesystem as a value: a finite map from resolved locations (segment
  lists, `[]` being "/") to entries, together with the POSIX calls the
  handle layer makes on it (`os.listdir`, `os.path.isfile`/`isdir`/`exists`,
  `os.rename`/`os.replace`, `os.makedirs`, `os.remove`, `os.rmdir`) and the
  errors they raise.
*/
module FileSystem {
  import opened Wrappers
  import opened Paths

  type Location = seq<string>

  datatype Entry = Dir | File(content: string)

  type Tree = map<Location, Entry>

  /** The `OSError` subclasses the modelled calls raise. */
  datatype OsError =
    | NotFound            // FileNotFoundError (ENOENT)
    | NotADirectory       // NotADirectoryError (ENOTDIR)
    | IsADirectory        // IsADirectoryError (EISDIR)
    | FileExists          // FileExistsError (EEXIST)
    | DirectoryNotEmpty   // OSError ENOTEMPTY
    | InvalidArgument     // OSError EINVAL: a directory moved into itself
    | Busy                // OSError EBUSY: the root directory

  predicate IsPrefix(a: Location, b: Location) {
    |a| <= |b| && b[..|a|] == a
  }

  function Parent(p: Location): Location
    requires p != []
  {
    p[..|p| - 1]
  }

  /**
    A tree the kernel could present: the root is a directory, every other
    entry sits in a directory, and every segment is a proper name.
  */
  ghost predicate WellFormed(t: Tree) {
    && [] in t && t[[]] == Dir
    && (forall p :: p in t ==> AllValid(p))
    && (forall p :: p in t && p != [] ==> Parent(p) in t && t[Parent(p)] == Dir)
  }

  predicate IsDirAt(t: Tree, p: Location) {
    p in t && t[p] == Dir
  }

  predicate IsFileAt(t: Tree, p: Location) {
    p in t && t[p].File?
  }

  /** The names listed in directory `d`. */
  function Children(t: Tree, d: Location): (names: set<string>)
    ensures forall n :: n in names <==> d + [n] in t
  {
    var names := set p | p in t && |p| == |d| + 1 && p[..|d|] == d :: p[|d|];
    assert forall n :: d + [n] in t ==> (d + [n])[..|d|] == d && (d + [n])[|d|] == n;
    assert forall p :: p in t && |p| == |d| + 1 && p[..|d|] == d ==> p == d + [p[|d|]];
    names
  }

  /**
    The error a system call raises for the missing location `p`: the path
    is looked up one step at a time, and the lookup stops at the deepest
    entry on the way, raising `ENOTDIR` when that entry is a file and
    `ENOENT` when it is a directory.
  */
  function MissingError(t: Tree, p: Location): (e: OsError)
    ensures e == NotFound || e == NotADirectory
    decreases |p|
  {
    if p == [] then NotFound
    else if Parent(p) in t then (if t[Parent(p)].File? then NotADirectory else NotFound)
    else MissingError(t, Parent(p))
  }

  /** `os.listdir`: the names in a directory, in no particular order. */
  function ListDir(t: Tree, d: Location): (r: Result<set<string>, OsError>)
    ensures r.Ok? <==> IsDirAt(t, d)
    ensures r.Ok? ==> r.value == Children(t, d)
    ensures r.Err? ==> r.error == (if d in t then NotADirectory else MissingError(t, d))
  {
    if d !in t then Err(MissingError(t, d))
    else if t[d].File? then Err(NotADirectory)
    else Ok(Children(t, d))
  }

  /** The entries of `t` at or below `src` moved to the same places below `dst`; whatever was at or below `dst` is dropped. */
  function MoveTree(t: Tree, src: Location, dst: Location): Tree {
    var kept := set p | p in t && !IsPrefix(src, p) && !IsPrefix(dst, p);
    var moved := set p | p in t && IsPrefix(src, p) :: dst + p[|src|..];
    map q | q in kept + moved :: Origin(t, src, dst, q)
  }

  /** The entry that lands at `q` when `src` moves to `dst`. */
  function Origin(t: Tree, src: Location, dst: Location, q: Location): Entry {
    if IsPrefix(dst, q) && src + q[|dst|..] in t then t[src + q[|dst|..]]
    else if q in t then t[q]
    else Dir
  }

  /**
    `os.rename(src, dst)` (and `os.replace`, which is the same call on POSIX):
    a file replaces a file, a directory replaces an empty directory, and
    the errors follow rename(2).
  */
  function Rename(t: Tree, src: Location, dst: Location): Result<Tree, OsError> {
    if src !in t then Err(MissingError(t, src))
    else if src == dst then Ok(t)
    else if src == [] || dst == [] then Err(Busy)
    else if Parent(dst) !in t then Err(MissingError(t, Parent(dst)))
    else if t[Parent(dst)].File? then Err(NotADirectory)
    else if t[src].File? then
      if dst in t && t[dst] == Dir then Err(IsADirectory)
      else Ok(t - {src} + map[dst := t[src]])
    else if IsPrefix(src, dst) then Err(InvalidArgument)
    else if dst in t && t[dst].File? then Err(NotADirectory)
    else if dst in t && Children(t, dst) != {} then Err(DirectoryNotEmpty)
    else Ok(MoveTree(t, src, dst))
  }

  /** `os.mkdir(p)` as `os.makedirs` calls it: an existing directory is accepted (`exist_ok=True`). */
  function MakeDir(t: Tree, p: Location): Result<Tree, OsError> {
    if p in t then (if t[p] == Dir then Ok(t) else Err(FileExists))
    else if p == [] then Ok(t[p := Dir])
    else if Parent(p) !in t then Err(MissingError(t, Parent(p)))
    else if t[Parent(p)].File? then Err(NotADirectory)
    else Ok(t[p := Dir])
  }

  /**
    `os.makedirs(p, exist_ok=True)`: when the parent does not exist it is
    made first (a `FileExistsError` from that step is ignored), then `p`.
  */
  function MakeDirs(t: Tree, p: Location): Result<Tree, OsError>
    decreases |p|
  {
    if p != [] && Parent(p) !in t then
      match MakeDirs(t, Parent(p))
      case Err(e) => if e == FileExists then MakeDir(t, p) else Err(e)
      case Ok(t1) => MakeDir(t1, p)
    else MakeDir(t, p)
  }

  /** `os.remove(p)`: deletes a file. */
  function Remove(t: Tree, p: Location): Result<Tree, OsError> {
    if p !in t then Err(MissingError(t, p))
    else if t[p] == Dir then Err(IsADirectory)
    else Ok(t - {p})
  }

  /** `os.rmdir(p)`: deletes an empty directory. */
  function Rmdir(t: Tree, p: Location): Result<Tree, OsError> {
    if p !in t then Err(MissingError(t, p))
    else if t[p].File? then Err(NotADirectory)
    else if p == [] then Err(Busy)
    else if Children(t, p) != {} then Err(DirectoryNotEmpty)
    else Ok(t - {p})
  }
}
