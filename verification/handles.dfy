/**
  The file handle of core.py: a `File` object holds one mutable string,
  `abspath`, and renames the entry it names on a shared filesystem. Each
  operation is first given as a function of the filesystem and the handle's
  state (the specification), then as a method of the class that updates the
  state in place and is proved to agree with it.
*/
module Handles {
  import opened Wrappers
  import opened Paths
  import opened Names
  import opened Sanitization
  import opened FileSystem
  import FileSystemFacts
  import PathFacts

  /** The exceptions the handle layer lets through. */
  datatype Error =
    | ValueError                // an empty file name
    | Os(os: OsError)           // an `OSError` from the filesystem
    | SuspiciousFileOperation   // a sanitised name that is "", "." or ".."
    | TypeError                 // `str + None`: a versioned name for a file without extension
    | IOError                   // reading a directory handle

  datatype Status = Unchanged | Collision | Changed

  /** The dictionary `{"status": ..., "names": (old, new)}` that `rename` returns. */
  datatype RenameResult = RenameResult(status: Status, names: (string, string))

  /** The result of a handle operation together with the filesystem and the handle's `abspath` after it. */
  datatype Outcome = Outcome(result: Result<RenameResult, Error>, tree: Tree, abspath: string)

  /** The location an OS call with path `p` reaches from working directory `cwd`; the empty path reaches none. */
  function Locate(cwd: Location, p: string): (r: Option<Location>)
    ensures r.Some? <==> p != []
    ensures r.Some? ==> AllValid(r.value)
  {
    if p == [] then None else Some(Resolve(Render(cwd), p))
  }

  predicate ExistsPath(t: Tree, cwd: Location, p: string) {
    var l := Locate(cwd, p); l.Some? && l.value in t
  }

  predicate IsFilePath(t: Tree, cwd: Location, p: string) {
    var l := Locate(cwd, p); l.Some? && IsFileAt(t, l.value)
  }

  predicate IsDirPath(t: Tree, cwd: Location, p: string) {
    var l := Locate(cwd, p); l.Some? && IsDirAt(t, l.value)
  }

  /** `has_file(directory, name)`: whether `name` is listed in `directory`; the listing's errors propagate. */
  function HasFile(t: Tree, cwd: Location, directory: string, name: string): (r: Result<bool, OsError>)
    ensures r.Ok? <==> IsDirPath(t, cwd, directory)
    ensures r.Ok? ==> (r.value <==> Locate(cwd, directory).value + [name] in t)
    ensures r.Err? ==> r.error == (if ExistsPath(t, cwd, directory) then NotADirectory
                                   else if directory == [] then NotFound
                                   else MissingError(t, Locate(cwd, directory).value))
  {
    match Locate(cwd, directory)
    case None => Err(NotFound)
    case Some(d) =>
      match ListDir(t, d)
      case Err(e) => Err(e)
      case Ok(names) => Ok(name in names)
  }

  /** `os.path.abspath(os.path.join(os.getcwd(), filename))`. */
  function AbsPath(cwd: Location, filename: string): string
    requires filename != []
  {
    Render(Resolve(Render(cwd), filename))
  }

  /** `File(filename, create_new)`: the handle's `abspath`, or the error the constructor raises. */
  function OpenPath(t: Tree, cwd: Location, filename: string, createNew: bool): (r: Result<string, Error>)
    ensures filename == [] <==> r == Err(ValueError)
    ensures r == Err(Os(NotFound)) <==> filename != [] && !createNew && !ExistsPath(t, cwd, AbsPath(cwd, filename))
    ensures r.Err? ==> r.error == ValueError || r.error == Os(NotFound)
    ensures r.Ok? ==> r.value == AbsPath(cwd, filename) && Locate(cwd, r.value) == Locate(cwd, filename)
  {
    if filename == [] then Err(ValueError)
    else
      var abspath := AbsPath(cwd, filename);
      AbsPathLocated(cwd, filename);
      if !ExistsPath(t, cwd, abspath) && !createNew then Err(Os(NotFound))
      else Ok(abspath)
  }

  /** `os.path.abspath` names the same location as the file name it was made from. */
  lemma AbsPathLocated(cwd: Location, filename: string)
    requires filename != []
    ensures Locate(cwd, AbsPath(cwd, filename)) == Locate(cwd, filename)
  {
    PathFacts.RenderRoundTrip(Resolve(Render(cwd), filename));
  }

  /** `os.rename` on two path strings. */
  function OsRename(t: Tree, cwd: Location, src: string, dst: string): Result<Tree, OsError> {
    if src == [] || dst == [] then Err(NotFound)
    else Rename(t, Locate(cwd, src).value, Locate(cwd, dst).value)
  }

  /**
    `File.rename(new_name, force_rewrite)`. The directory prefix is the
    stored path with `len(get_name())` characters cut off; the listing of
    that prefix decides a collision; whatever the branch, a successful
    call leaves the handle at prefix + `new_name`.
  */
  function RenameOutcome(t: Tree, cwd: Location, abspath: string, newName: string, force: bool): (o: Outcome)
    ensures o.result.Err? ==> o.tree == t && o.abspath == abspath && o.result.error.Os?
    ensures o.result.Ok? ==> o.abspath == DropLast(abspath, |Name(abspath)|) + newName
    ensures o.result.Ok? ==> o.result.value.names == (Name(abspath), newName)
    ensures o.result.Ok? ==> (o.result.value.status == Unchanged <==> Name(abspath) == newName)
    ensures o.tree != t ==> o.result.Ok? && o.result.value.status == Changed
  {
    var name := Name(abspath);
    var dir := DropLast(abspath, |name|);
    var target := dir + newName;
    if name == newName then Outcome(Ok(RenameResult(Unchanged, (name, name))), t, target)
    else match HasFile(t, cwd, dir, newName)
      case Err(e) => Outcome(Err(Os(e)), t, abspath)
      case Ok(taken) =>
        if taken && !force then Outcome(Ok(RenameResult(Collision, (name, newName))), t, target)
        else match OsRename(t, cwd, abspath, target)
          case Err(e) => Outcome(Err(Os(e)), t, abspath)
          case Ok(t1) => Outcome(Ok(RenameResult(Changed, (name, newName))), t1, target)
  }

  /** `File.normalize_filename(force_rewrite)`: rename to the sanitised name, refusing "", "." and "..". */
  function NormalizeOutcome(t: Tree, cwd: Location, abspath: string, force: bool): (o: Outcome)
    ensures Suspicious(Sanitize(Name(abspath))) ==> o == Outcome(Err(SuspiciousFileOperation), t, abspath)
    ensures !Suspicious(Sanitize(Name(abspath))) ==> o == RenameOutcome(t, cwd, abspath, Sanitize(Name(abspath)), force)
    ensures o.result.Ok? ==> o.result.value.names == (Name(abspath), Sanitize(Name(abspath)))
    ensures o.result.Ok? ==> AllAllowed(o.result.value.names.1)
  {
    var name := Name(abspath);
    var newName := Sanitize(name);
    if Suspicious(newName) then Outcome(Err(SuspiciousFileOperation), t, abspath)
    else RenameOutcome(t, cwd, abspath, newName, force)
  }

  /** `File.read()`: the content of a regular file, nothing otherwise. */
  function ReadContent(t: Tree, cwd: Location, abspath: string): (r: Option<string>)
    ensures r.Some? <==> IsFilePath(t, cwd, abspath)
    ensures r.Some? ==> t[Locate(cwd, abspath).value] == File(r.value)
  {
    if IsFilePath(t, cwd, abspath) then Some(t[Locate(cwd, abspath).value].content) else None
  }

  /** The filesystem the handles share, and the process's working directory. */
  class Disk {
    var tree: Tree
    const cwd: Location

    ghost predicate Valid()
      reads this
    {
      WellFormed(tree) && AllValid(cwd)
    }

    constructor (tree: Tree, cwd: Location)
      requires WellFormed(tree) && AllValid(cwd)
      ensures Valid() && this.tree == tree && this.cwd == cwd
    {
      this.tree := tree;
      this.cwd := cwd;
    }
  }

  class File {
    var abspath: string
    const disk: Disk

    constructor Init(disk: Disk, abspath: string)
      ensures this.disk == disk && this.abspath == abspath
    {
      this.disk := disk;
      this.abspath := abspath;
    }

    /** `File(filename, create_new)`. */
    static method Open(disk: Disk, filename: string, createNew: bool) returns (r: Result<File, Error>)
      ensures var spec := OpenPath(disk.tree, disk.cwd, filename, createNew);
        && (r.Ok? <==> spec.Ok?)
        && (r.Err? ==> r.error == spec.error)
        && (r.Ok? ==> fresh(r.value) && r.value.disk == disk && r.value.abspath == spec.value)
    {
      if filename == [] {
        return Err(ValueError);
      }
      var abspath := AbsPath(disk.cwd, filename);
      if !ExistsPath(disk.tree, disk.cwd, abspath) && !createNew {
        return Err(Os(NotFound));
      }
      var f := new File.Init(disk, abspath);
      r := Ok(f);
    }

    /** `File.rename(new_name, force_rewrite)`. */
    method Rename(newName: string, force: bool) returns (r: Result<RenameResult, Error>)
      requires disk.Valid()
      modifies this, disk
      ensures disk.Valid()
      ensures var o := RenameOutcome(old(disk.tree), disk.cwd, old(abspath), newName, force);
        r == o.result && disk.tree == o.tree && abspath == o.abspath
    {
      var fileName := Name(abspath);
      var procingDir := DropLast(abspath, |fileName|);
      var newAbspath := procingDir + newName;
      if fileName == newName {
        r := Ok(RenameResult(Unchanged, (fileName, fileName)));
      } else {
        var taken := HasFile(disk.tree, disk.cwd, procingDir, newName);
        if taken.Err? {
          return Err(Os(taken.error));
        }
        if taken.value && !force {
          r := Ok(RenameResult(Collision, (fileName, newName)));
        } else {
          var moved := OsRename(disk.tree, disk.cwd, abspath, newAbspath);
          if moved.Err? {
            return Err(Os(moved.error));
          }
          FileSystemFacts.RenameWellFormed(disk.tree, Locate(disk.cwd, abspath).value, Locate(disk.cwd, newAbspath).value);
          disk.tree := moved.value;
          r := Ok(RenameResult(Changed, (fileName, newName)));
        }
      }
      abspath := newAbspath;
    }

    /** `File.normalize_filename(force_rewrite)`. */
    method NormalizeFilename(force: bool) returns (r: Result<RenameResult, Error>)
      requires disk.Valid()
      modifies this, disk
      ensures disk.Valid()
      ensures var o := NormalizeOutcome(old(disk.tree), disk.cwd, old(abspath), force);
        r == o.result && disk.tree == o.tree && abspath == o.abspath
    {
      var name := Name(abspath);
      var newFilename := Sanitize(name);
      if Suspicious(newFilename) {
        return Err(SuspiciousFileOperation);
      }
      r := Rename(newFilename, force);
    }

    /** `File.read()`. */
    method Read() returns (r: Option<string>)
      ensures r == ReadContent(disk.tree, disk.cwd, abspath)
    {
      if IsFilePath(disk.tree, disk.cwd, abspath) {
        r := Some(disk.tree[Locate(disk.cwd, abspath).value].content);
      } else {
        r := None;
      }
    }
  }
}
