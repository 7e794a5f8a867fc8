/**
  The directory handle of core.py: a `Directory` is opened like a file
  handle, must name a directory, and keeps the listing it saw when it was
  opened (`file_list`). `normalize_filenames` opens a file handle on every
  listed name in turn and normalises it; the first exception ends the
  batch, keeping the renames made before it.
*/
module Directories {
  import opened Wrappers
  import opened Paths
  import opened Names
  import opened Sanitization
  import opened FileSystem
  import opened Handles
  import HandleFacts

  /** `Directory(filename)`: the handle's `abspath`, or the error the constructor raises. */
  function OpenDirPath(t: Tree, cwd: Location, filename: string): (r: Result<string, Error>)
    ensures r.Ok? <==> OpenPath(t, cwd, filename, false).Ok? && IsDirPath(t, cwd, OpenPath(t, cwd, filename, false).value)
    ensures r.Ok? ==> r.value == OpenPath(t, cwd, filename, false).value
    ensures r.Err? ==> r.error in {ValueError, Os(NotFound), Os(NotADirectory)}
  {
    match OpenPath(t, cwd, filename, false)
    case Err(e) => Err(e)
    case Ok(abspath) => if IsDirPath(t, cwd, abspath) then Ok(abspath) else Err(Os(NotADirectory))
  }

  /** `xs` lists the names of `s`, each once. */
  ghost predicate IsListing(xs: seq<string>, s: set<string>) {
    && (forall x :: x in xs <==> x in s)
    && (forall i, j :: 0 <= i < j < |xs| ==> xs[i] != xs[j])
  }

  /** `os.listdir` as a list: the names of a directory in an order the system chooses. */
  method ListingOrder(s: set<string>) returns (xs: seq<string>)
    ensures IsListing(xs, s)
    ensures |xs| == |s|
  {
    xs := [];
    var rest := s;
    while rest != {}
      invariant rest <= s
      invariant forall x :: x in xs <==> x in s - rest
      invariant forall i, j :: 0 <= i < j < |xs| ==> xs[i] != xs[j]
      invariant |xs| + |rest| == |s|
      decreases |rest|
    {
      var x :| x in rest;
      xs := xs + [x];
      rest := rest - {x};
    }
  }

  /** One entry of the batch: open a file handle on `path`, then normalise it. */
  function EntryOutcome(t: Tree, cwd: Location, path: string, force: bool): (o: Outcome)
    ensures o.result.Err? ==> o.tree == t
    ensures o.result.Ok? ==> AllAllowed(o.result.value.names.1)
  {
    match OpenPath(t, cwd, path, false)
    case Err(e) => Outcome(Err(e), t, path)
    case Ok(abspath) => NormalizeOutcome(t, cwd, abspath, force)
  }

  /** What is done to each listed entry, as a function of the filesystem and the entry's path. */
  type Step = (Tree, string) -> Outcome

  function Entries(cwd: Location, force: bool): Step {
    (t: Tree, path: string) => EntryOutcome(t, cwd, path, force)
  }

  /** The result of a batch (the change log, or the exception that ended it) and the filesystem after it. */
  datatype Run = Run(result: Result<seq<RenameResult>, Error>, tree: Tree)

  /** A run that follows the entries logged in `log`. */
  function Resume(log: seq<RenameResult>, run: Run): (r: Run)
    ensures r.tree == run.tree && r.result.Ok? == run.result.Ok?
    ensures r.result.Ok? ==> r.result.value == log + run.result.value
    ensures r.result.Err? ==> r == run
  {
    if run.result.Ok? then Run(Ok(log + run.result.value), run.tree) else run
  }

  /** The loop of `normalize_filenames` over the listed `names` of directory `dir`, with `step` done to each. */
  function Batch(step: Step, t: Tree, dir: string, names: seq<string>): (r: Run)
    ensures r.result.Ok? ==> |r.result.value| == |names|
    decreases |names|
  {
    if names == [] then Run(Ok([]), t)
    else
      var o := step(t, Join(dir, names[0]));
      match o.result
      case Err(e) => Run(Err(e), o.tree)
      case Ok(entry) => Resume([entry], Batch(step, o.tree, dir, names[1..]))
  }

  /**
    The batch over `a + b` is the batch over `a`, then, only if that
    succeeded, the batch over `b` from the filesystem `a` left: an
    exception raised for an entry leaves every later entry untouched.
  */
  lemma {:induction false} BatchSplits(step: Step, t: Tree, dir: string, a: seq<string>, b: seq<string>)
    ensures var ra := Batch(step, t, dir, a);
      Batch(step, t, dir, a + b)
        == if ra.result.Err? then ra else Resume(ra.result.value, Batch(step, ra.tree, dir, b))
    decreases |a|
  {
    if a == [] {
      assert a + b == b;
      var rb := Batch(step, t, dir, b);
      if rb.result.Ok? {
        assert [] + rb.result.value == rb.result.value;
      }
    } else {
      assert (a + b)[0] == a[0];
      assert (a + b)[1..] == a[1..] + b;
      var o := step(t, Join(dir, a[0]));
      if o.result.Ok? {
        BatchSplits(step, o.tree, dir, a[1..], b);
        var ra := Batch(step, o.tree, dir, a[1..]);
        if ra.result.Ok? {
          var rb := Batch(step, ra.tree, dir, b);
          if rb.result.Ok? {
            assert [o.result.value] + (ra.result.value + rb.result.value) == ([o.result.value] + ra.result.value) + rb.result.value;
          }
        }
      }
    }
  }

  /**
    The entries before `i` go through, and entry `i` raises the exception
    that the whole batch raises, from the filesystem the earlier entries
    left, which is also the filesystem the batch leaves.
  */
  predicate FailsAt(step: Step, t: Tree, dir: string, names: seq<string>, i: int)
    requires 0 <= i < |names|
  {
    var before := Batch(step, t, dir, names[..i]);
    var o := step(before.tree, Join(dir, names[i]));
    var run := Batch(step, t, dir, names);
    && before.result.Ok?
    && o.result.Err? && run.result == Err(o.result.error)
    && run.tree == o.tree
  }

  /** A batch that raises does so for one entry, after all the entries before it went through. */
  lemma {:induction false} BatchErrorFromEntry(step: Step, t: Tree, dir: string, names: seq<string>)
    requires Batch(step, t, dir, names).result.Err?
    ensures exists i :: 0 <= i < |names| && FailsAt(step, t, dir, names, i)
    decreases |names|
  {
    var o := step(t, Join(dir, names[0]));
    assert names[..0] == [];
    if o.result.Ok? {
      var rest := names[1..];
      BatchErrorFromEntry(step, o.tree, dir, rest);
      var i :| 0 <= i < |rest| && FailsAt(step, o.tree, dir, rest, i);
      assert names[..i + 1][0] == names[0] && names[..i + 1][1..] == rest[..i];
      assert names[i + 1] == rest[i];
      assert FailsAt(step, t, dir, names, i + 1);
    } else {
      assert FailsAt(step, t, dir, names, 0);
    }
  }

  /** `step` only ever logs names made of allowed characters. */
  ghost predicate LogsClean(step: Step) {
    forall t, p :: step(t, p).result.Ok? ==> AllAllowed(step(t, p).result.value.names.1)
  }

  lemma EntriesLogClean(cwd: Location, force: bool)
    ensures LogsClean(Entries(cwd, force))
  {
    forall t, p
      ensures Entries(cwd, force)(t, p).result.Ok? ==> AllAllowed(Entries(cwd, force)(t, p).result.value.names.1)
    {
      var o := EntryOutcome(t, cwd, p, force);
    }
  }

  /** Every name in the change log of a batch of such steps consists of allowed characters only. */
  lemma {:induction false} BatchLogsClean(step: Step, t: Tree, dir: string, names: seq<string>)
    requires LogsClean(step)
    ensures var r := Batch(step, t, dir, names);
      r.result.Ok? ==> forall i :: 0 <= i < |r.result.value| ==> AllAllowed(r.result.value[i].names.1)
    decreases |names|
  {
    if names != [] {
      var o := step(t, Join(dir, names[0]));
      if o.result.Ok? {
        BatchLogsClean(step, o.tree, dir, names[1..]);
      }
    }
  }

  /** One turn of the loop of `normalize_filenames`. */
  lemma BatchStep(cwd: Location, force: bool, t: Tree, dir: string, names: seq<string>, o: Outcome)
    requires names != [] && o == EntryOutcome(t, cwd, Join(dir, names[0]), force)
    ensures Batch(Entries(cwd, force), t, dir, names)
      == if o.result.Err? then Run(Err(o.result.error), o.tree) else Resume([o.result.value], Batch(Entries(cwd, force), o.tree, dir, names[1..]))
  {
  }

  /** A directory handle: a file handle on a directory together with the listing it took when opened. */
  class Directory {
    var abspath: string
    const disk: Disk
    var fileList: seq<string>

    constructor Init(disk: Disk, abspath: string, fileList: seq<string>)
      ensures this.disk == disk && this.abspath == abspath && this.fileList == fileList
    {
      this.disk := disk;
      this.abspath := abspath;
      this.fileList := fileList;
    }

    /** `Directory(filename)`: a file handle that must name a directory, and the names listed in it at that moment. */
    static method Open(disk: Disk, filename: string) returns (r: Result<Directory, Error>)
      ensures var spec := OpenDirPath(disk.tree, disk.cwd, filename);
        && (r.Ok? <==> spec.Ok?)
        && (r.Err? ==> r.error == spec.error)
        && (r.Ok? ==>
              && fresh(r.value) && r.value.disk == disk && r.value.abspath == spec.value
              && IsListing(r.value.fileList, Children(disk.tree, Locate(disk.cwd, spec.value).value)))
    {
      var file := File.Open(disk, filename, false);
      if file.Err? {
        return Err(file.error);
      }
      var abspath := file.value.abspath;
      if !IsDirPath(disk.tree, disk.cwd, abspath) {
        return Err(Os(NotADirectory));
      }
      var names := ListDir(disk.tree, Locate(disk.cwd, abspath).value);
      var fileList := ListingOrder(names.value);
      var d := new Directory.Init(disk, abspath, fileList);
      r := Ok(d);
    }

    /** `Directory.normalize_filenames(force_rewrite)`. */
    method NormalizeFilenames(force: bool) returns (r: Result<seq<RenameResult>, Error>)
      requires disk.Valid()
      modifies disk
      ensures disk.Valid()
      ensures var run := Batch(Entries(disk.cwd, force), old(disk.tree), abspath, fileList);
        r == run.result && disk.tree == run.tree
    {
      var changeLog: seq<RenameResult> := [];
      var i := 0;
      assert fileList[i..] == fileList;
      ResumeNothing(Batch(Entries(disk.cwd, force), disk.tree, abspath, fileList));
      while i < |fileList|
        invariant 0 <= i <= |fileList|
        invariant disk.Valid()
        invariant Batch(Entries(disk.cwd, force), old(disk.tree), abspath, fileList)
          == Resume(changeLog, Batch(Entries(disk.cwd, force), disk.tree, abspath, fileList[i..]))
      {
        var rest := fileList[i..];
        assert rest[0] == fileList[i] && rest[1..] == fileList[i + 1..];
        var path := Join(abspath, fileList[i]);
        ghost var before := disk.tree;
        ghost var o := EntryOutcome(before, disk.cwd, path, force);
        BatchStep(disk.cwd, force, before, abspath, rest, o);
        var handle := File.Open(disk, path, false);
        if handle.Err? {
          assert o.result == Err(handle.error);
          return Err(handle.error);
        }
        var file := handle.value;
        assert o == NormalizeOutcome(before, disk.cwd, file.abspath, force);
        var result := file.NormalizeFilename(force);
        if result.Err? {
          return Err(result.error);
        }
        ResumeAppend(changeLog, result.value, Batch(Entries(disk.cwd, force), disk.tree, abspath, fileList[i + 1..]));
        changeLog := changeLog + [result.value];
        i := i + 1;
      }
      assert fileList[i..] == [];
      BatchDone(Entries(disk.cwd, force), disk.tree, abspath, changeLog);
      r := Ok(changeLog);
    }

    /** `Directory.read(_)`: reading a directory always raises `IOError`. */
    method Read() returns (r: Result<string, Error>)
      ensures r == Err(IOError)
    {
      r := Err(IOError);
    }
  }

  /** Proof step for `NormalizeFilenames`: once every entry is handled, the run is the change log so far. */
  lemma BatchDone(step: Step, t: Tree, dir: string, log: seq<RenameResult>)
    ensures Resume(log, Batch(step, t, dir, [])) == Run(Ok(log), t)
  {
    assert log + [] == log;
  }

  lemma ResumeNothing(run: Run)
    ensures Resume([], run) == run
  {
    if run.result.Ok? {
      assert [] + run.result.value == run.result.value;
    }
  }

  lemma ResumeAppend(log: seq<RenameResult>, entry: RenameResult, run: Run)
    ensures Resume(log, Resume([entry], run)) == Resume(log + [entry], run)
  {
    if run.result.Ok? {
      assert log + ([entry] + run.result.value) == log + [entry] + run.result.value;
    }
  }
}
