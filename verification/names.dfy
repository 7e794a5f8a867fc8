/**
  Name decomposition of a file handle (core.py, `File.get_*`): every getter is
  a function of the stored absolute path. Two library conventions meet here:
  the base name is `pathlib`'s stem, while the root and the extension come
  from `os.path.splitext`; the name glues the first to the second.
*/
module Names {
  import opened Wrappers
  import opened Paths

  /** `File.get_base_name`: the stem of the path's last component. */
  function BaseName(abspath: string): string {
    Stem(abspath)
  }

  /** `File.get_root`: the path without its extension. */
  function Root(abspath: string): string {
    SplitExt(abspath).0
  }

  /** `File.get_extension`: the extension with its leading dot, or None when `splitext` finds none. */
  function Extension(abspath: string): (r: Option<string>)
    ensures r.Some? ==> r.value != [] && r.value[0] == '.' && '/' !in r.value
    ensures r.Some? <==> Root(abspath) != abspath
    ensures Root(abspath) + (if r.Some? then r.value else []) == abspath
  {
    var ext := SplitExt(abspath).1;
    if ext == [] then None else Some(ext)
  }

  /** `File.get_name`: the base name, followed by the extension when there is one. */
  function Name(abspath: string): string {
    match Extension(abspath)
    case Some(ext) => BaseName(abspath) + ext
    case None => BaseName(abspath)
  }

  /** `File.get_parent_file_name`: `os.path.dirname` of the path. */
  function ParentName(abspath: string): string {
    Dirname(abspath)
  }

  /**
    Where the two conventions disagree on a last component `n` whose last dot
    is at `i`: the stem stops at a dot that `splitext` does not treat as an
    extension ("..a"), or `splitext` takes a trailing dot that the stem keeps
    ("a.").
  */
  predicate StemCutsLeadingDots(n: string) {
    var i := RFind(n, '.');
    0 < i < |n| - 1 && !HasNonDot(n, 0, i)
  }

  predicate SplitTakesTrailingDot(n: string) {
    var i := RFind(n, '.');
    0 < i && i == |n| - 1 && HasNonDot(n, 0, i)
  }
}
