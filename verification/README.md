# filemanagement core, modelled in Dafny

This project models `src/filemanagement/core.py` of the `filemanagement` package, a small UNIX file-management layer. It covers:

- `has_file`: whether a directory listing holds a name.
- The `File` handle:
  - its construction from a file name and the process's working directory;
  - the name getters on the stored absolute path: base name (the `pathlib` stem), root and extension (`os.path.splitext`), name, and parent;
  - `rename`, with its `unchanged`/`collision`/`changed` policy;
  - `normalize_filename`: strip, spaces to underscores, and deletion of every character outside `[-\w.]`;
  - `update_filename_with_version_num`;
  - `read`.
- The `Directory` handle:
  - its construction, which takes a snapshot of the listing;
  - `normalize_filenames` over that snapshot;
  - `read`, which always raises.
- The two static tree walks:
  - `copy_tree`: a top-down `os.walk` that moves every file to its mirrored place and makes the mirrored subdirectories;
  - `remove_dir_recursively`: a bottom-up `os.walk` that deletes everything, then `os.rmdir` of the root of the walk.

## How it is organised

- **The filesystem is a value.** A `Tree` is a finite map from resolved locations to entries; a location is a list of path segments, and `[]` is "/". Entries are directories or files with text content. Well-formedness says every entry's parent is a directory. The POSIX calls the core makes are functions on a tree that return the new tree or the `OSError` they raise:
  - `os.listdir`;
  - `os.rename`/`os.replace`, modelled alike;
  - `os.makedirs(exist_ok=True)`;
  - `os.remove`;
  - `os.rmdir`.

  Each call has a lemma that states its effect on a well-formed tree.
- **Path strings are real strings.** `posixpath.join`, `dirname`, `basename`, `splitext`, `normpath` and `pathlib`'s `name`/`stem` are written out character by character, and a string resolves to a location through lexical normalisation.
- **Handles are classes over a shared disk.** A `Disk` object holds the tree and a fixed working directory. A `File` object holds its `abspath` and updates it in place, and a `Directory` object also holds its `fileList`.
- **Each handle operation has two forms.** First it is a function of the tree and the handle's state, which serves as its specification. Then it is a method that updates the disk and the handle, proved equal to that function.
- **The walks are recursive methods.** `os.walk` lists a directory as it arrives there, and the loop bodies never touch a directory the walk has not yet listed. So each walk is a recursive method that lists the current state at each root it visits. Each is proved against a predicate or function on the whole tree:
  - `Pruned`/`Erased` for removal;
  - `Mirrored`/`Frame` for copying.

## Behaviour worth knowing

- **Order in `copy_tree`.** `copy_tree` moves a directory's files *before* it makes that directory's subdirectories in the destination, and it makes no directory before the top-level files are tried. When nothing exists at the destination and no file lies on the way to it, each top-level `os.replace` raises `FileNotFoundError`, which is swallowed, so the top-level files stay where they are. The first `os.makedirs` of a subdirectory then creates the destination root as a missing ancestor, and everything deeper is moved. When the destination is a regular file, or lies below one, the first top-level `os.replace` raises `NotADirectoryError`, which is not swallowed. `Mirrored`'s `moveTop` flag states the first case, and `Skipped` separates it from the second.
- **Return value of `update_filename_with_version_num`.** It returns `new_name` unchanged when nothing collides. After a collision it returns the *path* `join(parent, <stem>_<k><ext>)`, not a bare name. The stem and the extension are the handle's own. A handle without an extension raises `TypeError` on a collision.
- **Name getters.** `get_name` glues `pathlib`'s stem to `splitext`'s extension. Under `pathlib`'s stem rule up to Python 3.13, the two disagree on names such as `..a` (reported as `.`) and `a.` (reported as `a..`). Renaming such a file "to its own name" then reports `unchanged` but moves the handle elsewhere (`RenameToSameNameMovesHandle`).
- **Trailing-dot names leave their directory.** `rename` builds the new path by slicing `len(get_name())` characters off `abspath`. For `/d/a.` the reported name `a..` is one character longer than the real name, so the slice also drops the separator, and the new path is `/d` followed directly by the new name (`TrailingDotLeavesDirectory`). `normalize_filename` on `/d/a b.` thus renames the file to `/da_b..`, outside its directory. On `/d/a.` it reports `unchanged` but leaves the handle at `/da..`.
- **Collisions move the handle.** `rename` updates `abspath` in every branch, including `collision`, where nothing on disk changes.

## Model

| member | source | states |
|---|---|---|
| Handles.HasFile | src/filemanagement/core.py:26-29 | succeeds exactly when the path is a directory; then true iff the name is one of its entries; otherwise `NotADirectoryError` when the path exists or a file lies on the way to it, and `FileNotFoundError` when it does not |
| Handles.Locate | src/filemanagement/core.py:47 | a path string reaches a location iff it is non-empty, and every segment reached is a proper name |
| HandleFacts.LocateAbsolute | src/filemanagement/core.py:47 | an absolute path resolves without the working directory |
| PathFacts.RenderRoundTrip | src/filemanagement/core.py:47 | the canonical absolute string of a location resolves back to that location, so `abspath` of an `abspath` is itself |
| PathFacts.JoinName | src/filemanagement/core.py:221 | `os.path.join(a, name)` for a proper name leads one level below where `a` leads, into `name` |
| PathFacts.SegmentsAppendName | src/filemanagement/core.py:116 | a name appended after a separator becomes the last segment of the location |
| Handles.OpenPath | src/filemanagement/core.py:41-52 | an empty file name, and only it, raises `ValueError`; `FileNotFoundError` is raised exactly when the name is non-empty, `create_new` is false and nothing exists at its absolute path; these are the only errors; on success the handle's path is `os.path.abspath` of the name and leads where the name leads |
| Handles.AbsPathLocated | src/filemanagement/core.py:47 | `os.path.abspath(os.path.join(os.getcwd(), filename))` names the same location as `filename` |
| Handles.File.Open | src/filemanagement/core.py:41-52 | the constructor succeeds or fails as `OpenPath` says, and a new handle holds `OpenPath`'s absolute path |
| Names.Extension | src/filemanagement/core.py:86-97 | the extension is absent iff `splitext` finds none; when present it starts with a dot and holds no separator; root followed by extension is the whole path |
| NameFacts.StemOfChild | src/filemanagement/core.py:59-65 | `Names.BaseName` (`get_base_name`): the base name of `dir/n` is `n` cut at its last dot when that dot is neither first nor last, else `n` |
| NameFacts.ExtensionOfChild | src/filemanagement/core.py:86-97 | the extension of `dir/n` is `n` from its last dot when a non-dot precedes that dot, else absent |
| NameFacts.NameOfChild | src/filemanagement/core.py:76-84 | `Names.Name` (`get_name`) of `dir/n` is `n` exactly when `n` is neither a leading-dots name like `..a` nor a trailing-dot name like `a.`, and what it is in those two cases |
| NameFacts.OrdinaryName | src/filemanagement/core.py:59-97 | for `dir/stem.suffix` with an ordinary stem: base name `stem`, extension `.suffix`, name `stem.suffix` |
| NameFacts.OrdinaryRoot | src/filemanagement/core.py:67-74 | `Names.Root` (`get_root`): the root of `dir/stem.suffix` is `dir/stem` |
| NameFacts.DotFileName | src/filemanagement/core.py:59-97 | a dot-file such as `.gitignore` has no extension, and its base name and name are the whole last name |
| NameFacts.ParentOfCanonical | src/filemanagement/core.py:99-105 | `Names.ParentName` (`get_parent_file_name`) of a canonical path is the canonical path of the parent location |
| HandleFacts.TrailingDotLeavesDirectory | src/filemanagement/core.py:110-116 | for `d/a.`, `get_name` reports `a..` and the path `rename` builds is `d` followed directly by the new name, outside directory `d` |
| NameFacts.RenamePrefixOfCanonical | src/filemanagement/core.py:110-116 | when `get_name` reports the last segment, cutting that many characters off leaves the parent's directory string, which leads to the parent |
| HandleFacts.ChildHandle | src/filemanagement/core.py:110-116 | for a handle `w + n` in directory `w`, `w` and `w + n` lead to the directory and to its child `n`, and for a plain name the cut directory prefix is `w` |
| Handles.RenameOutcome | src/filemanagement/core.py:107-144 | an error changes nothing and is an `OSError`; success moves the handle to prefix + `new_name` and reports `(name, new_name)`; `unchanged` iff the names are equal; the disk changes only with `changed` |
| Handles.File.Rename | src/filemanagement/core.py:107-144 | the method's result, disk and handle are those of `RenameOutcome`, and the disk stays well formed |
| HandleFacts.RenameToSameName | src/filemanagement/core.py:120-125 | renaming a plainly named file to its own name reports `unchanged`, changes nothing and keeps the handle |
| HandleFacts.SameNameOutcome | src/filemanagement/core.py:120-125 | renaming to the name `get_name` reports is always `unchanged` and leaves the disk alone |
| HandleFacts.RenameToSameNameMovesHandle | src/filemanagement/core.py:110-142 | for a leading-dots name, renaming to the reported name says `unchanged` and changes no entry, yet the handle's path changes |
| HandleFacts.RenameCollision | src/filemanagement/core.py:126-131 | without `force_rewrite`, a taken name reports `collision`, leaves the disk as it was, and still moves the handle to the new name |
| HandleFacts.RenameFileChanged | src/filemanagement/core.py:132-142 | a file renamed to a free name, or forced onto another file, reports `changed`; its content moves to the new name and the old name is gone |
| HandleFacts.RenameDirChanged | src/filemanagement/core.py:132-142 | a directory renamed to a free name reports `changed` and its whole subtree moves |
| HandleFacts.RenameKeepsWellFormed | src/filemanagement/core.py:107-144 | whatever the branch, the filesystem stays well formed |
| FileSystemFacts.RenameFile | src/filemanagement/core.py:134 | `os.rename` of a file to a place that is not a directory removes the source and puts its content at the destination |
| FileSystemFacts.RenameDir | src/filemanagement/core.py:134 | `os.rename` of a directory to a free place outside itself moves its subtree |
| FileSystemFacts.RenameMoves | src/filemanagement/core.py:134 | `FileSystem.Rename`: a successful `os.rename` keeps everything outside source and destination, and puts at each place below the destination what was at the same place below the source |
| FileSystemFacts.RenameWellFormed | src/filemanagement/core.py:134 | a successful `os.rename` keeps the tree well formed |
| Sanitization.StripLeft | src/filemanagement/core.py:151 | the result is a suffix of the input, does not start with whitespace, and only whitespace was removed |
| Sanitization.StripRight | src/filemanagement/core.py:151 | the result is a prefix of the input, does not end with whitespace, and only whitespace was removed |
| Sanitization.StripInfix | src/filemanagement/core.py:151 | every character of `strip()`'s result occurs in the input |
| Sanitization.ReplaceSpaces | src/filemanagement/core.py:151 | same length; every space becomes `_` and every other character stays |
| Sanitization.KeepAllowed | src/filemanagement/core.py:152 | the result consists of allowed characters only and is no longer than the input |
| Sanitization.KeepAllowedMultiset | src/filemanagement/core.py:152 | the kept characters and the deleted ones together are exactly the characters of the input |
| Sanitization.KeepAllowedConcat | src/filemanagement/core.py:152 | the deletion distributes over concatenation |
| Sanitization.KeepAllowedClean | src/filemanagement/core.py:152 | a string of allowed characters is left as it is |
| Sanitization.Sanitize | src/filemanagement/core.py:151-152 | the sanitised name has only allowed characters and no space |
| Sanitization.SanitizeClean | src/filemanagement/core.py:151-152 | a name of allowed characters is its own sanitised form |
| Sanitization.SanitizeIdempotent | src/filemanagement/core.py:151-152 | sanitising twice is sanitising once |
| Sanitization.SanitizeExample | src/filemanagement/core.py:151-152 | `My File (final)!.txt` becomes `My_File_final.txt` |
| Sanitization.SanitizeNothingAllowed | src/filemanagement/core.py:151-154 | a name without spaces and without any allowed character sanitises to the empty string, which is refused |
| Sanitization.SanitizeStars | src/filemanagement/core.py:151-154 | `***` is refused |
| HandleFacts.SanitizedValid | src/filemanagement/core.py:151-156 | a sanitised name that is not refused is a proper file name |
| Handles.NormalizeOutcome | src/filemanagement/core.py:146-156 | a refused name raises `SuspiciousFileOperation` and changes nothing; otherwise the outcome is exactly `rename` to the sanitised name, with the same `force_rewrite`, and the reported new name holds only allowed characters |
| Handles.File.NormalizeFilename | src/filemanagement/core.py:146-156 | the method's result, disk and handle are those of `NormalizeOutcome` |
| HandleFacts.NormalizeClean | src/filemanagement/core.py:146-156 | a file whose name is already clean reports `unchanged` and nothing moves |
| HandleFacts.NormalizeTwice | src/filemanagement/core.py:146-156 | for a name whose sanitised form `get_name` reports whole, a second call after a successful one reports `unchanged` and changes nothing more |
| Versioning.NatToString | src/filemanagement/core.py:168 | `str(n)`: non-empty, decimal digits only, one digit iff `n < 10` |
| Versioning.NatToStringValue | src/filemanagement/core.py:168 | `int(str(n)) == n`: the digits written for `n` denote `n` |
| Versioning.NatToStringInjective | src/filemanagement/core.py:168 | different version numbers are written differently |
| Versioning.LongDigits | src/filemanagement/core.py:168 | a number of at least `10^L` has more than `L` digits |
| Versioning.VersionName | src/filemanagement/core.py:168 | the proposed `<stem>_<k><ext>` is a proper name and longer than the digits of `k` |
| Versioning.VersionedName | src/filemanagement/core.py:158-173 | no collision returns `new_name` itself; a collision without an extension raises `TypeError`, the only error; a result other than `new_name` needs an extension |
| Versioning.OrdinaryCandidate | src/filemanagement/core.py:166-171 | for `d/stem.suffix`, version `k` is proposed as `d/stem_k.suffix` (`/d/report.pdf` gives `/d/report_1.pdf`) |
| Versioning.OrdinaryVersions | src/filemanagement/core.py:158-173 | with `d/stem.suffix` a file, asking for that name again gives `d/stem_1.suffix` when it is free, and `d/stem_2.suffix` when only version 1 is taken |
| Versioning.NextAbsent | src/filemanagement/core.py:165-171 | past a bound set by the longest name in the tree, the next candidate names no file, so the recursion ends |
| Versioning.CandidateRechecked | src/filemanagement/core.py:170-171 | joining the parent onto a candidate path again gives the candidate path, so each recursive call checks the candidate itself |
| Versioning.VersionedStep | src/filemanagement/core.py:165-171 | on a collision the call continues with the candidate for the next number |
| Versioning.VersionedFirstFree | src/filemanagement/core.py:158-173 | on a collision the result is the candidate for the first number above `v_num` that is not a file, and every candidate before it is a file |
| Directories.OpenDirPath | src/filemanagement/core.py:202-207 | succeeds iff the file handle opens and names a directory; then its path is the handle's; errors are `ValueError`, `FileNotFoundError` or `NotADirectoryError` |
| Directories.ListingOrder | src/filemanagement/core.py:209 | the list holds every name of the directory exactly once |
| Directories.Directory.Open | src/filemanagement/core.py:202-209 | the constructor succeeds or fails as `OpenDirPath` says, and a new handle holds the directory's listing as it was |
| Directories.EntryOutcome | src/filemanagement/core.py:221-223 | an entry that raises leaves the disk alone; a logged entry's new name has only allowed characters |
| Directories.Batch | src/filemanagement/core.py:218-227 | a batch that completes logs exactly one result per listed name |
| Directories.BatchSplits | src/filemanagement/core.py:218-227 | the batch over `a + b` is the batch over `a`, then, only if that completed, the batch over `b` on the resulting disk |
| Directories.BatchErrorFromEntry | src/filemanagement/core.py:218-227 | a batch that raises does so at one entry; every entry before it went through, and the disk is left as that entry left it |
| Directories.BatchLogsClean | src/filemanagement/core.py:218-227 | every name in the change log of a completed batch has only allowed characters |
| Directories.Directory.NormalizeFilenames | src/filemanagement/core.py:211-227 | the loop's result and the disk after it are those of `Batch` over the snapshot, and the disk stays well formed |
| Handles.ReadContent | src/filemanagement/core.py:175-183 | content is returned iff the path is a regular file, and it is that file's content |
| Handles.File.Read | src/filemanagement/core.py:175-183 | the method returns `ReadContent` of the current disk and handle |
| Directories.Directory.Read | src/filemanagement/core.py:237-238 | reading a directory handle always raises `IOError` |
| Walks.SubdirNames | src/filemanagement/core.py:270 | `os.walk` lists as subdirectories exactly the children that are directories |
| Walks.FileNames | src/filemanagement/core.py:270 | `os.walk` lists as files exactly the children that are files |
| Walks.CutDeepAt | src/filemanagement/core.py:270 | walking into the subdirectories in turn deletes exactly what lies below them and keeps the rest unchanged |
| Walks.DropAt | src/filemanagement/core.py:271-274 | the deletion loops delete exactly the listed children and keep the rest unchanged |
| Walks.RemoveFiles | src/filemanagement/core.py:271-272 | `os.remove` of each listed file leaves the tree with exactly those children dropped |
| Walks.RemoveDirs | src/filemanagement/core.py:273-274 | `os.rmdir` of each emptied subdirectory leaves the tree with exactly those children dropped |
| Walks.PurgeSubdirs | src/filemanagement/core.py:270 | the bottom-up walk of each subdirectory in turn empties it |
| Walks.CutAll | src/filemanagement/core.py:270-274 | emptying every subdirectory, removing every file and then every subdirectory deletes exactly what lies below the walked directory |
| Walks.Purge | src/filemanagement/core.py:270-274 | the walk of a directory deletes everything strictly below it, raises nothing and changes nothing else |
| Walks.PrunedEmpty | src/filemanagement/core.py:275 | after the walk, the walked directory is empty |
| Walks.PrunedThenErased | src/filemanagement/core.py:270-275 | deleting everything below and then the directory itself removes exactly the subtree |
| Walks.ErasedWellFormed | src/filemanagement/core.py:264-276 | removing a whole subtree keeps the tree well formed |
| FileSystemFacts.RemoveEffect | src/filemanagement/core.py:272 | `FileSystem.Remove`: `os.remove` deletes exactly a file; a directory raises `IsADirectoryError`; a missing path raises the lookup's error (`MissingError`) |
| FileSystemFacts.RmdirEffect | src/filemanagement/core.py:274-275 | `FileSystem.Rmdir`: `os.rmdir` succeeds exactly on an empty directory other than the root, and deletes only it; otherwise the lookup's error for a missing path, `NotADirectoryError` for a file, `EBUSY` for the root, `ENOTEMPTY` for a directory with entries |
| FileSystemFacts.MissingErrorMeaning | src/filemanagement/core.py:29 | a system call on a missing path raises `NotADirectoryError` exactly when a file lies on the way to it, and `FileNotFoundError` otherwise |
| Walks.RemovalSteps | src/filemanagement/core.py:270-275 | `Walks.RemovalOutcome`: emptying the path when it is a directory, then `os.rmdir`, gives exactly the intended outcome: a missing path raises the lookup's error (`NotADirectoryError` below a file, else `FileNotFoundError`), a file `NotADirectoryError`, the root `EBUSY` after being emptied, and any other directory goes with its subtree |
| Walks.RemovalOutcomeEffect | src/filemanagement/core.py:264-276 | `Walks.RemovalOutcome` succeeds exactly on a directory other than the root, and then deletes everything at or below it and nothing else; it only ever deletes; every failure except `EBUSY` leaves the tree as it was |
| Walks.RemoveDirRecursively | src/filemanagement/core.py:264-276 | the method's error and the tree it leaves are that outcome, and the tree stays well formed |
| FileSystemFacts.MakeDirEffect | src/filemanagement/core.py:259-260 | `os.mkdir` as `makedirs` calls it creates exactly the directory, only where its parent is a directory, and accepts an existing directory |
| FileSystemFacts.MakeDirsEffect | src/filemanagement/core.py:259-260 | `FileSystem.MakeDirs`: `os.makedirs(exist_ok=True)` succeeds iff no prefix of the path is a file; `FileExistsError` when the path itself is a file, else `NotADirectoryError`; on success it only adds directories on the way to the path, the path among them |
| CopyTrees.MovesAt | src/filemanagement/core.py:250-253 | after the first `k` moves, exactly the moved children of the source are gone and the same names under the destination hold their content; everything else is unchanged |
| CopyTrees.SkippedMeaning | src/filemanagement/core.py:251-257 | the `FileNotFoundError` that the files loop swallows arises exactly when nothing is at the destination and no file lies on the way to it |
| CopyTrees.MoveStep | src/filemanagement/core.py:251-257 | one `os.replace` moves the file when the destination is a directory, or fails with `FileNotFoundError` and changes nothing, which happens only when nothing is at the destination and no file lies on the way to it; any other error is one `copy_tree` lets through |
| CopyTrees.ReplaceOrSkip | src/filemanagement/core.py:251-257 | one pass of the files loop, with `FileNotFoundError` swallowed, gives the next stage of the moves or an error `copy_tree` lets through; it goes on only when the destination is a directory or skipped |
| CopyTrees.MoveFiles | src/filemanagement/core.py:250-257 | the files loop moves every listed file to the same name under the destination when that is a directory, and otherwise changes nothing; with at least one file, it succeeds only when the destination is a directory or skipped |
| CopyTrees.GrownStep | src/filemanagement/core.py:258-260 | each `os.makedirs` keeps every existing entry and adds directories only on the way to the destination or as its listed children |
| CopyTrees.MakeMirrors | src/filemanagement/core.py:258-260 | the subdirectories loop makes every listed subdirectory under the destination and adds only directories; it raises only `FileExistsError` or `NotADirectoryError` |
| CopyTrees.PreparedStages | src/filemanagement/core.py:250-260 | the files loop followed by the subdirectories loop moves the top-level files (when the destination is a directory), makes the mirrors, and keeps everything else |
| CopyTrees.SubvisitReady | src/filemanagement/core.py:247 | before the walk enters a subdirectory, it and its mirror are directories and its subtree is smaller than the current one, so the walk ends |
| CopyTrees.CopiedStep | src/filemanagement/core.py:247 | a finished walk of one more subdirectory extends what has been mirrored by that subdirectory |
| CopyTrees.VisitSubdirs | src/filemanagement/core.py:247 | walking the listed subdirectories in turn mirrors each into the child of the same name under the destination |
| CopyTrees.ComposedFrame | src/filemanagement/core.py:247-260 | a visit changes nothing outside the source and destination subtrees; what it adds lies below the destination or is a directory on the way to it |
| CopyTrees.Composed | src/filemanagement/core.py:247-260 | the files loop, the subdirectories loop and the walks below add up to a mirrored subtree and an unchanged rest |
| CopyTrees.Visit | src/filemanagement/core.py:247-260 | a visit moves every file below the source to its mirrored place with its content, except that top-level files stay when the destination was not a directory, which a success with top-level files allows only when nothing was there and no file lay on the way; every directory stays and is mirrored by a directory; nothing else changes; errors are `NotADirectoryError`, `IsADirectoryError` or `FileExistsError` |
| CopyTrees.DestinationChild | src/filemanagement/core.py:253 | `os.path.join(destination_path, "", name)` leads to the child `name` of where the destination leads, or of the working directory when the destination is empty, with or without a trailing slash |
| CopyTrees.CopyTree | src/filemanagement/core.py:240-261 | a source that is not a directory yields nothing to walk and changes nothing; otherwise a success leaves the source mirrored under the destination and the rest unchanged, and with top-level files it needs the destination to be a directory or missing with no file on the way; errors are those of a visit |

## Left out

- Logging (`logger.*`), the `print` calls in `copy_tree` and `remove_dir_recursively`, and `__repr__`: they have no effect on the filesystem or on results.
- `numpy`, `add_background` (which raises `NotImplementedError`), and the image and structured-data file types are not part of this model.
- `src/filemanagement/exceptions.py` is not part of this model; `SuspiciousFileOperation` is one variant of the error type.
- The `encoding` argument of `File.read`: file content is modelled as text that is already decoded, so decoding errors are not modelled.
- `Directory` inherits every `File` method in the source; only its constructor, `normalize_filenames`, `read` and the two static walks are modelled on the directory class. The file-handle methods apply to any handle.
- Sanitization.IsWordChar: `\w` is restricted to ASCII letters, digits and `_`. Sanitization.IsSpace: `str.strip()`'s whitespace is restricted to ASCII. Both are because Unicode categories are not available.
- Symbolic links: paths are resolved lexically, as `os.path.abspath` does, and there are no links, so `..` through a link and the walks' handling of linked directories are not modelled.
- Handles.Locate: the system calls that receive a path which is not yet absolute or not yet normalised (`has_file`'s `os.listdir`, `os.rename`, `os.rmdir(dir_path)`, `os.walk`, `os.replace`, `os.makedirs`) resolve it lexically too. The kernel resolves `..` step by step, so `missing/..` and `file/..` fail there with `FileNotFoundError` and `NotADirectoryError`, while the model reaches the parent. For example, `remove_dir_recursively("nope/../d")` raises in Python but deletes `d` in the model. This also covers `rename`'s target `procing_dir + new_name` when `new_name` holds `/`, `.` or `..`: with `/d/x` missing, `rename("x/../y")` on a handle for `/d/f.txt` raises `FileNotFoundError` in Python, while the model moves the file to `/d/y` and stores `/d/x/../y` as the handle's path. Likewise, `rename("..")` on `/d/e/f.txt` raises `EBUSY` in Python, because the target ends in `..`, while the model resolves the target to `/d` and raises `IsADirectoryError`.
- Names.BaseName: `Path.stem` follows `pathlib`'s rule up to Python 3.13: the name is cut at its last dot when that dot is neither its first nor its last character. Later versions treat a final single dot as a suffix, so names such as `a.` split differently there, and what the name getters report for them differs accordingly.
- The POSIX rule that a path starting with exactly two slashes keeps them in `normpath` is not modelled; such paths resolve like single-slash ones.
- `os.listdir`'s order is chosen arbitrarily (`ListingOrder`), not as any particular system chooses it.
- Errors `os.walk` swallows while listing (permission errors, say): every listing succeeds in the model, since the model has no permissions.
- The order in which the kernel checks error conditions when several apply at once is one fixed order per call (`FileSystem.Rename`, `MakeDir`, `Remove`, `Rmdir`).
- Permissions, ownership, timestamps and concurrent changes by other processes are not modelled.
- `normalize_filenames`'s `force_rewrite=None` default is modelled as `false`, to which it behaves alike.
- Versioning.VersionedName: Python's recursion limit is not modelled. Each collision is one more recursive call, so after about a thousand taken versions the source raises `RecursionError`, while the model goes on to the first free version.
- Directories.Directory.Read: the source declares `read(self, _)`, so a call without an argument raises `TypeError` before the body runs. The model takes no argument and only models the call with one, which raises `IOError`.
- `update_filename_with_version_num`'s recursion is a function of the disk. Its first-free-candidate property (`VersionedFirstFree`) is proved for handles with an absolute path, which every constructed handle has.
- CopyTrees.CopyTree: requires that the source and destination locations are disjoint (neither at or below the other). With overlapping trees the walk descends into what it has just created, and with the destination inside the source it need not end.
- CopyTrees.CopyTree: on an error it states only which errors can occur, not which files had already been moved before it.
- CopyTrees.Frame: says nothing about entries already below the destination that are not the image of a moved file or directory. They may be replaced by moved files; the model states where each moved file ends up, not what else survives below the destination.
- Walk paths: the `root` strings `os.walk` yields, and `new_root` in `copy_tree`, are modelled as locations, namely the walked location followed by the listed names, rather than as strings.
