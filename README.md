# Datum placement engine in Dafny

Datum copies photographs from an input tree into an output tree of date directories.
This project models the part of class `Datum` that decides where each file lands and keeps
duplicates apart. It proves what that decision guarantees.

- `Datum._copy_file` copies a source file to a target directory under a target name.
  - It redirects the file once, into the sub-directory `"datum_duplicates <md5>"`, in two
    cases: the file's MD5 digest is already recorded for a target directory that is not a
    duplicates directory, or a file already exists at the target path.
  - The redirected name is `"<md5><ext>"`, enumerated `"<md5>-0<ext>"`, `"<md5>-1<ext>"`, …
    until it names no existing file.
  - Only a successful copy records the digest in the per-directory digest index.
- `get_file_md5` caches digests under Python's `hash()` of the path.
- `get_md5_filename`, `get_enumerated_filename`, `get_duplicate_directory_name` and
  `is_duplicates_directory` are the naming helpers.

Files:

- `wrappers.dfy`: the `Option` type.
- `pylib.dfy`: the Python library pieces the engine relies on. These are
  `posixpath.join` of two arguments, `posixpath.splitext`, `str.find` and the decimal
  formatting of a non-negative integer.
- `filesystem.dfy`: class `Filesystem`, the regular files as a mutable map from path to bytes.
  It provides the `isfile` test, reading a file, and a copy step that may fail.
- `datum.dfy`: class `Datum` with its two dictionaries and its methods. It also holds the
  specification functions the methods are proved against: `EnumeratedFilename`,
  `Destination`, `CachedDigest`, `Placed` and `CopyFileEffect`.
- `datum_properties.dfy`: lemmas about one `_copy_file` call and about two successive calls.

Abstractions:

- MD5 and `hash()` are arbitrary functions passed to the `Datum` constructor. A digest is any
  string of 32 lower-case hexadecimal characters, so it is never empty.
- `os.path.join` is modelled as `posixpath.join`. An absolute second argument replaces the
  first. Otherwise a single `/` is inserted unless the first argument is empty or already
  ends with one.
- The copy step stands for `mkdir_p` followed by `shutil.copy`. Its failure is not
  determined by the modelled state, so it may fail whenever the source exists. It always
  fails when the source is missing.
- When `open()` raises in `get_file_md5`, the exception leaves `_copy_file`. The model
  returns the outcome `Unreadable` and changes nothing.

A name-only collision is not renamed in place: the `os.path.isfile(target_filepath)`
disjunct (datum.py:123-124) sends it into `"datum_duplicates <md5>"` as well
(`DatumProperties.NameCollisionGoesToDuplicates`). The duplicates-directory test is a
substring match anywhere in the path (datum.py:186), as written.

## Model

| member | source | states |
|---|---|---|
| Datum.Datum.constructor | datum.py:18-22 | a new Datum starts with an empty digest index and an empty digest cache |
| Datum.CachedDigest | datum.py:93-97 | definition: the digest get_file_md5 returns, namely the one cached under hash(path), else the MD5 of the file's contents, else none when the file does not exist |
| Datum.Datum.GetFileMd5 | datum.py:89-99 | returns the digest cached under hash(path) without reading; otherwise the MD5 of the file's contents, which is then cached under hash(path); None (open() raising) exactly when nothing is cached and the file is missing, with the cache unchanged |
| DatumProperties.CachedAnswerIsStable | datum.py:93-99 | after a digest is cached for a path, a later request for that path returns the same digest whatever the files are by then |
| DatumProperties.HashCollisionSharesDigest | datum.py:93-97 | the cache is keyed by hash(path): a different path with the same hash gets the first path's digest |
| Datum.Datum.CopyFile | datum.py:102-140 | the whole effect of one call (CopyFileEffect): an unreadable source changes nothing; otherwise the digest is cached and the file is tried at the place Destination chooses, where no file existed; a successful copy puts the source's bytes there and appends the digest to that directory's list only; a failed copy leaves files and index unchanged; recursion depth is at most one (decreases clause) |
| Datum.Recorded | datum.py:117 | definition: `directory_md5_dictionary.get(dir, [])`, the digests recorded for a directory, empty when it has none |
| Datum.Redirects | datum.py:123-124 | definition: the redirect test, digest recorded for a directory that is not a duplicates directory, or a file already at the target path |
| Datum.Destination | datum.py:117-127 | the final place is free, no redirect applies there, it is either the requested place or the duplicates redirect, and it is the requested place exactly when neither redirect cause holds |
| Datum.RedirectTarget | datum.py:125-126 | the redirect goes to a directory that is a duplicates directory, differs from the requested one, and where the chosen name is free |
| Datum.PlacedAfterRedirect | datum.py:125-127 | placing a redirected request is the same as placing the request _copy_file re-issues for the duplicates directory |
| Datum.EffectAfterRedirect | datum.py:119-127 | the recursive call (same source, digest now cached) has the effect of the original call |
| Datum.EffectInPlace | datum.py:129-140 | copying or failing to copy at the requested place, when no redirect applies, is the effect the original call promises |
| Datum.RecordKeepsDistinct | datum.py:123-140 | appending the digest at the place Destination chose never records a digest twice in a directory outside duplicates directories |
| DatumProperties.PlacedNeverOverwrites | datum.py:123-134 | every existing file survives with the same contents, and at most the outcome's path is added |
| DatumProperties.PlacedIndexGrowsByOne | datum.py:129-140 | every directory's digest list keeps its old entries as a prefix; a successful copy appends the digest to the final directory's list only; a failed copy leaves the index unchanged |
| DatumProperties.PlacedKeepsDistinct | datum.py:117-140 | content segregation (no repeated digest per non-duplicates directory) is preserved by every call |
| DatumProperties.RedirectCauses | datum.py:123-127 | the file is redirected if and only if its digest is recorded for a non-duplicates target directory or a file exists at the target path; a redirect goes to target/"datum_duplicates <md5>" |
| DatumProperties.NameCollisionGoesToDuplicates | datum.py:123-125 | a name collision with a digest new to the directory still goes to the duplicates directory of the digest |
| DatumProperties.DuplicatesDirectoryAcceptsRepeats | datum.py:123-124 | inside a duplicates directory a recorded digest does not redirect: a free requested name is used as is |
| DatumProperties.RedirectKeepsExtension | datum.py:125-126 | a redirected file keeps the splitext extension of the requested name, and its name starts with the digest |
| DatumProperties.EnumNameSplits | datum.py:158-169 | an enumerated digest name splits into "<md5>-<k>" and the original extension |
| DatumProperties.IdenticalContentRedirected | datum.py:117-140 | after a file is copied in place into a non-duplicates directory, a later file with the same digest asked for that directory, under any name, goes to the duplicates directory of that digest |
| DatumProperties.SameNameRedirected | datum.py:123-140 | after a file is copied to dir/name, a later file asked for dir/name goes to the duplicates directory of its own digest |
| Datum.Datum.Md5Filename | datum.py:143-151 | splitting the result gives back exactly the digest and the extension of the target name (possibly empty) |
| Datum.Datum.GetEnumeratedFilename | datum.py:154-172 | the while loop returns EnumeratedFilename of the current files |
| Datum.EnumeratedFilename | datum.py:158-172 | the result names no existing file; it is the requested name when that is free; otherwise it is root-k-ext for the smallest k whose name is free, every smaller number being taken |
| Datum.FirstFreeFrom | datum.py:162-170 | starting from k with every smaller number taken, the number found is at least k and is the smallest free one |
| Datum.FirstFreeUnique | datum.py:162-170 | the smallest free number is unique |
| Datum.TakenBound | datum.py:163-170 | no more enumerated names can be taken than there are files, so the enumeration loop ends |
| Datum.EnumName | datum.py:164-169 | definition: the format `'{file_root}-{file_number}{file_ext}'` with the number in decimal |
| Datum.EnumNameInjective | datum.py:164-169 | different numbers give different enumerated names |
| Datum.EnumPathInjective | datum.py:163-169 | different numbers give different enumerated paths in one directory |
| Datum.Datum.DuplicateDirectoryName | datum.py:175-179 | the name is a single relative path component made of "datum_duplicates", a space and the digest |
| Datum.Datum.IsDuplicatesDirectory | datum.py:182-186 | true if and only if "datum_duplicates" occurs somewhere in the path |
| Datum.DuplicatesDirectoryDetected | datum.py:175-186 | joining the duplicates directory name below any directory gives a path recognised as a duplicates directory |
| Datum.HexDigestIsPlain | datum.py:96 | a hex digest is non-empty and contains no dot and no separator |
| FileSystem.Filesystem.IsFile | datum.py:161-163 | definition: `os.path.isfile` (also the test at datum.py:124), true exactly for a path that holds a regular file |
| FileSystem.Filesystem.Read | datum.py:95-96 | reading returns the file's contents, or None exactly when the file does not exist |
| FileSystem.Filesystem.Copy | datum.py:130-137 | a successful copy requires an existing source and sets the target to the source's bytes, nothing else; a failed copy changes nothing |
| PyLib.JoinPrefix | datum.py:113-114 | the first argument followed by at most one added separator, ending in a separator unless empty |
| PyLib.JoinParts | datum.py:113-114 | joining a relative name gives a path that starts with the directory and ends with the name, with at most one separator added between them, added exactly when the directory is non-empty and does not end in one |
| PyLib.JoinRelativeLonger | datum.py:125 | joining a non-empty relative name gives a longer path, different from the directory |
| PyLib.JoinInjective | datum.py:163 | two names of the same kind joined below one directory are equal only when the names are |
| PyLib.RFind | datum.py:147 | the index of the last occurrence of the character, or -1 when it does not occur |
| PyLib.SplitExt | datum.py:147 | root and extension concatenate back to the name, and the extension is empty or a dot followed by no dot and no separator |
| PyLib.ExtensionFromLastDot | datum.py:147 | cutting at the last dot after the last separator leaves a well-formed extension |
| PyLib.SplitExtExamples | datum.py:158 | "archive.tar.gz" splits at the last dot, ".bashrc" has no extension, "dir.d/photo" has none |
| PyLib.SplitExtOfPlainRoot | datum.py:147-151 | a non-empty root without dots or separators followed by an extension splits into exactly that root and extension |
| PyLib.OccursAfter | datum.py:186 | an occurrence at the start of a suffix is an occurrence in the whole string |
| PyLib.FindFrom | datum.py:186 | the first occurrence at or after the start index, or -1 when there is none |
| PyLib.Find | datum.py:186 | non-negative exactly when the substring occurs, and then the first occurrence |
| PyLib.NatToString | datum.py:164-169 | the decimal text of a number: non-empty, digits only, no leading zero |
| PyLib.ParseNatToString | datum.py:164-169 | reading the decimal text back gives the number |
| PyLib.NatToStringInjective | datum.py:164-169 | different numbers have different decimal texts |

## Left out

- Directory traversal and symlink skipping in `sort_by_exif_date` (datum.py:24-51): file-system walking, outside the placement engine.
- EXIF extraction through PIL (datum.py:53-66): a foreign library.
- Date parsing and formatting with `strptime`/`strftime` (datum.py:43, 47, 74): the target directory is an input of `CopyFile`.
- `write_date_file` and `write_no_date_file` (datum.py:68-87): path plumbing and messages around `_copy_file`. The exception `write_no_date_file` catches is the `Unreadable` outcome here.
- `mkdir_p` (datum.py:190-199): directories are not tracked, and creating one is folded into `Filesystem.Copy`. Under Python 2 an `OSError` from `mkdir_p` is not an `IOError` and would leave `_copy_file`; the model treats it as a failed copy, which leaves the state unchanged just the same.
- FileSystem.Filesystem.Copy: does not model a target path that is an existing directory (`shutil.copy` would then copy into it), nor a partly written target or a created directory left behind by a failed copy.
- FileSystem.Filesystem.Read: every existing regular file is assumed readable. `open()` at datum.py:95 also raises for an existing file it cannot open, for example one without read permission; `_copy_file` then raises with nothing changed, whereas the model reads the file, caches its digest and may copy it.
- Paths are compared as strings. The operating system treats `a/./b/x`, `a//b/x` and `a/b/x` as one file, and a symbolic link as the file it points to; the model treats different strings as different files.
- The MD5 algorithm of RFC 1321 and Python's `hash()`: both are arbitrary functions of the constructor, so collisions are possible and not excluded.
- Messages on `sys.stdout`/`sys.stderr`, the command line of `__main__` and `sys.setrecursionlimit` (datum.py:9, 201-215): no effect on placement.
- Concurrent changes to the file system: the model assumes no other process changes the files during one call.
- Datum.Datum.CopyFile: the content-segregation invariant is not a class invariant of `Datum`; it is stated over the specification instead, as `DatumProperties.PlacedKeepsDistinct`.
- setup.py: packaging metadata, no logic.
