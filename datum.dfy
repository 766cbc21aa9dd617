/**
 * The duplicate-aware placement engine of datum.py: class Datum's copy path.
 *
 * A Datum object owns two dictionaries that live for the whole run: for every target
 * directory the list of MD5 digests already copied into it, and a cache of digests keyed
 * by Python's hash() of the source path. _copy_file decides where a file lands: it copies
 * it to the requested place unless its digest is already recorded for that (non-duplicates)
 * directory or a file already sits at the requested path, in which case it redirects once
 * into the sub-directory "datum_duplicates <md5>", under the name "<md5><ext>", enumerated
 * "-0", "-1", ... until it names no existing file.
 *
 * MD5 itself and hash() are not modelled: a Datum is built from two arbitrary functions
 * that stand for them.
 */
module Datum {
  import opened Wrappers
  import opened PyLib
  import opened FileSystem

  // ---------------------------------------------------------------------------
  // Values
  // ---------------------------------------------------------------------------

  /** hashlib.md5(...).hexdigest(): 32 lower-case hexadecimal characters. */
  predicate IsHexDigest(s: string) {
    |s| == 32 && forall i :: 0 <= i < |s| ==> s[i] in "0123456789abcdef"
  }

  type HexDigest = s: string | IsHexDigest(s) witness "00000000000000000000000000000000"

  /** A digest is a single, non-empty, dot-free path component that never starts with a dot. */
  lemma HexDigestIsPlain(m: HexDigest)
    ensures m != [] && '.' !in m && '/' !in m
  {
    forall i | 0 <= i < |m| ensures m[i] != '.' && m[i] != '/' {
      assert m[i] in "0123456789abcdef";
    }
  }

  /** What a call of _copy_file did with its file. */
  datatype Outcome =
    | Copied(path: Path)      // the file was copied to `path`, and its digest recorded
    | CopyFailed(path: Path)  // creating the directory or copying to `path` raised IOError
    | Unreadable(path: Path)  // opening the source `path` raised: the exception leaves _copy_file

  /** A final (directory, file name) pair. */
  datatype Target = Target(dir: Path, name: string)

  // ---------------------------------------------------------------------------
  // Filename enumeration (the specification of get_enumerated_filename)
  // ---------------------------------------------------------------------------

  /** '{file_root}-{file_number}{file_ext}'. */
  function EnumName(root: string, ext: string, n: nat): string {
    root + "-" + NatToString(n) + ext
  }

  /** Different numbers give different enumerated names. */
  lemma {:induction false} EnumNameInjective(root: string, ext: string, i: nat, j: nat)
    requires EnumName(root, ext, i) == EnumName(root, ext, j)
    ensures i == j
  {
    var a, b := NatToString(i), NatToString(j);
    var s := EnumName(root, ext, i);
    var lo := |root| + 1;
    assert |a| == |b|;
    assert s[lo..lo + |a|] == a;
    assert EnumName(root, ext, j)[lo..lo + |b|] == b;
    NatToStringInjective(i, j);
  }

  /** Different numbers give different enumerated paths in one directory. */
  lemma EnumPathInjective(dir: Path, root: string, ext: string, i: nat, j: nat)
    requires Join(dir, EnumName(root, ext, i)) == Join(dir, EnumName(root, ext, j))
    ensures i == j
  {
    var a, b := EnumName(root, ext, i), EnumName(root, ext, j);
    assert a[0] == (root + "-")[0] == b[0];
    JoinInjective(dir, a, b);
    EnumNameInjective(root, ext, i, j);
  }

  /** The enumerated name with number `n` names an existing file in `dir`. */
  predicate Taken(files: set<Path>, dir: Path, root: string, ext: string, n: nat) {
    Join(dir, EnumName(root, ext, n)) in files
  }

  /** `n` is the smallest number whose enumerated name is free in `dir`. */
  predicate FirstFree(files: set<Path>, dir: Path, root: string, ext: string, n: nat) {
    !Taken(files, dir, root, ext, n) && forall j :: 0 <= j < n ==> Taken(files, dir, root, ext, j)
  }

  /** Only as many enumerated names can be taken as there are files: the enumeration loop
      ends. */
  lemma {:induction false} TakenBound(files: set<Path>, dir: Path, root: string, ext: string, k: nat)
    requires forall j :: 0 <= j < k ==> Taken(files, dir, root, ext, j)
    ensures k <= |files|
    decreases k
  {
    if k > 0 {
      var last := Join(dir, EnumName(root, ext, k - 1));
      var rest := files - {last};
      forall j | 0 <= j < k - 1 ensures Taken(rest, dir, root, ext, j) {
        assert Taken(files, dir, root, ext, j);
        if Join(dir, EnumName(root, ext, j)) == last {
          EnumPathInjective(dir, root, ext, j, k - 1);
        }
      }
      TakenBound(rest, dir, root, ext, k - 1);
      assert Taken(files, dir, root, ext, k - 1);
      assert |rest| == |files| - 1;
    }
  }

  /** There is only one smallest free number. */
  lemma FirstFreeUnique(files: set<Path>, dir: Path, root: string, ext: string, a: nat, b: nat)
    requires FirstFree(files, dir, root, ext, a) && FirstFree(files, dir, root, ext, b)
    ensures a == b
  {
  }

  /** The smallest free number not below `k`, given that every number below `k` is taken. */
  function FirstFreeFrom(files: set<Path>, dir: Path, root: string, ext: string, k: nat): (n: nat)
    requires forall j :: 0 <= j < k ==> Taken(files, dir, root, ext, j)
    ensures k <= n
    ensures FirstFree(files, dir, root, ext, n)
    decreases |files| - k
  {
    if !Taken(files, dir, root, ext, k) then k
    else
      TakenBound(files, dir, root, ext, k + 1);
      FirstFreeFrom(files, dir, root, ext, k + 1)
  }

  /**
   * The name get_enumerated_filename returns for `name` in `dir`: `name` itself when no file
   * of that name exists there, and otherwise root-k-ext for the smallest k >= 0 whose name is
   * free (root and ext from splitext). Either way the result names no existing file.
   */
  function EnumeratedFilename(files: set<Path>, dir: Path, name: string): (r: string)
    ensures Join(dir, r) !in files
    ensures Join(dir, name) !in files ==> r == name
    ensures Join(dir, name) in files ==>
      var (root, ext) := SplitExt(name);
      exists k: nat :: r == EnumName(root, ext, k) && FirstFree(files, dir, root, ext, k)
  {
    if Join(dir, name) !in files then name
    else
      var (root, ext) := SplitExt(name);
      EnumName(root, ext, FirstFreeFrom(files, dir, root, ext, 0))
  }

  // ---------------------------------------------------------------------------
  // Placement (the specification of _copy_file's decision)
  // ---------------------------------------------------------------------------

  /** directory_md5_dictionary.get(dir, []). */
  function Recorded(index: map<Path, seq<HexDigest>>, dir: Path): seq<HexDigest> {
    if dir in index then index[dir] else []
  }

  /** The test of datum.py:123-124: the digest is already recorded for a directory that is
      not a duplicates directory, or a file already exists at the requested path. */
  predicate Redirects(index: map<Path, seq<HexDigest>>, files: set<Path>, digest: HexDigest,
                      dir: Path, name: string)
  {
    (digest in Recorded(index, dir) && !Datum.IsDuplicatesDirectory(dir)) || Join(dir, name) in files
  }

  /** Where a redirected file is sent: the duplicates directory for its digest below `dir`,
      under the digest-qualified name enumerated until it is free there. */
  function RedirectTarget(files: set<Path>, digest: HexDigest, dir: Path, name: string): (t: Target)
    ensures Datum.IsDuplicatesDirectory(t.dir)
    ensures Join(t.dir, t.name) !in files
    ensures t.dir != dir
  {
    var newDir := Join(dir, Datum.DuplicateDirectoryName(digest));
    DuplicatesDirectoryDetected(dir, digest);
    JoinRelativeLonger(dir, Datum.DuplicateDirectoryName(digest));
    Target(newDir, EnumeratedFilename(files, newDir, Datum.Md5Filename(digest, name)))
  }

  /** The directory and name _copy_file computes at datum.py:125-126 are RedirectTarget, and
      no further redirect applies there. */
  lemma RedirectStep(index: map<Path, seq<HexDigest>>, files: set<Path>, digest: HexDigest,
                     dir: Path, name: string, newDir: Path, newName: string)
    requires newDir == Join(dir, Datum.DuplicateDirectoryName(digest))
    requires newName == EnumeratedFilename(files, newDir, Datum.Md5Filename(digest, name))
    ensures Target(newDir, newName) == RedirectTarget(files, digest, dir, name)
    ensures !Redirects(index, files, digest, newDir, newName)
  {
  }

  /**
   * The final place _copy_file chooses for a file with `digest` requested at `dir`/`name`,
   * following its recursion. It never names an existing file, it is where the recursion
   * stops (no further redirect applies there), and it is reached after at most one redirect:
   * it is the requested place exactly when no redirect applies to it.
   */
  function Destination(index: map<Path, seq<HexDigest>>, files: set<Path>, digest: HexDigest,
                       dir: Path, name: string): (t: Target)
    ensures Join(t.dir, t.name) !in files
    ensures !Redirects(index, files, digest, t.dir, t.name)
    ensures t == Target(dir, name) || t == RedirectTarget(files, digest, dir, name)
    ensures t == Target(dir, name) <==> !Redirects(index, files, digest, dir, name)
    decreases if Redirects(index, files, digest, dir, name) then 1 else 0
  {
    if Redirects(index, files, digest, dir, name) then
      var t := RedirectTarget(files, digest, dir, name);
      Destination(index, files, digest, t.dir, t.name)
    else
      Target(dir, name)
  }

  /** The digest get_file_md5 returns for `path`: the cached one under hash(path) if there
      is one, otherwise the MD5 of the file, or None when the file cannot be opened. */
  function CachedDigest(key: Path -> int, md5: Bytes -> HexDigest, cache: map<int, HexDigest>,
                        files: map<Path, Bytes>, path: Path): Option<HexDigest>
  {
    if key(path) in cache then Some(cache[key(path)])
    else if path in files then Some(md5(files[path]))
    else None
  }

  /** No digest occurs twice in `s`. */
  predicate NoRepeats(s: seq<HexDigest>) {
    forall i, j :: 0 <= i < j < |s| ==> s[i] != s[j]
  }

  /** Content segregation: outside duplicates directories, a digest is recorded at most once
      per directory. */
  ghost predicate DistinctOutsideDuplicates(index: map<Path, seq<HexDigest>>) {
    forall d :: d in index && !Datum.IsDuplicatesDirectory(d) ==> NoRepeats(index[d])
  }

  /** Recording a digest at the place Destination chose keeps content segregated. */
  lemma RecordKeepsDistinct(index: map<Path, seq<HexDigest>>, files: set<Path>, digest: HexDigest,
                            dir: Path, name: string)
    requires DistinctOutsideDuplicates(index)
    ensures var t := Destination(index, files, digest, dir, name);
            DistinctOutsideDuplicates(index[t.dir := Recorded(index, t.dir) + [digest]])
  {
    var t := Destination(index, files, digest, dir, name);
    var s := Recorded(index, t.dir);
    if !Datum.IsDuplicatesDirectory(t.dir) {
      assert digest !in s;
      var s' := s + [digest];
      forall i, j | 0 <= i < j < |s'| ensures s'[i] != s'[j] {
        if j == |s| { assert s'[i] == s[i]; }
      }
    }
  }

  /** The duplicates directory below any directory is recognised as one. */
  lemma DuplicatesDirectoryDetected(d: Path, m: HexDigest)
    ensures Datum.IsDuplicatesDirectory(Join(d, Datum.DuplicateDirectoryName(m)))
  {
    var n := Datum.DuplicateDirectoryName(m);
    OccursAfter(JoinPrefix(d), n, Datum.DuplicatesPrefix);
  }

  /**
   * What a call of _copy_file that obtained `digest` for `source` does, from the index and the
   * files before it to those after it: it tries the place Destination chooses, where no file
   * existed; a successful copy puts the source's bytes there and appends the digest to the
   * list of that directory only; a failed copy changes neither.
   */
  predicate Placed(index: map<Path, seq<HexDigest>>, files: map<Path, Bytes>, source: Path,
                   digest: HexDigest, dir: Path, name: string, outcome: Outcome,
                   index': map<Path, seq<HexDigest>>, files': map<Path, Bytes>)
  {
    var t := Destination(index, files.Keys, digest, dir, name);
    var dst := Join(t.dir, t.name);
    && dst !in files
    && (outcome == Copied(dst) || outcome == CopyFailed(dst))
    && (outcome.Copied? ==>
          && source in files
          && files' == files[dst := files[source]]
          && index' == index[t.dir := Recorded(index, t.dir) + [digest]])
    && (outcome.CopyFailed? ==> files' == files && index' == index)
  }

  /** A redirected request ends exactly as the request _copy_file makes for the duplicates
      directory. */
  lemma PlacedAfterRedirect(index: map<Path, seq<HexDigest>>, files: map<Path, Bytes>, source: Path,
                            digest: HexDigest, dir: Path, name: string, outcome: Outcome,
                            index': map<Path, seq<HexDigest>>, files': map<Path, Bytes>)
    requires Redirects(index, files.Keys, digest, dir, name)
    requires var t := RedirectTarget(files.Keys, digest, dir, name);
             Placed(index, files, source, digest, t.dir, t.name, outcome, index', files')
    ensures Placed(index, files, source, digest, dir, name, outcome, index', files')
  {
    var t := RedirectTarget(files.Keys, digest, dir, name);
    assert Destination(index, files.Keys, digest, dir, name) == Destination(index, files.Keys, digest, t.dir, t.name);
  }

  /**
   * The whole effect of one _copy_file call on the digest cache, the files and the index,
   * from their values before it to their values after it. When the source cannot be opened
   * (and no digest is cached for it) nothing changes; otherwise the digest is cached and
   * the file is Placed.
   */
  predicate CopyFileEffect(key: Path -> int, md5: Bytes -> HexDigest, cache: map<int, HexDigest>,
                           files: map<Path, Bytes>, index: map<Path, seq<HexDigest>>,
                           source: Path, dir: Path, name: string, outcome: Outcome,
                           cache': map<int, HexDigest>, files': map<Path, Bytes>,
                           index': map<Path, seq<HexDigest>>)
  {
    match CachedDigest(key, md5, cache, files, source)
    case None =>
      outcome == Unreadable(source) && cache' == cache && files' == files && index' == index
    case Some(digest) =>
      cache' == cache[key(source) := digest] && Placed(index, files, source, digest, dir, name, outcome, index', files')
  }

  /** The effect of the recursive call _copy_file makes after a redirect is the effect of the
      original call. */
  lemma EffectAfterRedirect(key: Path -> int, md5: Bytes -> HexDigest, cache: map<int, HexDigest>,
                            files: map<Path, Bytes>, index: map<Path, seq<HexDigest>>,
                            source: Path, dir: Path, name: string, digest: HexDigest, outcome: Outcome,
                            cache': map<int, HexDigest>, files': map<Path, Bytes>,
                            index': map<Path, seq<HexDigest>>)
    requires CachedDigest(key, md5, cache, files, source) == Some(digest)
    requires Redirects(index, files.Keys, digest, dir, name)
    requires var t := RedirectTarget(files.Keys, digest, dir, name);
             CopyFileEffect(key, md5, cache[key(source) := digest], files, index, source, t.dir, t.name,
                            outcome, cache', files', index')
    ensures CopyFileEffect(key, md5, cache, files, index, source, dir, name, outcome, cache', files', index')
  {
    var cache1 := cache[key(source) := digest];
    assert CachedDigest(key, md5, cache1, files, source) == Some(digest);
    assert cache1[key(source) := digest] == cache1;
    PlacedAfterRedirect(index, files, source, digest, dir, name, outcome, index', files');
  }

  /** The effect of a call that copies (or fails to copy) to the requested place. */
  lemma EffectInPlace(key: Path -> int, md5: Bytes -> HexDigest, cache: map<int, HexDigest>,
                      files: map<Path, Bytes>, index: map<Path, seq<HexDigest>>,
                      source: Path, dir: Path, name: string, digest: HexDigest, outcome: Outcome,
                      cache': map<int, HexDigest>, files': map<Path, Bytes>,
                      index': map<Path, seq<HexDigest>>)
    requires CachedDigest(key, md5, cache, files, source) == Some(digest)
    requires !Redirects(index, files.Keys, digest, dir, name)
    requires cache' == cache[key(source) := digest]
    requires outcome == Copied(Join(dir, name)) || outcome == CopyFailed(Join(dir, name))
    requires outcome.Copied? ==>
               && source in files
               && files' == files[Join(dir, name) := files[source]]
               && index' == index[dir := Recorded(index, dir) + [digest]]
    requires outcome.CopyFailed? ==> files' == files && index' == index
    ensures CopyFileEffect(key, md5, cache, files, index, source, dir, name, outcome, cache', files', index')
  {
    assert Destination(index, files.Keys, digest, dir, name) == Target(dir, name);
  }

  // ---------------------------------------------------------------------------
  // The engine
  // ---------------------------------------------------------------------------

  class Datum {
    static const DuplicatesPrefix: string := "datum_duplicates"

    /** Python's hash() of a path, the key of the digest cache. */
    const key: Path -> int
    /** hashlib.md5(contents).hexdigest(). */
    const md5: Bytes -> HexDigest

    /** Target directory |-> the digests copied into it so far, in copy order. */
    var directoryMd5Dictionary: map<Path, seq<HexDigest>>
    /** hash(source path) |-> its digest. */
    var md5Cache: map<int, HexDigest>

    /** Datum(): both dictionaries start empty. */
    constructor (key: Path -> int, md5: Bytes -> HexDigest)
      ensures this.key == key && this.md5 == md5
      ensures directoryMd5Dictionary == map[] && md5Cache == map[]
    {
      this.key := key;
      this.md5 := md5;
      directoryMd5Dictionary := map[];
      md5Cache := map[];
    }

    /**
     * get_file_md5: the cached digest under hash(filepath) when there is one, without
     * opening the file; otherwise the MD5 of the file's contents, which is then cached.
     * None stands for the exception open() raises on a missing file; the cache is then
     * unchanged.
     */
    method GetFileMd5(fs: Filesystem, filepath: Path) returns (r: Option<HexDigest>)
      modifies this`md5Cache
      ensures r == CachedDigest(key, md5, old(md5Cache), fs.files, filepath)
      ensures r.Some? ==> md5Cache == old(md5Cache)[key(filepath) := r.value]
      ensures r.None? ==> md5Cache == old(md5Cache)
    {
      r := if key(filepath) in md5Cache then Some(md5Cache[key(filepath)]) else None;
      if r.None? {
        var contents := fs.Read(filepath);
        if contents.None? {
          return;
        }
        r := Some(md5(contents.value));
        md5Cache := md5Cache[key(filepath) := r.value];
      } else {
        assert md5Cache == md5Cache[key(filepath) := r.value];
      }
    }

    /** How many redirects _copy_file still has ahead of it for this request: 1 when the test
        of datum.py:123-124 holds at the requested place, else 0. */
    function RedirectsAhead(fs: Filesystem, source: Path, dir: Path, name: string): nat
      reads this, fs
    {
      match CachedDigest(key, md5, md5Cache, fs.files, source)
      case None => 0
      case Some(d) => if Redirects(directoryMd5Dictionary, fs.files.Keys, d, dir, name) then 1 else 0
    }

    /**
     * _copy_file: copy originalDirectory/originalFilename to targetDirectory/targetFilename
     * (default: the original name), or to the place Destination chooses when its digest is
     * already recorded there or a file already exists there. The file is copied only to a
     * path where no file existed, and only a successful copy records the digest, appended
     * to the list of the final directory alone.
     */
    method CopyFile(fs: Filesystem, originalDirectory: Path, targetDirectory: Path,
                    originalFilename: string, targetFilename: Option<string>)
      returns (outcome: Outcome)
      modifies this, fs
      ensures CopyFileEffect(key, md5, old(md5Cache), old(fs.files), old(directoryMd5Dictionary),
                             Join(originalDirectory, originalFilename), targetDirectory,
                             targetFilename.GetOr(originalFilename),
                             outcome, md5Cache, fs.files, directoryMd5Dictionary)
      decreases RedirectsAhead(fs, Join(originalDirectory, originalFilename), targetDirectory,
                               targetFilename.GetOr(originalFilename))
    {
      var name := targetFilename.GetOr(originalFilename);
      var originalFilepath := Join(originalDirectory, originalFilename);
      var targetFilepath := Join(targetDirectory, name);
      var directoryMd5Array := Recorded(directoryMd5Dictionary, targetDirectory);

      var digest := GetFileMd5(fs, originalFilepath);
      if digest.None? {
        return Unreadable(originalFilepath);
      }
      var originalMd5 := digest.value;
      ghost var index, files := directoryMd5Dictionary, fs.files;

      if (originalMd5 in directoryMd5Array && !IsDuplicatesDirectory(targetDirectory)) || fs.IsFile(targetFilepath) {
        var newTargetDirectory := Join(targetDirectory, DuplicateDirectoryName(originalMd5));
        var newTargetFilename := GetEnumeratedFilename(fs, newTargetDirectory, Md5Filename(originalMd5, name));
        RedirectStep(index, files.Keys, originalMd5, targetDirectory, name, newTargetDirectory, newTargetFilename);
        assert RedirectsAhead(fs, originalFilepath, newTargetDirectory, newTargetFilename) == 0;
        outcome := CopyFile(fs, originalDirectory, newTargetDirectory, originalFilename, Some(newTargetFilename));
        EffectAfterRedirect(key, md5, old(md5Cache), files, index, originalFilepath, targetDirectory, name,
                            originalMd5, outcome, md5Cache, fs.files, directoryMd5Dictionary);
        return;
      }

      var ok := fs.Copy(originalFilepath, targetFilepath);
      if ok {
        directoryMd5Dictionary := directoryMd5Dictionary[targetDirectory := directoryMd5Array + [originalMd5]];
        outcome := Copied(targetFilepath);
      } else {
        outcome := CopyFailed(targetFilepath);
      }
      EffectInPlace(key, md5, old(md5Cache), files, index, originalFilepath, targetDirectory, name,
                    originalMd5, outcome, md5Cache, fs.files, directoryMd5Dictionary);
    }

    /** get_md5_filename: the digest followed by the extension of `targetFilename`, so that
        splitting the new name gives back the digest and the original extension (possibly
        empty). */
    static function Md5Filename(md5sum: HexDigest, targetFilename: string): (r: string)
      ensures SplitExt(r) == (md5sum, SplitExt(targetFilename).1)
    {
      var ext := SplitExt(targetFilename).1;
      HexDigestIsPlain(md5sum);
      SplitExtOfPlainRoot(md5sum, ext);
      md5sum + ext
    }

    /**
     * get_enumerated_filename: `targetFilename` when no file of that name exists in
     * `targetDirectory`; otherwise root-0-ext, root-1-ext, ... is tried in turn until one
     * names no existing file.
     */
    static method GetEnumeratedFilename(fs: Filesystem, targetDirectory: Path, targetFilename: string)
      returns (r: string)
      ensures r == EnumeratedFilename(fs.files.Keys, targetDirectory, targetFilename)
    {
      var (fileRoot, fileExt) := SplitExt(targetFilename);
      r := targetFilename;
      if fs.IsFile(Join(targetDirectory, r)) {
        var fileNumber: nat := 0;
        while fs.IsFile(Join(targetDirectory, r))
          invariant fileNumber == 0 ==> r == targetFilename && fs.IsFile(Join(targetDirectory, r))
          invariant fileNumber > 0 ==> r == EnumName(fileRoot, fileExt, fileNumber - 1)
          invariant forall j :: 0 <= j < fileNumber - 1 ==> Taken(fs.files.Keys, targetDirectory, fileRoot, fileExt, j)
          decreases |fs.files.Keys| + 1 - fileNumber
        {
          if fileNumber > 0 {
            TakenBound(fs.files.Keys, targetDirectory, fileRoot, fileExt, fileNumber);
          }
          r := EnumName(fileRoot, fileExt, fileNumber);
          fileNumber := fileNumber + 1;
        }
        FirstFreeUnique(fs.files.Keys, targetDirectory, fileRoot, fileExt, fileNumber - 1,
                        FirstFreeFrom(fs.files.Keys, targetDirectory, fileRoot, fileExt, 0));
      }
    }

    /** get_duplicate_directory_name: "datum_duplicates <md5>", a single relative path
        component that starts with the duplicates prefix. */
    static function DuplicateDirectoryName(md5sum: HexDigest): (r: string)
      ensures !IsAbsolute(r) && '/' !in r
      ensures OccursAt(r, DuplicatesPrefix, 0) && r[|DuplicatesPrefix|..] == " " + md5sum
    {
      HexDigestIsPlain(md5sum);
      DuplicatesPrefix + " " + md5sum
    }

    /** is_duplicates_directory: the prefix occurs anywhere in the path (str.find >= 0), not
        only as a whole component. */
    static function IsDuplicatesDirectory(directoryPath: Path): (r: bool)
      ensures r <==> exists i :: OccursAt(directoryPath, DuplicatesPrefix, i)
    {
      Find(directoryPath, DuplicatesPrefix) >= 0
    }
  }
}
