/**
 * What the placement engine of datum.py guarantees, stated over the specification
 * functions of module Datum: what a single _copy_file does to the files and to the
 * digest index, how its two redirect causes behave, how the digest cache answers,
 * and what two successive requests for one directory do.
 */
module DatumProperties {
  import opened Wrappers
  import opened PyLib
  import opened FileSystem
  import opened Datum

  // ---------------------------------------------------------------------------
  // One call of _copy_file
  // ---------------------------------------------------------------------------

  /** _copy_file never overwrites: every file that existed before still exists afterwards
      with the same contents, and at most one path is added. */
  lemma {:induction false} PlacedNeverOverwrites(index: map<Path, seq<HexDigest>>, files: map<Path, Bytes>,
                                                 source: Path, digest: HexDigest, dir: Path, name: string,
                                                 outcome: Outcome, index': map<Path, seq<HexDigest>>,
                                                 files': map<Path, Bytes>)
    requires Placed(index, files, source, digest, dir, name, outcome, index', files')
    ensures forall p :: p in files ==> p in files' && files'[p] == files[p]
    ensures files'.Keys == files.Keys || files'.Keys == files.Keys + {outcome.path}
  {
    var t := Destination(index, files.Keys, digest, dir, name);
    assert Join(t.dir, t.name) == outcome.path;
    assert outcome.path !in files;
  }

  /** The digest index only grows: each directory's list keeps its old entries as a prefix,
      exactly one directory gains exactly one digest on a successful copy, and nothing
      changes otherwise. */
  lemma {:induction false} PlacedIndexGrowsByOne(index: map<Path, seq<HexDigest>>, files: map<Path, Bytes>,
                                                 source: Path, digest: HexDigest, dir: Path, name: string,
                                                 outcome: Outcome, index': map<Path, seq<HexDigest>>,
                                                 files': map<Path, Bytes>)
    requires Placed(index, files, source, digest, dir, name, outcome, index', files')
    ensures forall d :: d in index ==> d in index' && index[d] <= index'[d]
    ensures outcome.Copied? ==>
              var t := Destination(index, files.Keys, digest, dir, name);
              && Recorded(index', t.dir) == Recorded(index, t.dir) + [digest]
              && forall d :: d != t.dir ==> Recorded(index', d) == Recorded(index, d)
    ensures !outcome.Copied? ==> index' == index
  {
    var t := Destination(index, files.Keys, digest, dir, name);
    if outcome.Copied? {
      forall d | d in index ensures d in index' && index[d] <= index'[d] {
        if d == t.dir {
          assert index'[d] == index[d] + [digest];
        }
      }
    }
  }

  /** Content segregation is an invariant of _copy_file: outside duplicates directories no
      directory ever records one digest twice. */
  lemma PlacedKeepsDistinct(index: map<Path, seq<HexDigest>>, files: map<Path, Bytes>,
                            source: Path, digest: HexDigest, dir: Path, name: string,
                            outcome: Outcome, index': map<Path, seq<HexDigest>>,
                            files': map<Path, Bytes>)
    requires DistinctOutsideDuplicates(index)
    requires Placed(index, files, source, digest, dir, name, outcome, index', files')
    ensures DistinctOutsideDuplicates(index')
  {
    RecordKeepsDistinct(index, files.Keys, digest, dir, name);
  }

  // ---------------------------------------------------------------------------
  // The two redirect causes
  // ---------------------------------------------------------------------------

  /** A redirect is decided by exactly the two causes of datum.py:123-124, and it goes to
      "datum_duplicates <md5>" below the requested directory. */
  lemma RedirectCauses(index: map<Path, seq<HexDigest>>, files: set<Path>, digest: HexDigest,
                       dir: Path, name: string)
    ensures var t := Destination(index, files, digest, dir, name);
            t != Target(dir, name) <==>
              (digest in Recorded(index, dir) && !Datum.IsDuplicatesDirectory(dir)) || Join(dir, name) in files
    ensures var t := Destination(index, files, digest, dir, name);
            t != Target(dir, name) ==> t.dir == Join(dir, "datum_duplicates " + digest)
  {
    var t := Destination(index, files, digest, dir, name);
    if t != Target(dir, name) {
      assert t == RedirectTarget(files, digest, dir, name);
      assert Datum.DuplicateDirectoryName(digest) == "datum_duplicates " + digest;
    }
  }

  /** A name collision with different content is not renamed in place: when a file of the
      requested name exists and the digest is new to the directory, the file still goes to
      the duplicates directory of its digest. */
  lemma NameCollisionGoesToDuplicates(index: map<Path, seq<HexDigest>>, files: set<Path>,
                                      digest: HexDigest, dir: Path, name: string)
    requires Join(dir, name) in files
    requires digest !in Recorded(index, dir)
    ensures Destination(index, files, digest, dir, name).dir == Join(dir, Datum.DuplicateDirectoryName(digest))
    ensures Destination(index, files, digest, dir, name).dir != dir
  {
  }

  /** Inside a directory whose path contains "datum_duplicates" anywhere, a recorded digest
      is no reason to redirect: only an existing file of the requested name is. */
  lemma DuplicatesDirectoryAcceptsRepeats(index: map<Path, seq<HexDigest>>, files: set<Path>,
                                          digest: HexDigest, dir: Path, name: string)
    requires Datum.IsDuplicatesDirectory(dir)
    requires Join(dir, name) !in files
    ensures Destination(index, files, digest, dir, name) == Target(dir, name)
  {
  }

  /** An enumerated digest name splits into the digest with its number, and the extension. */
  lemma {:induction false} EnumNameSplits(digest: HexDigest, ext: string, k: nat)
    requires IsExtension(ext)
    ensures SplitExt(EnumName(digest, ext, k)) == (digest + "-" + NatToString(k), ext)
    ensures EnumName(digest, ext, k)[..|digest|] == digest
  {
    var root := digest + "-" + NatToString(k);
    HexDigestIsPlain(digest);
    forall i | 0 <= i < |root| ensures root[i] != '.' && root[i] != '/' {
      if i < |digest| {
        assert root[i] == digest[i];
      } else if i > |digest| {
        assert root[i] == NatToString(k)[i - |digest| - 1];
      }
    }
    SplitExtOfPlainRoot(root, ext);
    assert EnumName(digest, ext, k) == root + ext;
  }

  /** A redirected file keeps the extension of its requested name, and its name starts with
      its digest: it is "<md5><ext>" or "<md5>-<k><ext>". */
  lemma {:induction false} RedirectKeepsExtension(index: map<Path, seq<HexDigest>>, files: set<Path>,
                                                  digest: HexDigest, dir: Path, name: string)
    requires Redirects(index, files, digest, dir, name)
    ensures var t := Destination(index, files, digest, dir, name);
            && SplitExt(t.name).1 == SplitExt(name).1
            && t.name[..|digest|] == digest
  {
    var t := Destination(index, files, digest, dir, name);
    assert t == RedirectTarget(files, digest, dir, name);
    var base := Datum.Md5Filename(digest, name);
    var ext := SplitExt(name).1;
    assert t.name == EnumeratedFilename(files, t.dir, base);
    assert SplitExt(base) == (digest, ext);
    if Join(t.dir, base) in files {
      var k: nat :| t.name == EnumName(digest, ext, k) && FirstFree(files, t.dir, digest, ext, k);
      EnumNameSplits(digest, ext, k);
    } else {
      assert t.name == base == digest + ext;
    }
  }

  // ---------------------------------------------------------------------------
  // get_file_md5's cache
  // ---------------------------------------------------------------------------

  /** Once a path's digest is cached, the answer no longer depends on any file: a later call
      with the same path returns the same digest without reading. */
  lemma CachedAnswerIsStable(key: Path -> int, md5: Bytes -> HexDigest, cache: map<int, HexDigest>,
                             files: map<Path, Bytes>, files': map<Path, Bytes>, path: Path)
    requires CachedDigest(key, md5, cache, files, path).Some?
    ensures var d := CachedDigest(key, md5, cache, files, path).value;
            CachedDigest(key, md5, cache[key(path) := d], files', path) == Some(d)
  {
  }

  /** The cache is keyed by hash(path), not by the path: a second path with the same hash is
      answered with the first path's digest, whatever its own contents. */
  lemma HashCollisionSharesDigest(key: Path -> int, md5: Bytes -> HexDigest, cache: map<int, HexDigest>,
                                  files: map<Path, Bytes>, p: Path, q: Path)
    requires key(p) == key(q)
    requires CachedDigest(key, md5, cache, files, p).Some?
    ensures var d := CachedDigest(key, md5, cache, files, p).value;
            CachedDigest(key, md5, cache[key(p) := d], files, q) == Some(d)
  {
  }

  // ---------------------------------------------------------------------------
  // Two successive requests for one directory
  // ---------------------------------------------------------------------------

  /** Identical content: once a file was copied into a non-duplicates directory as asked, any
      later file with the same digest asked for that directory, under any name, goes to the
      duplicates directory of that digest. */
  lemma {:induction false} IdenticalContentRedirected(index: map<Path, seq<HexDigest>>, files: map<Path, Bytes>,
                                                      source: Path, digest: HexDigest, dir: Path, name: string,
                                                      index': map<Path, seq<HexDigest>>, files': map<Path, Bytes>,
                                                      otherName: string)
    requires !Datum.IsDuplicatesDirectory(dir)
    requires !Redirects(index, files.Keys, digest, dir, name)
    requires Placed(index, files, source, digest, dir, name, Copied(Join(dir, name)), index', files')
    ensures Destination(index', files'.Keys, digest, dir, otherName).dir == Join(dir, Datum.DuplicateDirectoryName(digest))
  {
    assert Destination(index, files.Keys, digest, dir, name) == Target(dir, name);
    assert Recorded(index', dir) == Recorded(index, dir) + [digest];
    assert digest in Recorded(index', dir);
  }

  /** Same name, other content: once a file was copied to dir/name, a later file asked for the
      same place goes to the duplicates directory of its own digest. */
  lemma {:induction false} SameNameRedirected(index: map<Path, seq<HexDigest>>, files: map<Path, Bytes>,
                                              source: Path, digest: HexDigest, dir: Path, name: string,
                                              index': map<Path, seq<HexDigest>>, files': map<Path, Bytes>,
                                              otherDigest: HexDigest)
    requires !Redirects(index, files.Keys, digest, dir, name)
    requires Placed(index, files, source, digest, dir, name, Copied(Join(dir, name)), index', files')
    ensures Destination(index', files'.Keys, otherDigest, dir, name).dir == Join(dir, Datum.DuplicateDirectoryName(otherDigest))
  {
    assert Destination(index, files.Keys, digest, dir, name) == Target(dir, name);
    assert Join(dir, name) in files'.Keys;
  }
}
