/**
 * The part of the operating system the placement engine touches: which regular files exist
 * and what bytes they hold. Directories are not tracked; creating one (mkdir -p) is folded
 * into the copy step.
 */
module FileSystem {
  import opened Wrappers

  type Path = string
  type Bytes = seq<bv8>

  class Filesystem {
    /** Every regular file, by path, with its contents. */
    var files: map<Path, Bytes>

    constructor (initial: map<Path, Bytes>)
      ensures files == initial
    {
      files := initial;
    }

    /** os.path.isfile(p). */
    predicate IsFile(p: Path)
      reads this
    {
      p in files
    }

    /** open(p, 'rb').read(): the contents, or None where Python would raise. */
    method Read(p: Path) returns (r: Option<Bytes>)
      ensures r.Some? <==> p in files
      ensures r.Some? ==> r.value == files[p]
    {
      if p in files {
        r := Some(files[p]);
      } else {
        r := None;
      }
    }

    /**
     * mkdir_p(dirname(dst)) followed by shutil.copy(src, dst). Either step may raise an
     * IOError for reasons outside the model (permissions, a full disk), so success is not
     * determined by the state; a missing source always fails. On success `dst` holds the
     * bytes of `src`; on failure nothing changes.
     */
    method Copy(src: Path, dst: Path) returns (ok: bool)
      modifies this
      ensures ok ==> src in old(files) && files == old(files)[dst := old(files)[src]]
      ensures !ok ==> files == old(files)
    {
      if src !in files {
        ok := false;
      } else {
        ok := *;
        if ok {
          files := files[dst := files[src]];
        }
      }
    }
  }
}
