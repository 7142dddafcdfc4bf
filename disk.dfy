/**
 * The local filesystem the mount caches into: files (path to bytes) and
 * directories, with the handful of primitives the sync engine calls. Each
 * primitive is one atomic update of the state.
 */
module Disk {
  import opened Prelude
  import opened OsPath
  import opened S3Error

  datatype Access = ReadOnly | ReadWrite

  /** An open file: which path it refers to and where its cursor stands. */
  datatype FileHandle = FileHandle(path: LocalPath, cursor: nat, access: Access)

  /**
   * The content of a file after writing `data` at `pos` in place: what lay
   * before `pos` is kept, `data` replaces the bytes it covers, and whatever
   * lay beyond its end survives (nothing is truncated).
   */
  function Overwrite(content: Bytes, pos: nat, data: Bytes): (r: Bytes)
    requires pos <= |content|
    ensures |r| == if pos + |data| <= |content| then |content| else pos + |data|
    ensures r[..pos] == content[..pos]
    ensures r[pos..pos + |data|] == data
    ensures forall i :: pos + |data| <= i < |content| ==> r[i] == content[i]
  {
    content[..pos] + data + (if pos + |data| < |content| then content[pos + |data|..] else [])
  }

  /** Two writes in a row, the second at the first one's end, are one write of both. */
  lemma OverwriteTwice(content: Bytes, pos: nat, a: Bytes, b: Bytes)
    requires pos <= |content|
    ensures pos + |a| <= |Overwrite(content, pos, a)|
    ensures Overwrite(Overwrite(content, pos, a), pos + |a|, b) == Overwrite(content, pos, a + b)
  {
    var once := Overwrite(content, pos, a);
    var twice := Overwrite(once, pos + |a|, b);
    var whole := Overwrite(content, pos, a + b);
    assert |twice| == |whole|;
    forall i | 0 <= i < |twice| ensures twice[i] == whole[i] {
      if i < pos {
        assert twice[i] == twice[..pos + |a|][i] == once[..pos + |a|][i];
        assert whole[i] == whole[..pos][i];
      } else if i < pos + |a| {
        assert twice[i] == twice[..pos + |a|][i] == once[i] == once[pos..pos + |a|][i - pos];
        assert whole[i] == whole[pos..pos + |a| + |b|][i - pos];
      } else if i < pos + |a| + |b| {
        assert twice[i] == twice[pos + |a|..pos + |a| + |b|][i - pos - |a|];
        assert whole[i] == whole[pos..pos + |a| + |b|][i - pos];
      }
    }
  }

  /** Writing from offset 0: the data, then whatever of the old content lay beyond its end. */
  lemma OverwriteFromStart(content: Bytes, data: Bytes)
    ensures |data| <= |content| ==> Overwrite(content, 0, data) == data + content[|data|..]
    ensures |content| <= |data| ==> Overwrite(content, 0, data) == data
  {
    var r := Overwrite(content, 0, data);
    if |data| <= |content| {
      assert r == r[..|data|] + r[|data|..];
      assert r[|data|..] == content[|data|..];
    } else {
      assert r == r[0..|data|];
    }
  }

  /** The path itself and every non-empty prefix of it: what `create_dir_all` creates. */
  function Prefixes(d: LocalPath): (r: set<LocalPath>)
    ensures d != [] ==> d in r
  {
    assert d[..|d|] == d;
    set k | 1 <= k <= |d| :: d[..k]
  }

  /**
   * `Path::parent`, with no parent given as the empty path: a path is its
   * parent followed by its last component, and the parent of a one-component
   * path is the empty path, for which `create_dir_all` does nothing.
   */
  function ParentDir(p: LocalPath): (r: LocalPath)
    ensures p != [] ==> r + [p[|p| - 1]] == p
    ensures |p| <= 1 ==> r == []
    ensures NulFree(p) ==> NulFree(r)
    ensures p !in Prefixes(r)
  {
    if p == [] then [] else p[..|p| - 1]
  }

  /** The NUL unit, which the standard library refuses in every path it hands to the OS. */
  const Nul: OsUnit := Char(0 as char)

  /** No component of `p` holds a NUL unit. */
  predicate NulFree(p: LocalPath)
  {
    forall k :: 0 <= k < |p| ==> Nul !in p[k]
  }

  /** A path with a NUL unit is refused before the OS sees it, as `InvalidInput`. */
  const NulInPath: IoError := IoError(InvalidInput, "file name contained an unexpected NUL byte")

  /** Some directory `create_dir_all(d)` would need is already a file. */
  predicate Obstructed(files: map<LocalPath, Bytes>, d: LocalPath)
  {
    exists k :: 1 <= k <= |d| && d[..k] in files
  }

  /** The content a file has before an open-with-create: empty when it does not exist yet. */
  function ContentOrEmpty(files: map<LocalPath, Bytes>, p: LocalPath): Bytes
  {
    if p in files then files[p] else []
  }

  class LocalDisk {
    var files: map<LocalPath, Bytes>
    var dirs: set<LocalPath>

    /**
     * A tree: no path is both a file and a directory, every ancestor of an
     * entry is a directory, and no entry has a name the OS refuses.
     */
    ghost predicate Valid()
      reads this
    {
      && [] !in files && [] !in dirs
      && (forall f :: f in files ==> NulFree(f))
      && (forall d :: d in dirs ==> NulFree(d))
      && files.Keys !! dirs
      && (forall d, k {:trigger d[..k]} :: d in dirs && 1 <= k < |d| ==> d[..k] in dirs)
      && (forall f, k {:trigger f[..k]} :: f in files && 1 <= k < |f| ==> f[..k] in dirs)
    }

    constructor ()
      ensures Valid() && files == map[] && dirs == {}
    {
      files, dirs := map[], {};
    }

    /**
     * `metadata(p).is_ok()`: something, file or directory, is at `p`; in a
     * valid tree never both. The empty path and a path with a NUL unit name nothing.
     */
    predicate Exists(p: LocalPath)
      reads this
      ensures Exists(p) && Valid() ==> (p in files <==> p !in dirs)
    {
      p != [] && NulFree(p) && (p in files || p in dirs)
    }

    /**
     * `create_dir_all`: every prefix of `d` becomes a directory, unless `d`
     * holds a NUL unit (`InvalidInput`, nothing created) or one of the
     * prefixes is a file. The empty path needs nothing. On Unix, `d` itself being a file is `AlreadyExists` and a
     * file above it is `NotADirectory`; on Windows the failing `mkdir` climbs to
     * the file, which is `AlreadyExists` either way.
     */
    method CreateDirAll(pl: Platform, d: LocalPath) returns (r: Result<(), IoError>)
      requires Valid()
      modifies this`dirs
      ensures Valid()
      ensures r.Ok? <==> NulFree(d) && !Obstructed(files, d)
      ensures r.Ok? ==> dirs == old(dirs) + Prefixes(d)
      ensures r.Err? ==> dirs == old(dirs)
      ensures !NulFree(d) ==> r == Err(NulInPath)
      ensures r.Err? && NulFree(d) ==> r.error.kind == (if pl == Windows || d in files then AlreadyExists else NotADirectory)
      ensures d == [] ==> r == Ok(()) && dirs == old(dirs)
    {
      if !NulFree(d) {
        return Err(NulInPath);
      }
      if exists k :: 1 <= k <= |d| && d[..k] in files {
        if pl == Windows || d in files {
          return Err(IoError(AlreadyExists, "File exists"));
        }
        return Err(IoError(NotADirectory, "Not a directory"));
      }
      forall e, k | e in Prefixes(d) && 1 <= k < |e|
        ensures e[..k] in Prefixes(d)
      {
        var j :| 1 <= j <= |d| && e == d[..j];
        assert e[..k] == d[..k];
      }
      forall e | e in Prefixes(d) ensures NulFree(e) {
        var j :| 1 <= j <= |d| && e == d[..j];
        assert forall k :: 0 <= k < |e| ==> e[k] == d[k];
      }
      dirs := dirs + Prefixes(d);
      r := Ok(());
    }

    /** Open read-only: succeeds exactly when something exists at `p`, cursor at 0, no change. */
    method OpenRead(p: LocalPath) returns (r: Result<FileHandle, IoError>)
      ensures r.Ok? <==> Exists(p)
      ensures r.Ok? ==> r.value == FileHandle(p, 0, ReadOnly)
      ensures r.Err? ==> r.error.kind == if NulFree(p) then NotFound else InvalidInput
    {
      if !NulFree(p) {
        r := Err(NulInPath);
      } else if Exists(p) {
        r := Ok(FileHandle(p, 0, ReadOnly));
      } else {
        r := Err(IoError(NotFound, "No such file or directory"));
      }
    }

    /**
     * Open for reading and writing, creating the file if missing and never
     * truncating it. Fails on a name with a NUL unit, on a directory, or when
     * the parent is not a directory.
     */
    method OpenCreate(p: LocalPath) returns (r: Result<FileHandle, IoError>)
      requires Valid()
      modifies this`files
      ensures Valid()
      ensures r.Ok? <==> p != [] && NulFree(p) && p !in dirs && (|p| == 1 || ParentDir(p) in dirs)
      ensures !NulFree(p) ==> r == Err(NulInPath)
      ensures r.Ok? ==> r.value == FileHandle(p, 0, ReadWrite)
      ensures r.Ok? ==> files == old(files)[p := ContentOrEmpty(old(files), p)]
      ensures r.Err? ==> files == old(files)
    {
      if !NulFree(p) {
        return Err(NulInPath);
      }
      if p == [] {
        return Err(IoError(NotFound, "No such file or directory"));
      }
      if p in dirs {
        return Err(IoError(IsADirectory, "Is a directory"));
      }
      if |p| > 1 && ParentDir(p) !in dirs {
        return Err(IoError(NotFound, "No such file or directory"));
      }
      if p !in files {
        forall k | 1 <= k < |p| ensures p[..k] in dirs {
          if k < |p| - 1 {
            assert p[..k] == ParentDir(p)[..k];
          }
        }
        files := files[p := []];
      }
      r := Ok(FileHandle(p, 0, ReadWrite));
    }

    /** `write` through a handle: the data lands at the cursor, which moves past it. */
    method Write(h: FileHandle, data: Bytes) returns (h': FileHandle)
      requires Valid()
      requires h.path in files && h.cursor <= |files[h.path]| && h.access == ReadWrite
      modifies this`files
      ensures Valid()
      ensures files == old(files)[h.path := Overwrite(old(files)[h.path], h.cursor, data)]
      ensures h' == h.(cursor := h.cursor + |data|)
    {
      files := files[h.path := Overwrite(files[h.path], h.cursor, data)];
      h' := h.(cursor := h.cursor + |data|);
    }

    /** The whole content of a file, as an upload body reads it from disk. */
    method ReadFile(p: LocalPath) returns (content: Bytes)
      requires p in files
      ensures content == files[p]
    {
      content := files[p];
    }

    /** `remove_file`: only a file can be removed. */
    method RemoveFile(p: LocalPath) returns (r: Result<(), IoError>)
      requires Valid()
      modifies this`files
      ensures Valid()
      ensures r.Ok? <==> p in old(files)
      ensures files == old(files) - {p}
      ensures r.Err? && !NulFree(p) ==> r.error.kind == InvalidInput
      ensures r.Err? && NulFree(p) ==> r.error.kind == (if p in dirs then IsADirectory else NotFound)
    {
      if !NulFree(p) {
        r := Err(NulInPath);
      } else if p in files {
        files := files - {p};
        r := Ok(());
      } else if p in dirs {
        r := Err(IoError(IsADirectory, "Is a directory"));
      } else {
        r := Err(IoError(NotFound, "No such file or directory"));
      }
    }
  }
}
