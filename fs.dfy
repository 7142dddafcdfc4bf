/**
 * The mount: a configuration that binds a shared S3 client, a bucket, a local
 * mount root and a freshness flag, and the three operations built on it —
 * fetch-or-cache (`OpenS3`), write-through (`WriteS3`) and listing (`Walkdir`).
 */
module Fs {
  import opened Prelude
  import opened S3Error
  import opened OsPath
  import opened Disk
  import opened ObjectStore

  /** The mount root a fresh configuration uses. */
  const DefaultDataStore: string := "target/temp"

  /**
   * `OpenOptions`. The client is a reference: configurations built from one
   * another, or from the same client, share it.
   */
  datatype OpenOptions = OpenOptions(
    s3Client: S3Client,
    bucket: string,
    mountPath: seq<OsUnit>,
    forceDownload: bool)

  // ---------------------------------------------------------------------------
  // Builder

  /**
   * `OpenOptions::new`: binds the client given or, when there is none, the one
   * discovered from the environment (passed in here, discovery itself is I/O).
   */
  function New(bucket: string, client: Option<S3Client>, discovered: S3Client): (r: OpenOptions)
    ensures r.bucket == bucket
    ensures r.mountPath == Units(DefaultDataStore) && !r.forceDownload
    ensures client.Some? ==> r.s3Client == client.value
    ensures client.None? ==> r.s3Client == discovered
  {
    var s3Client := match client
      case Some(x) => x
      case None => discovered;
    OpenOptions(s3Client, bucket, Units(DefaultDataStore), false)
  }

  /** `mount_path`: a new mount root; nothing else changes. */
  function MountPath(o: OpenOptions, folderPath: seq<OsUnit>): (r: OpenOptions)
    ensures r.mountPath == folderPath
    ensures r.s3Client == o.s3Client && r.bucket == o.bucket && r.forceDownload == o.forceDownload
  {
    o.(mountPath := folderPath)
  }

  /** `force_download`: a new freshness flag; nothing else changes. */
  function ForceDownload(o: OpenOptions, download: bool): (r: OpenOptions)
    ensures r.forceDownload == download
    ensures r.s3Client == o.s3Client && r.bucket == o.bucket && r.mountPath == o.mountPath
  {
    o.(forceDownload := download)
  }

  /** The two reconfigurations are independent: their order does not matter, and the last call wins. */
  lemma BuilderCallsCommute(o: OpenOptions, folder: seq<OsUnit>, folder': seq<OsUnit>, download: bool, download': bool)
    ensures MountPath(ForceDownload(o, download), folder) == ForceDownload(MountPath(o, folder), download)
    ensures MountPath(MountPath(o, folder), folder') == MountPath(o, folder')
    ensures ForceDownload(ForceDownload(o, download), download') == ForceDownload(o, download')
  {
  }

  /** Whatever the builder does, the bucket and the client stay those given to `new`. */
  lemma BuilderKeepsBucketAndClient(bucket: string, client: S3Client, folder: seq<OsUnit>, download: bool)
    ensures var o := ForceDownload(MountPath(New(bucket, Some(client), client), folder), download);
      o.bucket == bucket && o.s3Client == client && o.mountPath == folder && o.forceDownload == download
  {
  }

  // ---------------------------------------------------------------------------
  // Keys and local paths

  const InvalidFilePath: IoError := IoError(InvalidInput, "Invalid File Path")
  const InvalidListPrefix: IoError := IoError(InvalidInput, "Invalid filepath for S3. Please ensure it's UTF-8 only.")

  /** `str::replace("\\", "/")`. */
  function ReplaceBackslashes(s: string): (r: string)
    ensures |r| == |s|
    ensures forall i :: 0 <= i < |s| ==> r[i] == (if s[i] == '\\' then '/' else s[i])
  {
    if s == [] then [] else [if s[0] == '\\' then '/' else s[0]] + ReplaceBackslashes(s[1..])
  }

  /** The remote form has no `\`, is a fixed point, and leaves a key without `\` alone. */
  lemma ReplaceBackslashesProperties(s: string)
    ensures '\\' !in ReplaceBackslashes(s)
    ensures ReplaceBackslashes(ReplaceBackslashes(s)) == ReplaceBackslashes(s)
    ensures '\\' !in s ==> ReplaceBackslashes(s) == s
  {
  }

  /**
   * The S3 key of a path: its text with every `\` turned into `/`; a path
   * that is not valid Unicode is refused as invalid input.
   */
  function S3DataPath(path: seq<OsUnit>): (r: Result<string, IoError>)
    ensures r.Err? <==> !IsUtf8(path)
    ensures r.Err? ==> r.error == InvalidFilePath
    ensures r.Ok? ==> Units(r.value) == Slashed(path) && '\\' !in r.value
  {
    match ToStr(path)
    case None => Err(InvalidFilePath)
    case Some(s) =>
      var key := ReplaceBackslashes(s);
      assert Units(key) == Slashed(path);
      Ok(key)
  }

  /** Both separator styles of one key reach the same remote object. */
  lemma SeparatorStylesShareRemoteKey(path: seq<OsUnit>)
    ensures S3DataPath(Slashed(path)) == S3DataPath(path)
  {
    var q := Slashed(path);
    assert IsUtf8(q) <==> IsUtf8(path) by {
      assert forall i :: 0 <= i < |path| ==> (q[i].Char? <==> path[i].Char?);
    }
    if IsUtf8(path) {
      var a := S3DataPath(q).value;
      var b := S3DataPath(path).value;
      assert Units(a) == Units(b);
      assert |a| == |b| && forall i :: 0 <= i < |a| ==> a[i] == Units(a)[i].c;
    }
  }

  function KeyOf(o: OpenOptions, path: seq<OsUnit>): ObjectId
    requires IsUtf8(path)
  {
    ObjectId(o.bucket, S3DataPath(path).value)
  }

  /** A path that `Path::join` appends below the base: no root, no `.` or `..`, no drive. */
  predicate PlainRelative(pl: Platform, p: seq<OsUnit>)
  {
    && (|p| > 0 ==> !IsSeparator(pl, p[0]))
    && (forall c :: c in Names(pl, p) ==> c != Units(".") && c != Units(".."))
    && (pl == Windows ==> Char(':') !in p)
  }

  /** A key naming a file: plain relative, not empty, no trailing separator. */
  predicate RelativeKey(pl: Platform, p: seq<OsUnit>)
  {
    PlainRelative(pl, p) && |p| > 0 && !IsSeparator(pl, p[|p| - 1])
  }

  /**
   * `mount_path / bucket / path`, component by component: the file lies under
   * the mount root, and its last components are those of the key.
   */
  function MirrorPath(pl: Platform, o: OpenOptions, path: seq<OsUnit>): (r: LocalPath)
    ensures var m := Components(pl, o.mountPath); |m| <= |r| && r[..|m|] == m
    ensures var k := Components(pl, path); |k| <= |r| && r[|r| - |k|..] == k
  {
    Components(pl, o.mountPath) + Components(pl, Units(o.bucket)) + Components(pl, path)
  }

  /** The default mount root has the two components `target` and `temp`, on either platform. */
  lemma DefaultDataStoreComponents(pl: Platform)
    ensures Components(pl, Units(DefaultDataStore)) == [Units("target"), Units("temp")]
  {
    assert DefaultDataStore == "target" + "/" + "temp";
    TextTwoNames(pl, "target", "temp");
  }

  /** A fresh configuration mirrors every key under `target/temp/<bucket>`. */
  lemma DefaultMirrorRoot(pl: Platform, bucket: string, client: Option<S3Client>, discovered: S3Client, path: seq<OsUnit>)
    ensures MirrorPath(pl, New(bucket, client, discovered), path)
            == [Units("target"), Units("temp")] + Components(pl, Units(bucket)) + Components(pl, path)
  {
    DefaultDataStoreComponents(pl);
  }

  lemma {:induction false} MirrorPathNotEmpty(pl: Platform, o: OpenOptions, path: seq<OsUnit>)
    requires RelativeKey(pl, path)
    ensures |MirrorPath(pl, o, path)| > 0
  {
    assert FirstSeparator(pl, path) > 0;
  }

  /**
   * The bucket is a namespace under the mount root: with the same root and a
   * plain relative key, two configurations reach the same local file only if
   * their buckets name the same components. (An absolute key, or one that
   * climbs out with `..`, escapes the bucket in `Path::join` itself.)
   */
  lemma MirrorPathSeparatesBuckets(pl: Platform, o1: OpenOptions, o2: OpenOptions, path: seq<OsUnit>)
    requires PlainRelative(pl, path)
    requires o1.mountPath == o2.mountPath
    requires MirrorPath(pl, o1, path) == MirrorPath(pl, o2, path)
    ensures Components(pl, Units(o1.bucket)) == Components(pl, Units(o2.bucket))
  {
    var m := Components(pl, o1.mountPath);
    var b1, b2 := Components(pl, Units(o1.bucket)), Components(pl, Units(o2.bucket));
    var k := Components(pl, path);
    var p := MirrorPath(pl, o1, path);
    assert |b1| == |b2|;
    assert b1 == p[|m|..|m| + |b1|];
    assert b2 == p[|m|..|m| + |b2|];
  }

  /** A bucket name: not empty, free of separators, and appended by `Path::join` as one plain directory. */
  predicate BucketName(pl: Platform, b: string)
  {
    && b != [] && (forall i :: 0 <= i < |b| ==> !IsSeparator(pl, Char(b[i])))
    && PlainRelative(pl, Units(b))
  }

  /** With the same root, different bucket names never share the local file of a plain relative key. */
  lemma DistinctBucketsDistinctMirrors(pl: Platform, o1: OpenOptions, o2: OpenOptions, path: seq<OsUnit>)
    requires PlainRelative(pl, path)
    requires o1.mountPath == o2.mountPath
    requires BucketName(pl, o1.bucket) && BucketName(pl, o2.bucket) && o1.bucket != o2.bucket
    ensures MirrorPath(pl, o1, path) != MirrorPath(pl, o2, path)
  {
    SingleComponent(pl, Units(o1.bucket));
    SingleComponent(pl, Units(o2.bucket));
    if MirrorPath(pl, o1, path) == MirrorPath(pl, o2, path) {
      MirrorPathSeparatesBuckets(pl, o1, o2, path);
      ToStrOfUnits(o1.bucket);
      ToStrOfUnits(o2.bucket);
      assert false;
    }
  }

  /** On Windows the two separator styles of a key share one local file as well as one remote object. */
  lemma WindowsSeparatorStylesShareMirror(o: OpenOptions, path: seq<OsUnit>)
    ensures MirrorPath(Windows, o, Slashed(path)) == MirrorPath(Windows, o, path)
    ensures S3DataPath(Slashed(path)) == S3DataPath(path)
  {
    WindowsComponentsIgnoreSeparatorStyle(path);
    SeparatorStylesShareRemoteKey(path);
  }

  /** On Unix they do not: `a\b` and `a/b` fetch the same object into two different local files. */
  lemma UnixSeparatorStylesSplitMirror(o: OpenOptions)
    ensures S3DataPath(Units("a\\b")) == S3DataPath(Units("a/b")) == Ok("a/b")
    ensures MirrorPath(Unix, o, Units("a\\b")) != MirrorPath(Unix, o, Units("a/b"))
  {
    UnixBackslashIsNotASeparator();
    SeparatorStylesShareRemoteKey(Units("a\\b"));
    ToStrOfUnits("a/b");
    assert ReplaceBackslashes("a/b") == "a/b";
    var m := Components(Unix, o.mountPath) + Components(Unix, Units(o.bucket));
    assert |MirrorPath(Unix, o, Units("a\\b"))| == |m| + 1;
    assert |MirrorPath(Unix, o, Units("a/b"))| == |m| + 2;
  }

  // ---------------------------------------------------------------------------
  // Fetch-or-cache and write-through

  /** The `?` on a local I/O result: its error becomes the `Io` variant. */
  function LiftIo<T>(r: Result<T, IoError>): (r': Result<T, S3FilesystemError>)
    ensures r.Ok? <==> r'.Ok?
    ensures r.Ok? ==> r'.value == r.value
    ensures r.Err? ==> r'.error == FromIo(r.error)
  {
    match r
    case Ok(v) => Ok(v)
    case Err(e) => Err(FromIo(e))
  }

  /**
   * Cleanup after a failed remote call: remove the local file and return the
   * remote error, or the `Io` error of the removal when that fails instead.
   */
  method RemoveOnFailure(disk: LocalDisk, p: LocalPath, e: S3FilesystemError) returns (err: S3FilesystemError)
    requires disk.Valid()
    modifies disk`files
    ensures disk.Valid()
    ensures disk.files == old(disk.files) - {p}
    ensures p in old(disk.files) ==> err == e
    ensures p !in old(disk.files) ==> err.Io?
  {
    var removed := disk.RemoveFile(p);
    err := if removed.Ok? then e else FromIo(removed.error);
  }

  /** `create_dir_all` of the parent of `p` fails: the parent holds a NUL unit, or an ancestor is a file. */
  predicate ParentBlocked(files: map<LocalPath, Bytes>, p: LocalPath)
  {
    !NulFree(ParentDir(p)) || Obstructed(files, ParentDir(p))
  }

  /**
   * The mirror file cannot be opened for writing: its parent cannot be made,
   * its name holds a NUL unit, or the path is a directory.
   */
  predicate LocalConflict(files: map<LocalPath, Bytes>, dirs: set<LocalPath>, p: LocalPath)
  {
    ParentBlocked(files, p) || !NulFree(p) || p in dirs
  }

  /**
   * `open_s3`. With a cached copy and no forced refresh, the copy is opened
   * read-only and nothing else happens. Otherwise the parent directories are
   * created, the file is opened without truncation, and `Download` fills it.
   */
  method OpenS3(o: OpenOptions, pl: Platform, disk: LocalDisk, path: seq<OsUnit>)
    returns (r: Result<FileHandle, S3FilesystemError>)
    requires disk.Valid()
    requires PlainRelative(pl, Units(o.bucket)) && RelativeKey(pl, path)
    modifies disk, o.s3Client
    ensures disk.Valid()
    ensures o.s3Client.objects == old(o.s3Client.objects)
    // A key that is not valid Unicode: refused before anything is looked at.
    ensures !IsUtf8(path) ==>
      r == Err(Io(InvalidFilePath)) && unchanged(disk) && o.s3Client.sent == old(o.s3Client.sent)
    // Cache hit: the existing copy, read-only, cursor at 0; no remote call, disk unchanged.
    ensures (IsUtf8(path) && old(disk.Exists(MirrorPath(pl, o, path))) && !o.forceDownload) ==>
      && r == Ok(FileHandle(MirrorPath(pl, o, path), 0, ReadOnly))
      && unchanged(disk) && o.s3Client.sent == old(o.s3Client.sent)
    // Miss blocked locally: an Io error, no file changed, no remote call.
    ensures (old(Misses(o, pl, disk, path)) && old(LocalConflict(disk.files, disk.dirs, MirrorPath(pl, o, path)))) ==>
      && r.Err? && r.error.Io?
      && disk.files == old(disk.files) && o.s3Client.sent == old(o.s3Client.sent)
    // A name with a NUL unit, under a parent that is not blocked by a file: InvalidInput.
    ensures (old(Misses(o, pl, disk, path)) && !NulFree(MirrorPath(pl, o, path))
             && !old(Obstructed(disk.files, ParentDir(MirrorPath(pl, o, path))))) ==>
      r == Err(Io(NulInPath))
    // Miss: the parent directories exist afterwards unless they could not be made.
    ensures (old(Misses(o, pl, disk, path)) && old(ParentBlocked(disk.files, MirrorPath(pl, o, path)))) ==>
      disk.dirs == old(disk.dirs)
    ensures (old(Misses(o, pl, disk, path)) && !old(ParentBlocked(disk.files, MirrorPath(pl, o, path)))) ==>
      disk.dirs == old(disk.dirs) + Prefixes(ParentDir(MirrorPath(pl, o, path)))
    // Miss without a local conflict: exactly one download is requested.
    ensures (old(Misses(o, pl, disk, path)) && !old(LocalConflict(disk.files, disk.dirs, MirrorPath(pl, o, path)))) ==>
      o.s3Client.sent == old(o.s3Client.sent) + [Get(KeyOf(o, path))]
    // Refused download: the local file is gone, even a previously cached copy.
    ensures (old(Misses(o, pl, disk, path)) && !old(LocalConflict(disk.files, disk.dirs, MirrorPath(pl, o, path)))
             && old(o.s3Client.GetReply(|o.s3Client.sent|, KeyOf(o, path))).Err?) ==>
      && r == Err(S3(old(o.s3Client.GetReply(|o.s3Client.sent|, KeyOf(o, path))).error))
      && disk.files == old(disk.files) - {MirrorPath(pl, o, path)}
    // Body received: its bytes written over the old content from offset 0, without truncation.
    ensures (old(Misses(o, pl, disk, path)) && !old(LocalConflict(disk.files, disk.dirs, MirrorPath(pl, o, path)))
             && old(o.s3Client.GetReply(|o.s3Client.sent|, KeyOf(o, path))).Ok?) ==>
      var full := MirrorPath(pl, o, path);
      var body := old(o.s3Client.GetReply(|o.s3Client.sent|, KeyOf(o, path))).value;
      && disk.files == old(disk.files)[full := Overwrite(ContentOrEmpty(old(disk.files), full), 0, Concat(body.chunks))]
      && (body.failure.None? ==>
            && r == Ok(FileHandle(full, 0, ReadWrite))
            && disk.files[full] == Overwrite(ContentOrEmpty(old(disk.files), full), 0, old(o.s3Client.objects)[KeyOf(o, path)]))
      && (body.failure.Some? ==> r == Err(ByteStream(body.failure.value)))
  {
    var full := MirrorPath(pl, o, path);
    MirrorPathNotEmpty(pl, o, path);
    var key := S3DataPath(path);
    if key.Err? {
      assert !Misses(o, pl, disk, path);
      return Err(FromIo(key.error));
    }
    var cached := disk.Exists(full);
    if cached && !o.forceDownload {
      assert !Misses(o, pl, disk, path);
      var readOnly := disk.OpenRead(full);
      return LiftIo(readOnly);
    }

    assert KeyOf(o, path) == ObjectId(o.bucket, key.value);
    assert Misses(o, pl, disk, path);
    r := Refresh(pl, o.s3Client, disk, full, KeyOf(o, path));
  }

  /**
   * The miss path of `open_s3` for the mirror file `full` of object `id`:
   * create the parent directories, open without truncating, then `Download`.
   */
  method Refresh(pl: Platform, client: S3Client, disk: LocalDisk, full: LocalPath, id: ObjectId)
    returns (r: Result<FileHandle, S3FilesystemError>)
    requires disk.Valid() && full != []
    modifies disk, client`sent
    ensures disk.Valid()
    ensures old(LocalConflict(disk.files, disk.dirs, full)) ==>
      && r.Err? && r.error.Io?
      && disk.files == old(disk.files) && client.sent == old(client.sent)
    ensures (!NulFree(full) && !old(Obstructed(disk.files, ParentDir(full)))) ==> r == Err(Io(NulInPath))
    ensures old(ParentBlocked(disk.files, full)) ==> disk.dirs == old(disk.dirs)
    ensures !old(ParentBlocked(disk.files, full)) ==> disk.dirs == old(disk.dirs) + Prefixes(ParentDir(full))
    ensures !old(LocalConflict(disk.files, disk.dirs, full)) ==> client.sent == old(client.sent) + [Get(id)]
    ensures (!old(LocalConflict(disk.files, disk.dirs, full)) && old(client.GetReply(|client.sent|, id)).Err?) ==>
      && r == Err(S3(old(client.GetReply(|client.sent|, id)).error))
      && disk.files == old(disk.files) - {full}
    ensures (!old(LocalConflict(disk.files, disk.dirs, full)) && old(client.GetReply(|client.sent|, id)).Ok?) ==>
      var body := old(client.GetReply(|client.sent|, id)).value;
      && disk.files == old(disk.files)[full := Overwrite(ContentOrEmpty(old(disk.files), full), 0, Concat(body.chunks))]
      && (body.failure.None? ==> r == Ok(FileHandle(full, 0, ReadWrite)) && Concat(body.chunks) == old(client.objects)[id])
      && (body.failure.Some? ==> r == Err(ByteStream(body.failure.value)))
  {
    var made := disk.CreateDirAll(pl, ParentDir(full));
    if made.Err? {
      return Err(FromIo(made.error));
    }
    r := OpenAndDownload(client, disk, full, id);
  }

  /**
   * `open_s3` once the parent directory exists: open with create and without
   * truncating, then `Download`. A directory or a NUL unit at the path stops
   * it with an `Io` error before any request.
   */
  method OpenAndDownload(client: S3Client, disk: LocalDisk, full: LocalPath, id: ObjectId)
    returns (r: Result<FileHandle, S3FilesystemError>)
    requires disk.Valid()
    requires full != [] && (|full| == 1 || ParentDir(full) in disk.dirs)
    modifies disk`files, client`sent
    ensures disk.Valid()
    ensures (full in disk.dirs || !NulFree(full)) ==>
      r.Err? && r.error.Io? && disk.files == old(disk.files) && client.sent == old(client.sent)
    ensures !NulFree(full) ==> r == Err(Io(NulInPath))
    ensures (full !in disk.dirs && NulFree(full)) ==> client.sent == old(client.sent) + [Get(id)]
    ensures (full !in disk.dirs && NulFree(full) && old(client.GetReply(|client.sent|, id)).Err?) ==>
      && r == Err(S3(old(client.GetReply(|client.sent|, id)).error))
      && disk.files == old(disk.files) - {full}
    ensures (full !in disk.dirs && NulFree(full) && old(client.GetReply(|client.sent|, id)).Ok?) ==>
      var body := old(client.GetReply(|client.sent|, id)).value;
      && disk.files == old(disk.files)[full := Overwrite(ContentOrEmpty(old(disk.files), full), 0, Concat(body.chunks))]
      && (body.failure.None? ==> r == Ok(FileHandle(full, 0, ReadWrite)) && Concat(body.chunks) == old(client.objects)[id])
      && (body.failure.Some? ==> r == Err(ByteStream(body.failure.value)))
  {
    var created := disk.OpenCreate(full);
    if created.Err? {
      return Err(FromIo(created.error));
    }
    ghost var afterOpen := disk.files;
    ghost var reply := client.GetReply(|client.sent|, id);
    assert afterOpen[full] == ContentOrEmpty(old(disk.files), full);
    assert reply == old(client.GetReply(|client.sent|, id));
    r := Download(client, disk, full, id);
    if reply.Ok? {
      var landed := Overwrite(afterOpen[full], 0, Concat(reply.value.chunks));
      assert afterOpen[full := landed] == old(disk.files)[full := landed];
    } else {
      assert afterOpen - {full} == old(disk.files) - {full};
    }
  }

  /** `open_s3` must go to the store: the key is valid Unicode and there is no usable cached copy. */
  ghost predicate Misses(o: OpenOptions, pl: Platform, disk: LocalDisk, path: seq<OsUnit>)
    reads disk
    ensures Misses(o, pl, disk, path) ==> IsUtf8(path)
  {
    IsUtf8(path) && (!disk.Exists(MirrorPath(pl, o, path)) || o.forceDownload)
  }

  /**
   * The download half of `open_s3`, with the mirror file open for writing at
   * offset 0: one request, the chunks written in order, the cursor rewound.
   * A refused request removes the file; a broken stream leaves what was written.
   */
  method Download(client: S3Client, disk: LocalDisk, full: LocalPath, id: ObjectId)
    returns (r: Result<FileHandle, S3FilesystemError>)
    requires disk.Valid() && full in disk.files
    modifies disk`files, client`sent
    ensures disk.Valid()
    ensures client.sent == old(client.sent) + [Get(id)]
    ensures old(client.GetReply(|client.sent|, id)).Err? ==>
      && r == Err(S3(old(client.GetReply(|client.sent|, id)).error))
      && disk.files == old(disk.files) - {full}
    ensures old(client.GetReply(|client.sent|, id)).Ok? ==>
      var body := old(client.GetReply(|client.sent|, id)).value;
      && disk.files == old(disk.files)[full := Overwrite(old(disk.files)[full], 0, Concat(body.chunks))]
      && (body.failure.None? ==> r == Ok(FileHandle(full, 0, ReadWrite)) && Concat(body.chunks) == old(client.objects)[id])
      && (body.failure.Some? ==> r == Err(ByteStream(body.failure.value)))
  {
    ghost var n := |client.sent|;
    var fetched := client.GetObject(id);
    if fetched.Err? {
      var err := RemoveOnFailure(disk, full, FromSdk(fetched.error));
      return Err(err);
    }
    client.GetReplyBody(n, id);
    r := WriteBody(disk, full, fetched.value);
  }

  /** Writing chunk `i` at the end of the first `i` chunks is writing the first `i + 1` chunks from 0. */
  lemma WriteChunkStep(before: Bytes, chunks: seq<Bytes>, i: nat)
    requires i < |chunks|
    ensures Concat(chunks[..i + 1]) == Concat(chunks[..i]) + chunks[i]
    ensures |Concat(chunks[..i])| <= |Overwrite(before, 0, Concat(chunks[..i]))|
    ensures Overwrite(Overwrite(before, 0, Concat(chunks[..i])), |Concat(chunks[..i])|, chunks[i])
         == Overwrite(before, 0, Concat(chunks[..i + 1]))
  {
    OverwriteTwice(before, 0, Concat(chunks[..i]), chunks[i]);
    assert chunks[..i + 1][..i] == chunks[..i];
  }

  /**
   * The `try_next` loop of `open_s3`: each chunk is written at the cursor in
   * arrival order, from offset 0; at the end the cursor is rewound to 0, and
   * a broken stream stops the loop with what was written so far left on disk.
   */
  method WriteBody(disk: LocalDisk, full: LocalPath, body: Body) returns (r: Result<FileHandle, S3FilesystemError>)
    requires disk.Valid() && full in disk.files
    modifies disk`files
    ensures disk.Valid()
    ensures disk.files == old(disk.files)[full := Overwrite(old(disk.files)[full], 0, Concat(body.chunks))]
    ensures body.failure.None? ==> r == Ok(FileHandle(full, 0, ReadWrite))
    ensures body.failure.Some? ==> r == Err(ByteStream(body.failure.value))
  {
    ghost var before := disk.files[full];
    var file := FileHandle(full, 0, ReadWrite);
    var i := 0;
    assert Overwrite(before, 0, []) == before;
    while true
      invariant 0 <= i <= |body.chunks|
      invariant disk.Valid()
      invariant file == FileHandle(full, |Concat(body.chunks[..i])|, ReadWrite)
      invariant disk.files == old(disk.files)[full := Overwrite(before, 0, Concat(body.chunks[..i]))]
      modifies disk`files
      decreases |body.chunks| - i
    {
      var next := body.TryNext(i);
      if next.Err? {
        assert body.chunks[..i] == body.chunks;
        return Err(FromByteStream(next.error));
      }
      if next.value.None? {
        break;
      }
      WriteChunkStep(before, body.chunks, i);
      file := disk.Write(file, next.value.value);
      i := i + 1;
    }
    assert body.chunks[..i] == body.chunks;
    file := file.(cursor := 0);
    r := Ok(file);
  }

  /**
   * `write_s3`. Creates the parent directories (even before the key is
   * checked), then `Upload` writes, uploads and cleans up.
   */
  method WriteS3(o: OpenOptions, pl: Platform, disk: LocalDisk, path: seq<OsUnit>, buf: Bytes)
    returns (r: Result<FileHandle, S3FilesystemError>)
    requires disk.Valid()
    requires PlainRelative(pl, Units(o.bucket)) && RelativeKey(pl, path)
    modifies disk, o.s3Client
    ensures disk.Valid()
    // A file where a parent directory should be: an Io error before anything else.
    ensures old(ParentBlocked(disk.files, MirrorPath(pl, o, path))) ==>
      && r.Err? && r.error.Io? && unchanged(disk)
      && o.s3Client.sent == old(o.s3Client.sent) && o.s3Client.objects == old(o.s3Client.objects)
    // Otherwise the parent directories exist afterwards, whatever else happens.
    ensures !old(ParentBlocked(disk.files, MirrorPath(pl, o, path))) ==>
      disk.dirs == old(disk.dirs) + Prefixes(ParentDir(MirrorPath(pl, o, path)))
    // A key that is not valid Unicode: refused after the directories were made.
    ensures (!old(ParentBlocked(disk.files, MirrorPath(pl, o, path))) && !IsUtf8(path)) ==>
      && r == Err(Io(InvalidFilePath)) && disk.files == old(disk.files)
      && o.s3Client.sent == old(o.s3Client.sent) && o.s3Client.objects == old(o.s3Client.objects)
    // A name with a NUL unit, under a parent that is not blocked by a file: InvalidInput.
    ensures (IsUtf8(path) && !NulFree(MirrorPath(pl, o, path))
             && !old(Obstructed(disk.files, ParentDir(MirrorPath(pl, o, path))))) ==>
      r == Err(Io(NulInPath))
    // The mirror path is a directory or holds a NUL unit: an Io error, no upload.
    ensures (!old(ParentBlocked(disk.files, MirrorPath(pl, o, path))) && IsUtf8(path)
             && (MirrorPath(pl, o, path) in old(disk.dirs) || !NulFree(MirrorPath(pl, o, path)))) ==>
      && r.Err? && r.error.Io? && disk.files == old(disk.files)
      && o.s3Client.sent == old(o.s3Client.sent) && o.s3Client.objects == old(o.s3Client.objects)
    // Exactly one upload, whose body is the whole file on disk after the write.
    ensures (!old(ParentBlocked(disk.files, MirrorPath(pl, o, path))) && IsUtf8(path)
             && MirrorPath(pl, o, path) !in old(disk.dirs) && NulFree(MirrorPath(pl, o, path))) ==>
      var full := MirrorPath(pl, o, path);
      var content := Overwrite(ContentOrEmpty(old(disk.files), full), 0, buf);
      && o.s3Client.sent == old(o.s3Client.sent) + [Put(KeyOf(o, path), content)]
      && (old(o.s3Client.Rejects(|o.s3Client.sent|)) ==>
            && r == Err(S3(SdkError(OpPutObject, o.s3Client.faults[old(|o.s3Client.sent|)].reason)))
            && disk.files == old(disk.files) - {full}
            && o.s3Client.objects == old(o.s3Client.objects))
      && (!old(o.s3Client.Rejects(|o.s3Client.sent|)) ==>
            && r == Ok(FileHandle(full, |buf|, ReadWrite))
            && disk.files == old(disk.files)[full := content]
            && o.s3Client.objects == old(o.s3Client.objects)[KeyOf(o, path) := content])
  {
    var full := MirrorPath(pl, o, path);
    MirrorPathNotEmpty(pl, o, path);
    var made := disk.CreateDirAll(pl, ParentDir(full));
    if made.Err? {
      return Err(FromIo(made.error));
    }
    assert !ParentBlocked(old(disk.files), full);
    assert |full| == 1 || ParentDir(full) in disk.dirs;
    r := UploadUnderKey(o, disk, full, path, buf);
  }

  /**
   * The rest of `write_s3` once the parent directory exists: turn the path
   * into an object key, refusing one that is not valid Unicode, then upload.
   */
  method UploadUnderKey(o: OpenOptions, disk: LocalDisk, full: LocalPath, path: seq<OsUnit>, buf: Bytes)
    returns (r: Result<FileHandle, S3FilesystemError>)
    requires disk.Valid()
    requires full != [] && (|full| == 1 || ParentDir(full) in disk.dirs)
    modifies disk`files, o.s3Client`sent, o.s3Client`objects
    ensures disk.Valid()
    ensures !IsUtf8(path) ==>
      && r == Err(Io(InvalidFilePath)) && disk.files == old(disk.files)
      && o.s3Client.sent == old(o.s3Client.sent) && o.s3Client.objects == old(o.s3Client.objects)
    ensures (IsUtf8(path) && (full in disk.dirs || !NulFree(full))) ==>
      && r.Err? && r.error.Io? && disk.files == old(disk.files)
      && o.s3Client.sent == old(o.s3Client.sent) && o.s3Client.objects == old(o.s3Client.objects)
    ensures IsUtf8(path) && !NulFree(full) ==> r == Err(Io(NulInPath))
    ensures (IsUtf8(path) && full !in disk.dirs && NulFree(full)) ==>
      var content := Overwrite(ContentOrEmpty(old(disk.files), full), 0, buf);
      && o.s3Client.sent == old(o.s3Client.sent) + [Put(KeyOf(o, path), content)]
      && (old(o.s3Client.Rejects(|o.s3Client.sent|)) ==>
            && r == Err(S3(SdkError(OpPutObject, o.s3Client.faults[old(|o.s3Client.sent|)].reason)))
            && disk.files == old(disk.files) - {full}
            && o.s3Client.objects == old(o.s3Client.objects))
      && (!old(o.s3Client.Rejects(|o.s3Client.sent|)) ==>
            && r == Ok(FileHandle(full, |buf|, ReadWrite))
            && disk.files == old(disk.files)[full := content]
            && o.s3Client.objects == old(o.s3Client.objects)[KeyOf(o, path) := content])
  {
    var key := S3DataPath(path);
    if key.Err? {
      return Err(FromIo(key.error));
    }
    assert KeyOf(o, path) == ObjectId(o.bucket, key.value);
    r := Upload(o.s3Client, disk, full, KeyOf(o, path), buf);
  }

  /**
   * The upload half of `write_s3`, once the parent directory exists: open
   * without truncating, write `buf` from offset 0, upload the whole file as it
   * now is on disk, and remove the local file when the upload is refused.
   */
  method Upload(client: S3Client, disk: LocalDisk, full: LocalPath, id: ObjectId, buf: Bytes)
    returns (r: Result<FileHandle, S3FilesystemError>)
    requires disk.Valid()
    requires full != [] && (|full| == 1 || ParentDir(full) in disk.dirs)
    modifies disk`files, client`sent, client`objects
    ensures disk.Valid()
    ensures (full in disk.dirs || !NulFree(full)) ==>
      && r.Err? && r.error.Io? && disk.files == old(disk.files)
      && client.sent == old(client.sent) && client.objects == old(client.objects)
    ensures !NulFree(full) ==> r == Err(Io(NulInPath))
    ensures (full !in disk.dirs && NulFree(full)) ==>
      var content := Overwrite(ContentOrEmpty(old(disk.files), full), 0, buf);
      && client.sent == old(client.sent) + [Put(id, content)]
      && (old(client.Rejects(|client.sent|)) ==>
            && r == Err(S3(SdkError(OpPutObject, client.faults[old(|client.sent|)].reason)))
            && disk.files == old(disk.files) - {full}
            && client.objects == old(client.objects))
      && (!old(client.Rejects(|client.sent|)) ==>
            && r == Ok(FileHandle(full, |buf|, ReadWrite))
            && disk.files == old(disk.files)[full := content]
            && client.objects == old(client.objects)[id := content])
  {
    var created := disk.OpenCreate(full);
    if created.Err? {
      return Err(FromIo(created.error));
    }
    ghost var afterOpen := disk.files;
    assert afterOpen[full] == ContentOrEmpty(old(disk.files), full);
    var file := created.value;
    file := disk.Write(file, buf);
    var content := disk.ReadFile(full);
    assert content == Overwrite(ContentOrEmpty(old(disk.files), full), 0, buf);
    assert disk.files == old(disk.files)[full := content];
    var put := client.PutObject(id, content);
    if put.Err? {
      var err := RemoveOnFailure(disk, full, FromSdk(put.error));
      assert afterOpen - {full} == old(disk.files) - {full};
      return Err(err);
    }
    r := Ok(file);
  }

  /** A cache-trusting configuration reads back what it wrote, with no second remote call. */
  method WriteThenOpen(o: OpenOptions, pl: Platform, disk: LocalDisk, path: seq<OsUnit>, buf: Bytes)
    returns (written: Result<FileHandle, S3FilesystemError>, reread: Result<FileHandle, S3FilesystemError>)
    requires disk.Valid() && !o.forceDownload
    requires PlainRelative(pl, Units(o.bucket)) && RelativeKey(pl, path)
    modifies disk, o.s3Client
    ensures written.Ok? ==> IsUtf8(path)
    ensures written.Ok? ==>
      var full := MirrorPath(pl, o, path);
      var content := Overwrite(ContentOrEmpty(old(disk.files), full), 0, buf);
      && reread == Ok(FileHandle(full, 0, ReadOnly))
      && |o.s3Client.sent| == |old(o.s3Client.sent)| + 1
      && o.s3Client.sent[|o.s3Client.sent| - 1] == Put(KeyOf(o, path), content)
      && full in disk.files && disk.files[full] == content
      && KeyOf(o, path) in o.s3Client.objects && o.s3Client.objects[KeyOf(o, path)] == content
      && (|ContentOrEmpty(old(disk.files), full)| <= |buf| ==> content == buf)
  {
    ghost var full := MirrorPath(pl, o, path);
    ghost var before := ContentOrEmpty(disk.files, full);
    written := WriteS3(o, pl, disk, path, buf);
    if written.Ok? {
      assert full in disk.files;
      reread := OpenS3(o, pl, disk, path);
      OverwriteFromStart(before, buf);
    } else {
      reread := written;
    }
  }

  /**
   * Writing over a longer cached copy keeps its tail: the bytes written and
   * uploaded are not `buf` alone.
   */
  lemma StaleTailSurvives()
    ensures Overwrite([1, 2, 3, 4, 5], 0, [9, 9]) == [9, 9, 3, 4, 5]
  {
    var r := Overwrite([1, 2, 3, 4, 5], 0, [9, 9]);
    assert r[..2] == [9, 9];
  }

  // ---------------------------------------------------------------------------
  // Listing

  /** `DirEntry`: one listed object. */
  datatype DirEntry = DirEntry(path: string, size: int, folder: bool)

  /** `ends_with("/")`. */
  predicate EndsWithSlash(s: string)
    ensures EndsWithSlash(s) <==> |s| > 0 && s == s[..|s| - 1] + "/"
  {
    |s| > 0 && s[|s| - 1] == '/'
  }

  /** The entry for one listed object: none without a key; a folder when the key ends in `/`. */
  function EntryOf(obj: ListedObject): (r: Option<DirEntry>)
    ensures r.Some? <==> obj.key.Some?
    ensures r.Some? ==> r.value.path == obj.key.value && r.value.size == obj.size
    ensures r.Some? ==> (r.value.folder <==> EndsWithSlash(obj.key.value))
  {
    match obj.key
    case None => None
    case Some(k) => Some(DirEntry(k, obj.size, EndsWithSlash(k)))
  }

  /** The listing as entries: keyless objects dropped, order kept. */
  function Entries(contents: seq<ListedObject>): (r: seq<DirEntry>)
    ensures |r| <= |contents|
    ensures forall e :: e in r ==> (e.folder <==> EndsWithSlash(e.path))
  {
    if contents == [] then []
    else
      var last := contents[|contents| - 1];
      var init := Entries(contents[..|contents| - 1]);
      match EntryOf(last)
      case None => init
      case Some(e) => init + [e]
  }

  lemma {:induction false} EntriesAppend(a: seq<ListedObject>, b: seq<ListedObject>)
    ensures Entries(a + b) == Entries(a) + Entries(b)
    decreases |b|
  {
    if b == [] {
      assert a + b == a;
    } else {
      var init := b[..|b| - 1];
      assert (a + b)[..|a + b| - 1] == a + init;
      EntriesAppend(a, init);
    }
  }

  /**
   * Where each entry comes from: strictly increasing positions in the
   * listing, every keyed object among them, each entry made from its object.
   */
  function Origins(contents: seq<ListedObject>): (ix: seq<nat>)
    ensures |ix| == |Entries(contents)|
    ensures forall j :: 0 <= j < |ix| ==> ix[j] < |contents| && contents[ix[j]].key.Some?
    ensures forall j :: 0 <= j < |ix| ==> Entries(contents)[j] == EntryOf(contents[ix[j]]).value
    ensures forall j, j' :: 0 <= j < j' < |ix| ==> ix[j] < ix[j']
    ensures forall i :: 0 <= i < |contents| && contents[i].key.Some? ==> i in ix
  {
    if contents == [] then []
    else
      var n := |contents| - 1;
      var init := contents[..n];
      var ix := Origins(init);
      assert forall i :: 0 <= i < n ==> contents[i] == init[i];
      assert Entries(contents) ==
        if contents[n].key.Some? then Entries(init) + [EntryOf(contents[n]).value] else Entries(init);
      if contents[n].key.Some? then ix + [n] else ix
  }

  /** The loop of `walkdir` over the page, pushing one entry per keyed object. */
  method CollectEntries(contents: seq<ListedObject>) returns (entries: seq<DirEntry>)
    ensures entries == Entries(contents)
  {
    entries := [];
    for i := 0 to |contents|
      invariant entries == Entries(contents[..i])
    {
      assert contents[..i + 1][..i] == contents[..i];
      match contents[i].key
      case None =>
      case Some(filepath) =>
        entries := entries + [DirEntry(filepath, contents[i].size, EndsWithSlash(filepath))];
    }
    assert contents[..|contents|] == contents;
  }

  /**
   * `walkdir`: a prefix that is not valid Unicode fails before any request;
   * otherwise one listing request, whose error is returned whole, or whose
   * page becomes the entries.
   */
  method Walkdir(o: OpenOptions, path: seq<OsUnit>) returns (r: Result<seq<DirEntry>, S3FilesystemError>)
    modifies o.s3Client
    ensures o.s3Client.objects == old(o.s3Client.objects)
    ensures !IsUtf8(path) ==> r == Err(Io(InvalidListPrefix)) && o.s3Client.sent == old(o.s3Client.sent)
    ensures IsUtf8(path) ==> o.s3Client.sent == old(o.s3Client.sent) + [List(o.bucket, ToStr(path).value)]
    ensures IsUtf8(path) && old(o.s3Client.Rejects(|o.s3Client.sent|)) ==>
      r == Err(S3(SdkError(OpListObjectsV2, o.s3Client.faults[old(|o.s3Client.sent|)].reason)))
    ensures IsUtf8(path) && !old(o.s3Client.Rejects(|o.s3Client.sent|)) ==>
      r == Ok(Entries(o.s3Client.PageAt(old(|o.s3Client.sent|))))
  {
    var prefix := ToStr(path);
    if prefix.None? {
      return Err(FromIo(InvalidListPrefix));
    }
    var objects := o.s3Client.ListObjectsV2(o.bucket, prefix.value);
    if objects.Err? {
      return Err(FromSdk(objects.error));
    }
    var entries := CollectEntries(objects.value);
    r := Ok(entries);
  }
}
