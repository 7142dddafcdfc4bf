# s3-filesystem, modelled in Dafny

`s3-filesystem` mounts an S3 bucket under a local directory. An `OpenOptions`
value binds four things: a shared S3 client, a bucket, a mount root (by default
`target/temp`) and a `force_download` flag. It offers three operations:

- `open_s3` is fetch-or-cache. A copy already on disk is opened read-only and
  the store is not contacted, unless a refresh is forced. Otherwise the object
  is downloaded chunk by chunk into `mount/bucket/key`, and the file comes back
  rewound to its start.
- `write_s3` is write-through. It writes the buffer to the local mirror file and
  uploads the whole file.
- `walkdir` lists the objects under a prefix.

Every failure is one of three errors: `S3`, `ByteStream` or `Io`.

The model has six modules:

- `Prelude`: `Option`, `Result`, bytes, and the concatenation of chunks.
- `S3Error` (`error.dfy`): the error taxonomy, its `From` conversions and its
  `Display` text.
- `OsPath` (`paths.dfy`): OS paths. A path is a sequence of units, and a unit
  may be invalid Unicode. It is split into components at the platform's
  separators: `/` on Unix, `/` and `\` on Windows.
- `Disk` (`disk.dfy`): the local filesystem, a `LocalDisk` object with a map
  from path to bytes and a set of directories. Its `Valid` tree invariant is
  kept by every primitive.
- `ObjectStore` (`store.dfy`): the remote side, an `S3Client` object holding:
  - the stored objects;
  - the log of every request sent (the remote-call counter is its length);
  - an oracle that decides, per request number, whether the request is
    refused or its body stream breaks, and which listing page it gets.
- `Fs` (`fs.dfy`): the builder, `open_s3`, `write_s3` and `walkdir`.

`open_s3` and `write_s3` are methods that change the disk and the client step
by step, as the source does. The chunk loop of `open_s3` is a `while` loop
whose invariant ties the file content to the chunks written so far. The loop of
`walkdir` is a `for` loop proved equal to a filter-map over the listing.

Behaviour that follows the code rather than its comments:

- **No truncation.** The documentation of `write_s3` says it overwrites an
  existing file (src/fs.rs:194-196). The file is opened without truncation, so:
  - an older, longer local copy keeps its tail after `buf`;
  - that tail is uploaded too;
  - `open_s3` on a miss has the same effect, leaving `body ++ old[|body|..]`.

  `Fs.StaleTailSurvives` shows a concrete case. `Fs.WriteThenOpen` states when
  the bytes read back are exactly `buf`.
- **Folder sizes are copied.** `DirEntry` (src/fs.rs:343-352) is the datatype
  `Fs.DirEntry`. Its comment says folders have size 0
  (src/fs.rs:348). `walkdir` copies the size the listing reports.
- **Backslashes split the mirror on Unix.** The remote key turns every `\` into
  `/`. On Unix, `\` is not a path separator, so `a\b` and `a/b` fetch the same
  object into two different local files (`Fs.UnixSeparatorStylesSplitMirror`).
  On Windows they share one file (`Fs.WindowsSeparatorStylesShareMirror`).

## Model

| member | source | states |
|---|---|---|
| S3Error.FromIo | src/error.rs:15-19 | converting an I/O error gives the `Io` variant carrying exactly that error |
| S3Error.FromSdk | src/error.rs:21-25 | converting an SDK error gives the `S3` variant carrying exactly that error |
| S3Error.FromByteStream | src/error.rs:27-31 | converting a stream error gives the `ByteStream` variant carrying exactly that error |
| S3Error.VariantsExhaustiveAndDisjoint | src/error.rs:6-13 | every error is exactly one of `S3`, `ByteStream`, `Io`, and `VariantOf` names it |
| S3Error.ConversionsInjective | src/error.rs:15-31 | the three conversions never produce equal errors, and each is injective in the error it wraps |
| S3Error.ParseDisplay | src/error.rs:32-42 | reading a displayed error back: when a variant is recognised, its prefix followed by the rest is the whole text |
| S3Error.Display | src/error.rs:32-42 | the text starts with "S3 Error: ", "IO Error: " or "ByteStream error: " for the respective variant, and what follows the prefix is the inner error's text |
| S3Error.DisplayRoundTrip | src/error.rs:32-42 | parsing a displayed error back recovers its variant and its inner text, so no prefix shadows another |
| S3Error.DisplayDistinguishesVariants | src/error.rs:32-42 | two errors with the same text have the same variant and the same inner text |
| OsPath.Units | src/fs.rs:75 | the path of a Rust string (`DEFAULT_DATA_STORE.into()`, a string key as `AsRef<Path>`) has one character unit per character, in order |
| OsPath.ToStr | src/fs.rs:145 | `to_str` succeeds exactly when every unit is a character, and then its text has exactly those units |
| OsPath.ToStrOfUnits | src/fs.rs:145 | the path of a Rust string always converts back to that string |
| OsPath.Components | src/fs.rs:143 | a path starts with a separator exactly when its first component is the root; every component is non-empty |
| OsPath.ComponentsOfJoin | src/fs.rs:143 | the components of a relative path made of non-empty, separator-free names joined by `/` are exactly those names, in order |
| OsPath.NamesOfJoin | src/fs.rs:143 | splitting such a joined path at its separators gives back exactly the names it was joined from |
| OsPath.Names | src/fs.rs:143 | the components of a path are non-empty and contain no separator of the platform |
| OsPath.Slashed | src/fs.rs:146 | on the unit level, every `\` becomes `/` and every other unit, including a non-Unicode one, is kept in place |
| OsPath.WindowsComponentsIgnoreSeparatorStyle | src/fs.rs:143 | on Windows, replacing `\` by `/` does not change the components of a path |
| OsPath.UnixBackslashIsNotASeparator | src/fs.rs:143-146 | on Unix, `a\b` is one component while `a/b` is two, though both give the key `a/b` |
| Disk.Overwrite | src/fs.rs:183-185 | writing in place without truncation: the bytes before the position are kept, the data covers its span, the old bytes beyond its end survive, and the length is the larger of the two ends |
| Disk.OverwriteTwice | src/fs.rs:183-185 | writing two chunks one after the other equals writing their concatenation once |
| Disk.OverwriteFromStart | src/fs.rs:166-185 | writing from offset 0 leaves the data followed by the old tail beyond it; it leaves exactly the data when the old content was not longer |
| Disk.ParentDir | src/fs.rs:161-164 | `Path::parent`: a path is its parent followed by its last component, and a one-component path has the empty parent, for which `create_dir_all` does nothing |
| Disk.LocalDisk.CreateDirAll | src/fs.rs:161-164 | succeeds exactly when the directory has no NUL unit and no prefix of it is a file; on success every prefix is a directory, and the empty path changes nothing; a failure changes nothing and is the NUL `InvalidInput` error, else `AlreadyExists` when the directory itself is a file (always on Windows), `NotADirectory` otherwise; the tree invariant, which keeps NUL out of every name, is kept |
| Disk.LocalDisk.Exists | src/fs.rs:152 | `metadata().is_ok()`: something is at the path, which is neither empty nor holds a NUL unit; in a valid tree it is a file or a directory, never both |
| Disk.LocalDisk.OpenRead | src/fs.rs:152-159 | a read-only open succeeds exactly when something exists at the path, with the cursor at 0; a NUL unit is `InvalidInput`, anything else missing `NotFound` |
| Disk.LocalDisk.OpenCreate | src/fs.rs:166-171 | opening with create succeeds exactly when the path is non-empty, has no NUL unit, is not a directory, and its parent is one; a NUL unit is the `InvalidInput` error; it creates an empty file only if there was none and never truncates |
| Disk.LocalDisk.Write | src/fs.rs:184 | the data lands at the cursor, without truncation, and the cursor moves past it |
| Disk.LocalDisk.ReadFile | src/fs.rs:253 | the upload body is the file's whole current content |
| Disk.LocalDisk.RemoveFile | src/fs.rs:178 | succeeds exactly when a file was at the path, which is gone afterwards; a NUL unit gives `InvalidInput`, a directory `IsADirectory` |
| ObjectStore.Chunks | src/fs.rs:183 | the chunks of a body are non-empty, at most the chunk size each, and concatenate to the body |
| ObjectStore.Body.TryNext | src/fs.rs:183 | `try_next` yields each chunk in order, then either the end of the stream or its error |
| ObjectStore.S3Client.GetReplyBody | src/fs.rs:175-185 | a downloaded body is a prefix of the stored object, and the whole object when the stream ends normally |
| ObjectStore.S3Client.GetObject | src/fs.rs:173-181 | one `Get` request is logged, and the reply is the oracle's answer for it |
| ObjectStore.S3Client.PutObject | src/fs.rs:255-261 | one `Put` request is logged; a refused request changes nothing, otherwise the object becomes the body |
| ObjectStore.S3Client.ListObjectsV2 | src/fs.rs:306-322 | one `List` request is logged; it is refused whole, or it returns the single page for it |
| Fs.DefaultDataStoreComponents | src/fs.rs:20 | the default mount root `target/temp` has exactly the two components `target` and `temp` on either platform |
| Fs.DefaultMirrorRoot | src/fs.rs:72-77 | a fresh configuration mirrors every key under `target/temp/<bucket>` |
| Fs.New | src/fs.rs:63-78 | the bucket given, the client given (or the discovered one if none), mount root `target/temp`, no forced download |
| Fs.MountPath | src/fs.rs:84-90 | only the mount root changes |
| Fs.ForceDownload | src/fs.rs:96-99 | only the freshness flag changes |
| Fs.BuilderCallsCommute | src/fs.rs:84-99 | the two setters commute, and a second call of either overrides the first |
| Fs.BuilderKeepsBucketAndClient | src/fs.rs:63-99 | after `new` and both setters, the bucket and client are those given to `new` |
| Fs.ReplaceBackslashes | src/fs.rs:146 | same length; each `\` becomes `/`, every other character is kept in place |
| Fs.ReplaceBackslashesProperties | src/fs.rs:146 | the result has no `\`, is a fixed point, and equals the input when the input had no `\` |
| Fs.S3DataPath | src/fs.rs:145-150 | a non-Unicode path is refused with the InvalidInput "Invalid File Path" error; otherwise the key is the path with `\` turned into `/` |
| Fs.SeparatorStylesShareRemoteKey | src/fs.rs:145-150 | a path and its `/`-only form give the same key, or the same error |
| Fs.MirrorPath | src/fs.rs:143 | `mount_path.join(bucket).join(path)`: the file lies under the mount root, and its last components are those of the key |
| Fs.MirrorPathSeparatesBuckets | src/fs.rs:143 | with the same mount root and a plain relative key, equal mirror paths imply buckets with equal components |
| Fs.DistinctBucketsDistinctMirrors | src/fs.rs:143 | two configurations that differ only in bucket name, each a plain directory name (no separator, not `.` or `..`, no drive), never map a plain relative key to the same local file |
| Fs.WindowsSeparatorStylesShareMirror | src/fs.rs:143-146 | on Windows, both separator styles of a key share one local file and one remote object |
| Fs.UnixSeparatorStylesSplitMirror | src/fs.rs:143-146 | on Unix, `a\b` and `a/b` name the same remote object but different local files |
| Fs.LiftIo | src/fs.rs:155-158 | `?` on a local result keeps success and wraps an I/O error as the `Io` variant |
| Fs.RemoveOnFailure | src/fs.rs:177-180 | after a failed remote call the local file is gone; the remote error is returned, or the `Io` error of the removal when it fails |
| Fs.OpenS3 | src/fs.rs:136-190 | non-Unicode key: InvalidInput, nothing touched; local conflict (parent not creatable, NUL in the name, or a directory at the path): an `Io` error, files unchanged, no request, and a NUL name under an unobstructed parent is `InvalidInput`; cache hit: the copy read-only at 0, disk unchanged, no request; miss: parent dirs created unless they cannot be, and without a conflict one `Get`, refused: file removed and `S3` error, received: the object followed by the old bytes beyond its length, at cursor 0, or the partial file and the `ByteStream` error (details below) |
| Fs.Refresh | src/fs.rs:161-189 | the miss path: a local conflict is an `Io` error with files unchanged and no request, the NUL `InvalidInput` error for a NUL name under an unobstructed parent; the parent directories exist unless they cannot be made, in which case the directories are unchanged; without a conflict exactly one `Get` is sent, and the outcome is as for `Download` |
| Fs.OpenAndDownload | src/fs.rs:166-189 | once the parent exists: a directory at the path or a NUL unit in it is an `Io` error with files unchanged and no request, the NUL one `InvalidInput`; otherwise the file is opened without truncation (created empty when missing) and exactly one `Get` follows, with the outcome as for `Download` over that opened content |
| Fs.Download | src/fs.rs:173-189 | a refused request removes the file and returns the `S3` error; a received body is written over the old content from offset 0 (the whole object when the stream ends, a prefix when it breaks), with the cursor at 0 or the `ByteStream` error |
| Fs.WriteBody | src/fs.rs:183-189 | the file becomes the old content overwritten from 0 by the concatenated chunks; the handle is rewound, or the stream's error is returned with the partial file left |
| Fs.WriteChunkStep | src/fs.rs:183-185 | one more chunk written at the cursor extends the concatenation by that chunk, and overwriting with the longer concatenation equals overwriting with the shorter one and then writing the chunk where it ended |
| Fs.WriteS3 | src/fs.rs:224-268 | parent dirs created before the Unicode check, failing on an obstructed or NUL parent; a NUL name under an unobstructed parent is `InvalidInput`; then exactly one `Put` of the whole on-disk file (`buf` written from 0 without truncation); refused: file removed and `S3` error; success: disk and store hold that content (details below) |
| Fs.UploadUnderKey | src/fs.rs:238-267 | once the parent exists: a path that is not valid Unicode is `InvalidInput` with disk and store untouched and no request; otherwise the key is the path with `/` separators and the outcome is that of `Upload` under it |
| Fs.Upload | src/fs.rs:244-267 | a directory at the path or a NUL unit in it is an `Io` error with no request, the NUL one `InvalidInput`; otherwise exactly one `Put` of the file's whole content after writing `buf` from 0; on refusal the file is removed and the `S3` error is returned; on success a handle with the cursor at the end of `buf` |
| Fs.WriteThenOpen | src/fs.rs:152-159 | after a successful write, a non-forcing `open_s3` serves the written file from cache with no second request; disk and store hold the written content, which is exactly `buf` unless an older, longer copy was there |
| Fs.StaleTailSurvives | src/fs.rs:166-171 | writing `[9,9]` over `[1,2,3,4,5]` leaves `[9,9,3,4,5]` |
| Fs.EndsWithSlash | src/fs.rs:335 | `ends_with("/")`: the text is non-empty and is its own prefix followed by `/` |
| Fs.EntryOf | src/fs.rs:327-336 | an object without a key gives no entry; otherwise its key and size unchanged, and `folder` exactly when the key ends with `/` |
| Fs.Entries | src/fs.rs:324-339 | at most one entry per listed object, each with `folder` exactly when its path ends with `/` |
| Fs.EntriesAppend | src/fs.rs:326-337 | the filter-map from listed objects to entries distributes over concatenation of listings |
| Fs.Origins | src/fs.rs:326-337 | the entries come from strictly increasing positions of the listing (order kept), every keyed object is among them, and each entry is made from its object |
| Fs.CollectEntries | src/fs.rs:324-337 | the `for` loop pushing entries computes exactly `Entries` of the page |
| Fs.Walkdir | src/fs.rs:299-340 | non-Unicode prefix: InvalidInput with no request; otherwise one `List` with the prefix text, whose refusal is the `S3` error and whose page becomes `Entries` (details below) |

`Fs.OpenS3` (src/fs.rs:136-190) states, case by case:

- **Key not valid Unicode:** the `Io` InvalidInput error; nothing touched, no
  request.
- **Cache hit** (the mirror path exists and no forced refresh): the existing
  file, read-only, with the cursor at 0. The disk is unchanged and no request
  is sent.
- **Miss with a local conflict** (the parent cannot be created because it
  holds a NUL unit or a file is in the way, the name holds a NUL unit, or the
  mirror path is a directory): an `Io` error, no file changed, no request. A
  NUL unit under a parent that no file obstructs gives `InvalidInput`.
- **Any miss:** the parent directories exist afterwards unless they cannot be
  created; then the directories are unchanged.
- **Miss without a conflict:**
  - exactly one `Get` is sent;
  - a refused request removes the local file (even a cached copy under forced
    refresh) and returns the `S3` error;
  - a body that is received is written over the old content from offset 0,
    without truncation;
  - a complete stream gives a read-write handle with the cursor at 0, over
    `object ++ old[|object|..]`;
  - a broken stream gives the `ByteStream` error and leaves the partial file.
- The store's objects never change.

`Fs.WriteS3` (src/fs.rs:224-268) states:

- **A parent that cannot be created** (a file in the way, or a NUL unit): an
  `Io` error before anything else.
- **Otherwise:** the parent directories exist afterwards, even when the key is
  then refused. A key that is not valid Unicode gives InvalidInput, with no
  file written and no request.
- **The mirror path is a directory or its name holds a NUL unit:** an `Io`
  error, with no request; the NUL case is `InvalidInput`.
- **Otherwise:** exactly one `Put`, whose body is the old content overwritten
  from 0 by `buf`, the whole file on disk.
  - A refused upload removes the local file and returns the `S3` error; the
    store is unchanged.
  - On success, the disk and the store hold that content, and the handle's
    cursor is at `|buf|`.

`Fs.Walkdir` (src/fs.rs:299-340) states:

- A prefix that is not valid Unicode gives the `Io` InvalidInput error with no
  request.
- Otherwise exactly one `List` request is sent with the prefix text.
- A refused request gives its `S3` error and no entries.
- Otherwise the result is `Entries` of the returned page. `Fs.Origins` states
  its order and filtering.

## Left out

- Discovering the client from the environment (src/fs.rs:67-68) is I/O. `Fs.New`
  takes the discovered client as a parameter.
- Request building, signing and the network are not modelled. The store is a
  map, a request log and a failure oracle.
- `async`, concurrency between calls and cancellation are not modelled. Each
  call runs to completion alone, and each disk primitive is one atomic update.
- `Disk.LocalDisk.Write` assumes a full write. The single `write` at
  src/fs.rs:184 ignores the count it returns, so a short write would drop bytes
  there.
- `Fs.Upload` uploads the file only after the write has fully landed.
  The program does not flush after `write_all` (src/fs.rs:251) before
  `ByteStream::from_path` (src/fs.rs:253), and an asynchronous file write may
  return before the data reaches the file, so the program could upload
  older content.
- These local `?` exits are not modelled: the read-only open of an existing
  path, `write`, `seek`, `ByteStream::from_path`, and the removal of a file
  just created. Each can fail only through I/O faults the deterministic disk
  does not have. The local failures that are modelled: an obstructed
  directory, a path that is a directory, a missing parent, and a NUL unit in
  a name, which the standard library refuses as `InvalidInput` on every
  platform before the OS is asked.
- `Disk.LocalDisk.OpenCreate` and `Disk.LocalDisk.CreateDirAll` accept every
  name without a NUL unit and know no permissions. Names the OS itself
  refuses (on Windows `<>"|?*` and control characters), Windows device names
  such as `CON`, alternate data streams, a read-only mount root, a full disk
  and missing permissions are not modelled; in the program they fail the
  `open` or `create_dir_all` with an `Io` error before any request.
- Local names are compared exactly, unit by unit, as on a case-sensitive
  filesystem. On a case-insensitive one (the defaults of Windows and macOS)
  keys that differ only in case, such as `A.txt` and `a.txt`, share one
  mirror file: `open_s3` of one can be a cache hit serving the other's bytes,
  and `write_s3` of one can upload the other's stale tail. The model does not
  capture this.
- A read-only open of a directory succeeds, as on Linux.
- `Path::join` with an absolute key, `.` or `..`, a Windows drive prefix, an
  empty key or a trailing separator is required away (`PlainRelative`,
  `RelativeKey`). In the program such a key escapes the bucket namespace: `/x`
  drops the mount root and the bucket, and `../c/x` leaves the bucket
  directory. So the bucket-namespace lemmas hold for plain relative keys only. The mount root is split into components as given, without
  collapsing `.`.
- Listing pagination is not modelled; only the single page returned is read,
  as at src/fs.rs:319. Which page a listing returns is the oracle's choice,
  not derived from the stored objects. The object size is an unbounded
  integer rather than `i64`.
- Chunk boundaries are a fixed chunk size of the client; the SDK may choose
  others. The contracts speak of the concatenated chunks, and of where a
  broken stream stops.
- The text of foreign errors (SDK, stream, I/O) is opaque, a message string
  per error. The SDK error's type parameters become a tag naming the remote
  operation.
- `std::error::Error` for `S3FilesystemError` (src/error.rs:43-48) is a
  marker with nothing to model.
- Reading through the returned handle is not modelled. A handle is its path,
  its cursor and its access mode.
