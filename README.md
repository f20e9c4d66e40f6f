# Tencent COS file system — a Dafny model

TensorFlow's `cos://` file system makes a flat Tencent Cloud Object Storage
(COS) store look like a hierarchical file system. COS addresses objects by
(bucket, key). A "directory" is a key prefix ending in `/`, and an empty
directory is kept alive by a zero-length marker object whose key is that
prefix. This project models the file system layer
(`tensorflow/core/platform/cos/cos_file_system.cc`) on top of an abstract
object store, and proves what each operation does to that store.

The project has eight modules:

- `Outcomes` (outcomes.dfy): status codes, `Result`, `Option`.
- `Keys` (keys.dfy): the lexicographic order on keys, sorted key sets,
  trailing-slash handling, and the delimiter roll-up that turns keys into
  listing entries.
- `CosPath` (cos_path.dfy): the `cos://bucket/key` parser and its round
  trip with the canonical path text.
- `ObjectStore` (object_store.dfy): the store. It is a class holding
  `objects: map<ObjectId, Bytes>`, the set of existing buckets, and a
  fault oracle `faults: set<Request>`; a request in that set fails.
  - Reads are functions: bucket check, HEAD, ranged GET, and the paged
    GET Bucket listing.
  - A ranged GET that starts at or past the end of the object is
    unsatisfiable (section 4.4 of RFC 7233). Otherwise the range is cut at
    the end of the object (section 2.1 of RFC 7233).
  - A range whose last byte precedes its first is syntactically invalid.
    The store is taken to ignore such a range and send the whole object,
    as section 14.35.1 of RFC 2616 requires.
  - The listing sorts lexicographically, starts after a marker, rolls keys
    up at a delimiter, and cuts pages at `maxKeys`, with the page's last
    entry as its next marker.
  - PUT (at most 5 GiB), DELETE and COPY are methods that change `objects`.
- `RandomAccessFile` (random_access_file.dfy): the ranged reader, with the
  byte range computed in 64-bit arithmetic as the source does.
- `WritableFile` (writable_file.dfy): the buffered writer. It is a class
  with the staged bytes, the shared stream position, a usable flag, the
  sync-needed flag and a closed flag.
- `Rename` (rename.dfy): what a rename does to the store, as a map, after
  any number of keys have been moved, and after a failed request.
- `FileSystem` (file_system.dfy): the `CosFileSystem` class with Stat,
  FileExists, GetFileSize, the three file constructors, DeleteFile,
  CreateDir, DeleteDir, GetChildren and RenameFile. The loops of
  GetChildren, RenameFile and NewAppendableFile are methods with their own
  invariants, one page or one chunk per helper method.

Whatever cannot be seen from the file system layer is a parameter:

- Which store requests fail is the store's `faults` set.
- Whether the local staging stream opens is a boolean given to the writer.
- Which local writes fail is a boolean per append, or a set of append
  indices for NewAppendableFile.

Although `sync_needed_` reads like a dirty flag, it is set by the
constructor (line 172) and by every append, and it is never cleared. So the
early return at lines 208-210 never runs, and every sync uploads.
`CosWritableFile.Valid()` includes `syncNeeded`.

## Model

| member | source | states |
|---|---|---|
| CosPath.ParseCosPath | tensorflow/core/platform/cos/cos_file_system.cc:93-116 | the only failure is InvalidArgument; a parsed bucket is non-empty, is not `.` and holds no `/`; with empty keys disallowed, a parsed key is non-empty, which is what makes the later `.back()` calls safe |
| CosPath.ParseUriJoins | tensorflow/core/platform/cos/cos_file_system.cc:99 | the URI splitter loses nothing: scheme, `://`, host and path concatenate back to the text, and the path is empty or starts with `/` |
| CosPath.ParseCosUri | tensorflow/core/platform/cos/cos_file_system.cc:98-115 | parsing `cos://bucket/key` gives back (bucket, key) for every valid bucket and every key the flag allows; the single leading `/` is consumed |
| CosPath.ParsedPathIsCanonical | tensorflow/core/platform/cos/cos_file_system.cc:98-110 | the converse: every path that parses is `cos://bucket/key` of its own result, or the bare `cos://bucket` for the bucket root |
| CosPath.ParseWithSlash | tensorflow/core/platform/cos/cos_file_system.cc:484-487 | appending `/` to the text of a path with a non-empty key parses to the same bucket and to the key with `/` appended |
| ObjectStore.KeysIn | tensorflow/core/platform/cos/cos_file_system.cc:550 | a key is listed under a prefix exactly when the object exists in that bucket and its key starts with the prefix |
| ObjectStore.Store.List | tensorflow/core/platform/cos/cos_file_system.cc:367-381 | every key of a page starts with the queried prefix and is not rolled up; every common prefix starts with the queried prefix, is longer than it and ends at the delimiter, which the `substr` calls rely on |
| ObjectStore.Store.ListAdvance | tensorflow/core/platform/cos/cos_file_system.cc:383-384 | a page reports only entries still to come; a truncated page is non-empty, and listing from its next marker gives exactly the entries it did not report; a page that is not truncated reports everything left |
| ObjectStore.Store.FirstPlainPage | tensorflow/core/platform/cos/cos_file_system.cc:438-445 | without a delimiter, the first page of at most maxKeys keys is the smallest min(maxKeys, n) of the n keys under the prefix, in order |
| ObjectStore.Store.PlainOrder | tensorflow/core/platform/cos/cos_file_system.cc:562 | without a delimiter, a page is increasing, holds only keys still to come, and each of its keys sorts before every key it leaves out |
| ObjectStore.Store.PlainAdvance | tensorflow/core/platform/cos/cos_file_system.cc:590-591 | without a delimiter, every key a truncated page leaves out sorts after its next marker, and a page that is not truncated holds every key left |
| ObjectStore.Store.Put | tensorflow/core/platform/cos/cos_file_system.cc:216-223 | PUT succeeds exactly when the bucket exists, the request is not faulted and the content is at most 5 GiB; it then replaces the whole object, and nothing else changes |
| ObjectStore.Store.Delete | tensorflow/core/platform/cos/cos_file_system.cc:461-465 | DELETE succeeds exactly when the bucket exists and the request is not faulted, also for a missing key; it removes that one key |
| ObjectStore.Store.Copy | tensorflow/core/platform/cos/cos_file_system.cc:569-574 | COPY succeeds exactly when the source object and the target bucket exist and the request is not faulted; the target key then holds the source's bytes, whatever it held before |
| RandomAccessFile.RangeLast | tensorflow/core/platform/cos/cos_file_system.cc:131 | the last byte of the requested range in unsigned 64-bit arithmetic: `offset + n - 1` when that fits, and a value below offset (or 2^64 - 1 at offset 0) when n is 0 or the range wraps |
| RandomAccessFile.CosRandomAccessFile.Read | tensorflow/core/platform/cos/cos_file_system.cc:124-145 | a read reports OK or OutOfRange; OutOfRange hands back no bytes; OK hands back the object's bytes from offset up to offset + n or the object's end, or, for a wrapped range, the whole object |
| RandomAccessFile.CosRandomAccessFile.ReadBounded | tensorflow/core/platform/cos/cos_file_system.cc:124-145 | the corrected read never hands back more than n bytes; it succeeds exactly when n is 0 or the object exists, offset is inside it and the GET is not faulted, and it then hands back `d[offset..min(offset + n, \|d\|)]` |
| RandomAccessFile.CosRandomAccessFile.ReadAgrees | tensorflow/core/platform/cos/cos_file_system.cc:131 | for every read of at least one byte whose range fits in 64 bits, the read as written is the corrected read |
| RandomAccessFile.CosRandomAccessFile.ReadWrapsToWholeObject | tensorflow/core/platform/cos/cos_file_system.cc:131-143 | a zero-byte or wrapping read of a non-empty object hands back the whole object, unlike the corrected read |
| RandomAccessFile.CosRandomAccessFile.ReadEmptyObject | tensorflow/core/platform/cos/cos_file_system_test.cc:53-59 | reading the whole of an empty object (a zero-byte read at offset 0) fails with OutOfRange, where the corrected read succeeds with nothing |
| RandomAccessFile.CosRandomAccessFile.ReadWhole | tensorflow/core/platform/cos/cos_file_system_test.cc:82-85 | reading a non-empty object from 0 for its length hands back the whole object |
| RandomAccessFile.CosRandomAccessFile.ReadFourFromTwo | tensorflow/core/platform/cos/cos_file_system_test.cc:89-91 | four bytes at offset 2 of a fourteen-byte object are bytes 2 to 5 |
| WritableFile.CosWritableFile.constructor | tensorflow/core/platform/cos/cos_file_system.cc:167-176 | a new writer has nothing staged, a sync due, and is usable exactly when its staging stream opened |
| WritableFile.CosWritableFile.Append | tensorflow/core/platform/cos/cos_file_system.cc:178-190 | FailedPrecondition on an unusable stream; otherwise the data is staged after what was staged before, or the stream becomes unusable and the result is Internal; the write position stays at the end and a sync stays due |
| WritableFile.CosWritableFile.Sync | tensorflow/core/platform/cos/cos_file_system.cc:203-231 | on a usable stream, uploads the whole staged content as the object's new value; OK exactly when that PUT succeeds, else Internal with the store unchanged; staged bytes and write position are as before |
| WritableFile.CosWritableFile.Flush | tensorflow/core/platform/cos/cos_file_system.cc:201 | exactly what Sync does |
| WritableFile.CosWritableFile.Close | tensorflow/core/platform/cos/cos_file_system.cc:192-199 | a usable writer uploads its staged content and closes only when that succeeds, otherwise reports Internal and stays open; an unusable writer closes without uploading |
| Rename.NormalizeTarget | tensorflow/core/platform/cos/cos_file_system.cc:538-546 | a source ending in `/` leaves a target that ends in `/` unchanged and appends `/` to any other; any other source leaves a target without a trailing `/` unchanged and drops one trailing `/` otherwise |
| Rename.NormalizeTargetKind | tensorflow/core/platform/cos/cos_file_system.cc:538-546 | unless the target ends in `//`, the normalized target ends in `/` exactly when the source does |
| Rename.TargetKey | tensorflow/core/platform/cos/cos_file_system.cc:563-565 | the target key starts with the target prefix and is as much longer than it as the source key is longer than the source prefix |
| Rename.TargetKeyInjective | tensorflow/core/platform/cos/cos_file_system.cc:565 | two source keys under the prefix go to the same target key only if they are equal, so no copy overwrites another |
| Rename.MovedMeaning | tensorflow/core/platform/cos/cos_file_system.cc:562-589 | after moving a set of keys, each is gone from the source, its bytes sit at its target key whatever was there, and every other object is untouched |
| Rename.MovedStep | tensorflow/core/platform/cos/cos_file_system.cc:569-588 | copying one more key to its target and then deleting it turns the store with n keys moved into the store with n + 1 keys moved |
| Rename.MovedKeys | tensorflow/core/platform/cos/cos_file_system.cc:548-556 | after moving some keys, the keys a new listing finds under the source prefix are exactly the others |
| Rename.RenameReplacesTarget | tensorflow/core/platform/cos/cos_file_system_test.cc:211-222 | a completed rename of an object removes the source and puts its bytes at the target, replacing an existing target |
| Rename.RenameMovesExtensions | tensorflow/core/platform/cos/cos_file_system.cc:550 | renaming a plain object also moves every key that extends its name: `a` to `c` turns `ab` into `cb` |
| FileSystem.DeleteDirDecisionOfKeys | tensorflow/core/platform/cos/cos_file_system.cc:509-523 | deciding on the two smallest keys is deciding on all of them: refuse when any key but the marker exists, remove a lone marker, do nothing when there are no keys |
| FileSystem.ChildOfEntry | tensorflow/core/platform/cos/cos_file_system.cc:367-381 | an entry's remainder after the prefix is non-empty exactly when it is not the prefix itself; a key names that remainder, a common prefix names it without its trailing `/` |
| FileSystem.AppendPrefixChildren | tensorflow/core/platform/cos/cos_file_system.cc:367-374 | the loop over a page's common prefixes appends `ChildSeq` of them to what was there: in page order, one name per common prefix longer than the directory prefix, repeats kept |
| FileSystem.AppendKeyChildren | tensorflow/core/platform/cos/cos_file_system.cc:375-382 | the loop over a page's keys appends `ChildSeq` of them to what was there: in page order, one name per key other than the directory's marker, repeats kept |
| FileSystem.AppendPageChildren | tensorflow/core/platform/cos/cos_file_system.cc:367-382 | a page appends exactly `PageChildren`: the children of its common prefixes, then those of its keys |
| FileSystem.ChildSeqAppend | tensorflow/core/platform/cos/cos_file_system.cc:367-382 | one more entry appends its child at the end, unless it is the directory prefix itself |
| FileSystem.ChildSeqElems | tensorflow/core/platform/cos/cos_file_system.cc:367-382 | as a set, the sequence of children is the set of children of the entries |
| FileSystem.PageChildrenElems | tensorflow/core/platform/cos/cos_file_system.cc:367-382 | as a set, a page's children are the children of the page's entries |
| FileSystem.AppendChunk | tensorflow/core/platform/cos/cos_file_system.cc:303-310 | one read of 1 MiB at offset: when it finds data, the staged bytes become the object's first offset + 1 MiB bytes; when it does not, either offset is past the end or that GET was faulted |
| FileSystem.ReadBack | tensorflow/core/platform/cos/cos_file_system.cc:302-315 | the read-back loop ends; a usable writer then holds a prefix of the object, shorter only at a 1 MiB boundary whose GET was faulted; with no failed local writes the writer stays usable |
| FileSystem.CosFileSystem.ChildrenOfEntries | tensorflow/core/platform/cos/cos_file_system.cc:351-355 | rolling the keys under a directory up at `/` and naming each entry's child gives exactly the first path segments of the keys below the directory |
| FileSystem.CosFileSystem.ChildrenOfTree | tensorflow/core/platform/cos/cos_file_system_test.cc:140-157 | a directory holding a file, and a sub-directory marker or a file in that sub-directory, has exactly those two children, whatever its own marker |
| FileSystem.CosFileSystem.Stat | tensorflow/core/platform/cos/cos_file_system.cc:389-455 | fails only with InvalidArgument (exactly for a bad path) or NotFound; the bucket root is a directory only if the bucket exists; for any other key it is a file exactly when HEAD answers, with the object's length, and a directory of length 0 exactly when HEAD does not answer, the two-key listing succeeds and some key starts with the key; everything else is NotFound |
| FileSystem.CosFileSystem.FileExists | tensorflow/core/platform/cos/cos_file_system.cc:336-340 | OK exactly when Stat succeeds, with Stat's status otherwise; OK means the bucket, the object or some key under it exists |
| FileSystem.CosFileSystem.GetFileSize | tensorflow/core/platform/cos/cos_file_system.cc:526-531 | succeeds exactly when Stat does, with its status otherwise; the size is the object's length for a file and 0 for a directory |
| FileSystem.CosFileSystem.StatOfObject | tensorflow/core/platform/cos/cos_file_system.cc:407-433 | a key that HEAD finds is a file of the object's length, and GetFileSize reports that length |
| FileSystem.CosFileSystem.StatOfPrefix | tensorflow/core/platform/cos/cos_file_system.cc:434-450 | a key that is no object but starts some key is a directory of length 0, given a listing that does not fail |
| FileSystem.CosFileSystem.StatRawPrefix | tensorflow/core/platform/cos/cos_file_system.cc:434-445 | because the fallback listing uses the raw key, `a/b` is a directory when only `a/bc` exists |
| FileSystem.CosFileSystem.StatOfMissing | tensorflow/core/platform/cos/cos_file_system.cc:451-453 | a key that is no object and starts no key is NotFound, and so is FileExists of it |
| FileSystem.CosFileSystem.StatListingFails | tensorflow/core/platform/cos/cos_file_system.cc:436-453 | a key that HEAD does not find is NotFound, and so is FileExists of it, when the fallback listing fails, whatever keys start with it |
| FileSystem.CosFileSystem.StatHeadFails | tensorflow/core/platform/cos/cos_file_system.cc:407-453 | an existing object whose HEAD request fails is a directory of length 0 when the listing works, since its own key starts with itself |
| FileSystem.CosFileSystem.StatOfBucket | tensorflow/core/platform/cos/cos_file_system.cc:393-403 | the bucket root is a directory of length 0 exactly when the bucket check succeeds, NotFound otherwise |
| FileSystem.CosFileSystem.NewRandomAccessFile | tensorflow/core/platform/cos/cos_file_system.cc:271-277 | succeeds exactly when the path parses with a non-empty key, with a new reader on that bucket and key; InvalidArgument and no reader otherwise |
| FileSystem.CosFileSystem.NewWritableFile | tensorflow/core/platform/cos/cos_file_system.cc:279-287 | succeeds exactly when the path parses with a non-empty key, with a new open writer that has nothing staged, even over an existing object |
| FileSystem.CosFileSystem.NewAppendableFile | tensorflow/core/platform/cos/cos_file_system.cc:289-318 | succeeds exactly when the path parses; the new writer holds a prefix of the object, stopping short only at a 1 MiB boundary whose GET failed; with an opened stream and no failed local writes it is usable, and with no store faults a usable writer holds the whole object |
| FileSystem.CosFileSystem.DeleteFile | tensorflow/core/platform/cos/cos_file_system.cc:457-471 | InvalidArgument for a bad path; otherwise OK exactly when the DELETE succeeds, which removes only that key, and Internal with the store unchanged otherwise |
| FileSystem.CosFileSystem.CreateDir | tensorflow/core/platform/cos/cos_file_system.cc:473-492 | the bucket root only checks the bucket (NotFound if missing); any other key closes an empty writer at the key with `/` appended, which uploads a zero-length marker when the staging stream opened (OK exactly when that PUT succeeds) and reports OK without uploading when it did not; nothing else changes |
| FileSystem.CosFileSystem.DeleteDir | tensorflow/core/platform/cos/cos_file_system.cc:494-524 | a failed listing or an empty directory does nothing; a directory holding any key but its marker is FailedPrecondition and unchanged; a lone marker is deleted, and nothing else is |
| FileSystem.CosFileSystem.PageStep | tensorflow/core/platform/cos/cos_file_system.cc:383-384 | one page adds unseen entries to the seen ones; after a truncated page fewer are unseen and the next marker resumes at them; after the last page all are seen |
| FileSystem.CosFileSystem.ListShrinks | tensorflow/core/platform/cos/cos_file_system.cc:383-384 | following the next marker of a truncated page leaves fewer entries to list, so the paging loop ends |
| FileSystem.CosFileSystem.ChildrenFromElems | tensorflow/core/platform/cos/cos_file_system.cc:358-386 | by induction on the entries left: listing from a marker ends with OK or Internal; with OK it names exactly the children of the entries after the marker, with Internal some of them; it is OK when no listing request for the prefix fails |
| FileSystem.CosFileSystem.ChildrenListed | tensorflow/core/platform/cos/cos_file_system.cc:351-386 | a whole listing from the empty marker names exactly the directory's children (the first segments below it) when OK, some of them when Internal, and is OK when no listing request for the prefix fails |
| FileSystem.CosFileSystem.ChildrenPage | tensorflow/core/platform/cos/cos_file_system.cc:358-383 | one turn of the paging loop: a listed page appends exactly `PageChildren` and sets the next marker and the truncation flag from the page, and a truncated page leaves fewer entries to list; a failed request appends nothing and ends the loop; in both cases what has been appended, followed by `ChildrenFrom` the new marker, is still the whole listing |
| FileSystem.CosFileSystem.ListChildren | tensorflow/core/platform/cos/cos_file_system.cc:351-386 | the paging loop ends; the status and the names appended are those of `ChildrenFrom` the empty marker, that is the children of each page in page order, page after page; as a set, OK means exactly the directory's children and Internal a subset; when no listing request fails the result is OK |
| FileSystem.CosFileSystem.GetChildren | tensorflow/core/platform/cos/cos_file_system.cc:342-387 | InvalidArgument and nothing appended for a bad path; otherwise the directory is the key with `/` appended, and the status and the appended names are those of `ChildrenFrom` the empty marker, with the set-level facts of ListChildren |
| FileSystem.CosFileSystem.MoveKey | tensorflow/core/platform/cos/cos_file_system.cc:569-588 | copies one key and deletes it; a failed copy changes nothing, a failed delete leaves that key copied and not deleted; with no faults it succeeds |
| FileSystem.CosFileSystem.MoveKeys | tensorflow/core/platform/cos/cos_file_system.cc:562-589 | moves a page's keys in order; the moved keys stay the smallest ones, and the first failure stops with the store as the moves so far left it |
| FileSystem.CosFileSystem.RenamePage | tensorflow/core/platform/cos/cos_file_system.cc:553-591 | one listing page of the source prefix, moved; after a truncated page fewer keys are left and all sort after the next marker; after the last page every key is moved |
| FileSystem.CosFileSystem.RenameFile | tensorflow/core/platform/cos/cos_file_system.cc:533-594 | InvalidArgument for a bad path; OK means every key under the source key was copied to the normalized target plus the same suffix and removed; Internal leaves the smallest keys moved and at most one more copied but not deleted; with no faults it succeeds |

## Left out

- The null check of the output pointers (lines 95-97) has no counterpart, because the model returns its results.
- `io::ParseURI` is not part of this model. The model splits at the first `://` and then at the next `/`.
- Client configuration (lines 40-85), `GetCosClient` and `ShutdownClient` (lines 87-91, 262-269): environment variables, global logging setup, and locking that concerns only lifetime and concurrency.
- The temporary file's name from `random_string`, its `/tmp` path and its removal (lines 153-163, 173-174, 196). These are nondeterministic local I/O; the staging file is the writer's in-memory buffer.
- Error messages, the store's error codes inside them, and the copy-source URL built from the configured region (line 567). A copy is identified by source and target (bucket, key).
- The Last-Modified parsing of Stat (lines 414-421): it depends on libc and the local time zone. `FileStatistics` has no modification time.
- `CosReadOnlyMemoryRegion` and `NewReadOnlyMemoryRegionFromFile` (lines 242-252, 320-334): raw buffers. `GetMatchingPaths` (lines 596-599): it delegates to a shared glob helper. The file-system registration (line 601).
- A range whose last byte precedes its first: the store is assumed to ignore it and send the whole object. RFC 7233 (section 3.1) also lets a server answer 416 instead; the model does not cover a store that does. The `Read(5, 0)` half of the finding below depends on this assumption.
- Paths and keys are taken as text without NUL characters, one `char` per character. The source works on the bytes of `std::string` and passes several of them through `c_str()`: the cut at `strlen(prefix.c_str())` (lines 369, 378), the names pushed as `entry.c_str()` (lines 372, 380) and the target prefix given to `replace` as `target_object.c_str()` (line 565) all stop at the first NUL. A key with an embedded NUL would give shorter child names and a shortened rename target. For keys that are not valid UTF-8, the byte order and the character order can differ. `AppendPrefixChildren`, `AppendKeyChildren` and `TargetKey` do not capture either.
- The store's behaviour is deterministic given the fault set. Retries, eventual consistency and concurrent writers are out of scope.
- Unreachable branch of NewAppendableFile: the reset-and-return branch (lines 311-313) cannot run, because a read reports only OK or OutOfRange. The model asserts this instead of modelling the branch.
- FileSystem.CosFileSystem.RenameFile: requires that the source key range and the normalized target key range do not overlap (`RenameSeparated`). The source does not check this. The store's listing is live, so a copy that lands under the source prefix would be listed again and the loop need not end.
- WritableFile.CosWritableFile.Close: requires that the writer is open, as do Append, Sync and Flush. Using a writer after a successful Close is not modelled.
- WritableFile.CosWritableFile.Append: a failed local write is modelled as staging nothing, where a real stream may have written part of the data. The stream's `good()` check after the upload guard (line 212) is folded into the usable flag.
- FileSystem.CosFileSystem.NewAppendableFile: the result of each append is ignored, as in the source. A failed append leaves the writer unusable, so the contract only speaks of the staged content of a usable writer.
- FileSystem.ReadBack: offsets grow by the chunk size, not by the bytes returned (line 307). The contract states the staged content, not the number of requests.

## Findings

| source | as written | input that shows it | evidently intended | confidence | as-written member | corrected member |
|---|---|---|---|---|---|---|
| tensorflow/core/platform/cos/cos_file_system.cc:131 | The range is `bytes=offset-(offset+n-1)` in unsigned 64-bit arithmetic. For n = 0 the last byte wraps to offset - 1, or to 2^64 - 1 at offset 0. A last byte below the first makes the range syntactically invalid. A store that ignores such a range (section 14.35.1 of RFC 2616) sends the whole object, and line 141 reads that many bytes into a scratch buffer of n bytes. At offset 0 the range starts at the first byte, which an empty object cannot satisfy. | `Read(0, 0)` of an empty object fails with OutOfRange, so reading the whole of an empty file (`ReadAll` in cos_file_system_test.cc:53-59) fails. `Read(5, 0)` of a 10-byte object hands back all 10 bytes. | A read of n bytes hands back at most n bytes, and a zero-byte read succeeds with nothing. | not executed | RandomAccessFile.CosRandomAccessFile.ReadWrapsToWholeObject | RandomAccessFile.CosRandomAccessFile.ReadBounded |

Both read members stay in the model. `Read` is the source as written, and
`ReadEmptyObject` shows the empty-object case beside
`ReadWrapsToWholeObject`. The rest of the model reads only in 1 MiB
chunks, whose ranges never wrap. `FileSystem.AppendChunk` therefore applies
`ReadAgrees` and works with the corrected `ReadBounded`.
