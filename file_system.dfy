/** The file system: hierarchical file operations on top of the object store.
    A directory is a key prefix ending in '/'; an empty directory is kept
    alive by a zero-length marker object whose key is that prefix. */
module FileSystem {
  import opened Outcomes
  import opened Keys
  import opened CosPath
  import opened ObjectStore
  import opened RandomAccessFile
  import opened WritableFile
  import opened Rename

  /** The chunk size in which an existing object is read back into a new
      appendable writer: 1 MiB. */
  const AppendChunkSize: nat := 1024 * 1024

  /** The page size of a directory listing and of a rename. */
  const ListMaxKeys: nat := 1000

  datatype FileStatistics = FileStatistics(length: nat, isDirectory: bool)

  /** What DeleteDir does once it has listed the first two keys under the
      directory prefix. */
  datatype DeleteDirAction = RefuseNonEmpty | RemoveMarker | NothingToDelete

  /** How a directory listing ended, and the children it appended. */
  datatype Listed = Listed(status: Status, children: seq<string>)

  function DeleteDirDecision(contents: seq<string>, marker: string): DeleteDirAction
  {
    if |contents| > 1 || (|contents| == 1 && contents[0] != marker) then RefuseNonEmpty
    else if |contents| == 1 then RemoveMarker
    else NothingToDelete
  }

  lemma SingletonSet(keys: set<string>, x: string)
    requires |keys| == 1 && x in keys
    ensures keys == {x}
  {
    assert |keys - {x}| == 0;
  }

  /** Looking at the two smallest keys under the prefix decides as if all of
      them had been looked at: a directory holding anything but its marker is
      refused, a directory holding only its marker has the marker removed,
      and nothing is done when there is nothing. */
  lemma DeleteDirDecisionOfKeys(keys: set<string>, marker: string)
    ensures DeleteDirDecision(SortedKeys(keys)[..Min(2, |keys|)], marker) ==
      if keys - {marker} != {} then RefuseNonEmpty
      else if keys == {marker} then RemoveMarker
      else NothingToDelete
  {
    var sorted := SortedKeys(keys);
    if |keys| == 1 {
      assert sorted[0] in keys;
      SingletonSet(keys, sorted[0]);
    }
  }

  /** The children a directory listing names for a set of listing entries. */
  function EntryChildren(entries: set<string>, prefix: string): set<string>
  {
    set e | e in entries && prefix <= e && e != prefix :: EntryChild(e, prefix, Some('/'))
  }

  lemma EntryChildrenInsert(entries: set<string>, e: string, prefix: string)
    requires prefix <= e
    ensures EntryChildren(entries + {e}, prefix) ==
      EntryChildren(entries, prefix) + (if e != prefix then {EntryChild(e, prefix, Some('/'))} else {})
  {
  }

  lemma EntryChildrenUnion(a: set<string>, b: set<string>, prefix: string)
    ensures EntryChildren(a + b, prefix) == EntryChildren(a, prefix) + EntryChildren(b, prefix)
  {
  }

  /** The children a directory listing names for a sequence of entries, in
      order and with repetitions: one for every entry but the prefix itself. */
  function ChildSeq(entries: seq<string>, prefix: string): (r: seq<string>)
    requires forall i | 0 <= i < |entries| :: prefix <= entries[i]
    ensures |r| <= |entries|
  {
    if entries == [] then []
    else
      (if entries[0] != prefix then [EntryChild(entries[0], prefix, Some('/'))] else []) +
      ChildSeq(entries[1..], prefix)
  }

  /** One more entry adds its child, if any, at the end. */
  lemma {:induction false} ChildSeqAppend(entries: seq<string>, e: string, prefix: string)
    requires forall i | 0 <= i < |entries| :: prefix <= entries[i]
    requires prefix <= e
    ensures ChildSeq(entries + [e], prefix) ==
      ChildSeq(entries, prefix) + (if e != prefix then [EntryChild(e, prefix, Some('/'))] else [])
  {
    if entries != [] {
      assert (entries + [e])[1..] == entries[1..] + [e];
      ChildSeqAppend(entries[1..], e, prefix);
    }
  }

  /** The children of a sequence of entries are, as a set, the children of
      its elements. */
  lemma {:induction false} ChildSeqElems(entries: seq<string>, prefix: string)
    requires forall i | 0 <= i < |entries| :: prefix <= entries[i]
    ensures Elems(ChildSeq(entries, prefix)) == EntryChildren(Elems(entries), prefix)
  {
    if entries != [] {
      var e := entries[0];
      ChildSeqElems(entries[1..], prefix);
      assert Elems(entries) == Elems(entries[1..]) + {e} by {
        assert entries == [e] + entries[1..];
        ElemsAppend([e], entries[1..]);
      }
      EntryChildrenInsert(Elems(entries[1..]), e, prefix);
      ElemsAppend(if e != prefix then [EntryChild(e, prefix, Some('/'))] else [], ChildSeq(entries[1..], prefix));
    }
  }

  /** What holds of every member of a sequence holds at every index. */
  lemma AllUnder(entries: seq<string>, prefix: string)
    requires forall e | e in entries :: prefix <= e
    ensures forall i | 0 <= i < |entries| :: prefix <= entries[i]
  {
    forall i | 0 <= i < |entries| ensures prefix <= entries[i] {
      assert entries[i] in entries;
    }
  }

  /** The children a listing page names, in the order they are appended:
      those of its common prefixes, then those of its keys. */
  function PageChildren(page: ListPage, prefix: string): seq<string>
    requires forall c | c in page.commonPrefixes :: prefix <= c
    requires forall k | k in page.contents :: prefix <= k
  {
    AllUnder(page.commonPrefixes, prefix);
    AllUnder(page.contents, prefix);
    ChildSeq(page.commonPrefixes, prefix) + ChildSeq(page.contents, prefix)
  }

  /** The children of a page are, as a set, the children of its entries. */
  lemma PageChildrenElems(page: ListPage, prefix: string)
    requires forall c | c in page.commonPrefixes :: prefix <= c
    requires forall k | k in page.contents :: prefix <= k
    ensures Elems(PageChildren(page, prefix)) == EntryChildren(PageEntries(page), prefix)
  {
    AllUnder(page.commonPrefixes, prefix);
    AllUnder(page.contents, prefix);
    ChildSeqElems(page.commonPrefixes, prefix);
    ChildSeqElems(page.contents, prefix);
    ElemsAppend(ChildSeq(page.commonPrefixes, prefix), ChildSeq(page.contents, prefix));
    ElemsAppend(page.commonPrefixes, page.contents);
    EntryChildrenUnion(Elems(page.commonPrefixes), Elems(page.contents), prefix);
  }

  /** The child an entry contributes, as the listing loops compute it: what
      follows the prefix, less the trailing '/' of a common prefix; an entry
      contributes nothing exactly when it is the prefix itself. */
  lemma ChildOfEntry(e: string, prefix: string)
    requires prefix <= e
    ensures e != prefix <==> |e[|prefix|..]| > 0
    ensures !IsCommonPrefix(e, prefix, Some('/')) ==> EntryChild(e, prefix, Some('/')) == e[|prefix|..]
    ensures IsCommonPrefix(e, prefix, Some('/')) && e != prefix ==>
      EntryChild(e, prefix, Some('/')) == e[|prefix|..][..|e| - |prefix| - 1]
  {
    if |e| == |prefix| {
      assert e == prefix;
    }
  }

  lemma ElemsTake(s: seq<string>, i: nat)
    requires i < |s|
    ensures Elems(s[..i + 1]) == Elems(s[..i]) + {s[i]}
  {
    assert s[..i + 1] == s[..i] + [s[i]];
    ElemsAppend(s[..i], [s[i]]);
  }

  /** A name without '/' under a directory is the first segment of what
      follows the directory, whether the name ends the key or a '/' follows
      it. */
  lemma SegmentOf(dir: string, name: string, rest: string)
    requires '/' !in name && (rest == "" || rest[0] == '/')
    ensures dir <= dir + name + rest && (dir + name + rest)[|dir|..] == name + rest
    ensures FirstSegment(name + rest) == name
  {
    assert (dir + name + rest)[..|dir|] == dir;
    assert (dir + name + rest)[|dir|..] == name + rest;
    if rest == "" {
      assert name + rest == name;
    } else {
      assert (name + rest)[..|name|] == name;
      IndexOfAt(name + rest, '/', |name|);
    }
  }

  /** The three kinds of key below a directory in the listing test each name
      the file or the sub-directory after the directory. */
  lemma TreeNames(dir: string, file: string, sub: string, subFile: string)
    requires file != "" && '/' !in file && '/' !in sub
    ensures dir <= dir + file && dir + file != dir && FirstSegment((dir + file)[|dir|..]) == file
    ensures var k := dir + sub + "/"; dir <= k && k != dir && FirstSegment(k[|dir|..]) == sub
    ensures var k := dir + sub + "/" + subFile; dir <= k && k != dir && FirstSegment(k[|dir|..]) == sub
  {
    SegmentOf(dir, file, "");
    assert dir + file + "" == dir + file;
    SegmentOf(dir, sub, "/");
    SegmentOf(dir, sub, "/" + subFile);
    assert dir + sub + ("/" + subFile) == dir + sub + "/" + subFile;
  }

  /** No key of the listing test other than the directory's marker names
      anything but the file or the sub-directory. */
  lemma TreeKeyChild(dir: string, file: string, sub: string, subFile: string, key: string)
    requires file != "" && '/' !in file && '/' !in sub
    requires key == dir + file || key == dir + sub + "/" || key == dir + sub + "/" + subFile
    ensures dir <= key && key != dir && FirstSegment(key[|dir|..]) in {sub, file}
  {
    TreeNames(dir, file, sub, subFile);
  }

  lemma NextChunk(offset: nat, size: nat)
    requires offset % AppendChunkSize == 0 && offset < size
    ensures (offset + AppendChunkSize) % AppendChunkSize == 0
    ensures offset + AppendChunkSize < size + AppendChunkSize
  {
  }

  /** Appends the children of a listing page: its common prefixes first,
      then its keys. */
  method AppendPageChildren(result: seq<string>, page: ListPage, prefix: string) returns (r: seq<string>)
    requires forall c | c in page.commonPrefixes :: prefix <= c && IsCommonPrefix(c, prefix, Some('/'))
    requires forall k | k in page.contents :: prefix <= k && !IsCommonPrefix(k, prefix, Some('/'))
    ensures r == result + PageChildren(page, prefix)
  {
    forall i | 0 <= i < |page.commonPrefixes|
      ensures prefix <= page.commonPrefixes[i] && IsCommonPrefix(page.commonPrefixes[i], prefix, Some('/'))
    {
      assert page.commonPrefixes[i] in page.commonPrefixes;
    }
    forall i | 0 <= i < |page.contents|
      ensures prefix <= page.contents[i] && !IsCommonPrefix(page.contents[i], prefix, Some('/'))
    {
      assert page.contents[i] in page.contents;
    }
    r := AppendPrefixChildren(result, page.commonPrefixes, prefix);
    r := AppendKeyChildren(r, page.contents, prefix);
  }

  /** The loop over a page's common prefixes: each prefix longer than the
      directory prefix contributes what follows the directory prefix, less
      its trailing delimiter. */
  method AppendPrefixChildren(result: seq<string>, prefixes: seq<string>, prefix: string) returns (r: seq<string>)
    requires forall i | 0 <= i < |prefixes| :: prefix <= prefixes[i] && IsCommonPrefix(prefixes[i], prefix, Some('/'))
    ensures r == result + ChildSeq(prefixes, prefix)
  {
    r := result;
    var i := 0;
    while i < |prefixes|
      invariant i <= |prefixes|
      invariant r == result + ChildSeq(prefixes[..i], prefix)
    {
      var e := prefixes[i];
      assert prefixes[..i + 1] == prefixes[..i] + [e];
      ChildSeqAppend(prefixes[..i], e, prefix);
      ChildOfEntry(e, prefix);
      var child := e[|prefix|..];
      if |child| > 0 {
        r := r + [child[..|child| - 1]];
      }
      i := i + 1;
    }
    assert prefixes[..i] == prefixes;
  }

  /** The loop over a page's keys: each key longer than the directory prefix
      contributes what follows the directory prefix. */
  method AppendKeyChildren(result: seq<string>, keys: seq<string>, prefix: string) returns (r: seq<string>)
    requires forall i | 0 <= i < |keys| :: prefix <= keys[i] && !IsCommonPrefix(keys[i], prefix, Some('/'))
    ensures r == result + ChildSeq(keys, prefix)
  {
    r := result;
    var i := 0;
    while i < |keys|
      invariant i <= |keys|
      invariant r == result + ChildSeq(keys[..i], prefix)
    {
      var e := keys[i];
      assert keys[..i + 1] == keys[..i] + [e];
      ChildSeqAppend(keys[..i], e, prefix);
      ChildOfEntry(e, prefix);
      var child := e[|prefix|..];
      if |child| > 0 {
        r := r + [child];
      }
      i := i + 1;
    }
    assert keys[..i] == keys;
  }

  /** A chunk read at the end of what has been read back extends it. */
  lemma ChunkAppended(d: Bytes, offset: nat, staged: Bytes, chunk: Bytes)
    requires offset < |d| && staged == d[..offset] && chunk == d[offset..Min(offset + AppendChunkSize, |d|)]
    ensures staged + chunk == d[..Min(offset + AppendChunkSize, |d|)]
  {
  }

  /** Reading back stops at the end of the object, or short of it only where
      a chunk could not be read. */
  lemma ReadBackStops(d: Bytes, offset: nat, staged: Bytes, fault: bool)
    requires offset % AppendChunkSize == 0
    requires staged == d[..Min(offset, |d|)] && (offset < |d| ==> fault)
    ensures staged <= d
    ensures |staged| < |d| ==> |staged| == offset && |staged| % AppendChunkSize == 0 && fault
  {
  }

  /** The read-back loop of NewAppendableFile: chunk after chunk of the
      existing object is read and appended to the new writer, until a read
      fails. Append number i fails exactly when i is in writeFaults. */
  method ReadBack(reader: CosRandomAccessFile, file: CosWritableFile, writeFaults: set<nat>, ghost d: Bytes)
    requires reader.store.Valid() && file.Valid() && !file.closed
    requires d == reader.store.Content(reader.bucket, reader.key)
    requires file.usable ==> file.buffer == []
    modifies file
    ensures file.Valid() && !file.closed
    ensures old(file.usable) && writeFaults == {} ==> file.usable
    ensures file.usable ==> file.buffer <= d
    ensures file.usable && |file.buffer| < |d| ==>
      |file.buffer| % AppendChunkSize == 0 &&
      GetObject(reader.bucket, reader.key, |file.buffer|, |file.buffer| + AppendChunkSize - 1) in reader.store.faults
  {
    assert |d| <= MaxObjectSize by {
      if ObjectId(reader.bucket, reader.key) in reader.store.objects {
        assert |reader.store.objects[ObjectId(reader.bucket, reader.key)]| <= MaxObjectSize;
      }
    }
    ghost var usable := file.usable;
    var offset: nat := 0;
    var appends: nat := 0;
    while true
      invariant offset % AppendChunkSize == 0
      invariant offset < |d| + AppendChunkSize
      invariant file.Valid() && !file.closed
      invariant usable && writeFaults == {} ==> file.usable
      invariant file.usable ==> file.buffer == d[..Min(offset, |d|)]
      decreases |d| + AppendChunkSize - offset
    {
      var more := AppendChunk(reader, file, offset, appends !in writeFaults, d);
      appends := appends + 1;
      if !more {
        if file.usable {
          ReadBackStops(d, offset, file.buffer,
                        GetObject(reader.bucket, reader.key, offset, offset + AppendChunkSize - 1) in reader.store.faults);
        }
        break;
      }
      NextChunk(offset, |d|);
      offset := offset + AppendChunkSize;
    }
  }

  /** One turn of the read-back loop: reads the chunk at offset and appends
      it; more says whether the read found data, that is whether to go on. */
  method AppendChunk(reader: CosRandomAccessFile, file: CosWritableFile, offset: nat, writeOk: bool,
                     ghost d: Bytes)
    returns (more: bool)
    requires reader.store.Valid() && file.Valid() && !file.closed
    requires d == reader.store.Content(reader.bucket, reader.key)
    requires offset < |d| + AppendChunkSize && (file.usable ==> file.buffer == d[..Min(offset, |d|)])
    modifies file
    ensures file.Valid() && !file.closed
    ensures old(file.usable) && writeOk ==> file.usable
    ensures more ==> offset < |d| && (file.usable ==> file.buffer == d[..Min(offset + AppendChunkSize, |d|)])
    ensures !more ==> (file.usable ==> file.buffer == d[..Min(offset, |d|)]) &&
                      (offset < |d| ==>
                         GetObject(reader.bucket, reader.key, offset, offset + AppendChunkSize - 1) in reader.store.faults)
  {
    assert |d| <= MaxObjectSize by {
      if ObjectId(reader.bucket, reader.key) in reader.store.objects {
        assert |reader.store.objects[ObjectId(reader.bucket, reader.key)]| <= MaxObjectSize;
      }
    }
    // a 1 MiB read at an offset below 2^64 - 2^20 never wraps around
    reader.ReadAgrees(offset, AppendChunkSize);
    var chunk := reader.Read(offset, AppendChunkSize);
    ghost var staged := file.buffer;
    var _ := file.Append(chunk.data, writeOk);
    if chunk.status == OK {
      if file.usable {
        ChunkAppended(d, offset, staged, chunk.data);
      }
      more := true;
    } else {
      // a read reports OK or OutOfRange, nothing else
      assert chunk.status == OutOfRange && chunk.data == [];
      if offset < |d| {
        assert ObjectId(reader.bucket, reader.key) in reader.store.objects;
      }
      more := false;
    }
  }

  /** Taking a non-empty part away leaves fewer. */
  lemma FewerLeft(rest: set<string>, page: set<string>, left: set<string>)
    requires page <= rest && page != {} && left == rest - page
    ensures |left| < |rest|
  {
    assert (rest - page) + page == rest;
    assert (rest - page) * page == {};
  }

  /** A listing that names the children of a page and then those the rest
      of the listing names, with the rest's status, names the children of
      the page's entries and of the entries after it. */
  lemma JoinListed(l: Listed, head: seq<string>, tail: Listed, first: set<string>, left: set<string>,
                   prefix: string, succeeds: bool)
    requires l == Listed(tail.status, head + tail.children)
    requires Elems(head) == EntryChildren(first, prefix)
    requires tail.status == OK || tail.status == Internal
    requires tail.status == OK ==> Elems(tail.children) == EntryChildren(left, prefix)
    requires tail.status == Internal ==> Elems(tail.children) <= EntryChildren(left, prefix)
    requires succeeds ==> tail.status == OK
    ensures l.status == OK || l.status == Internal
    ensures l.status == OK ==> Elems(l.children) == EntryChildren(first + left, prefix)
    ensures l.status == Internal ==> Elems(l.children) <= EntryChildren(first + left, prefix)
    ensures succeeds ==> l.status == OK
  {
    ElemsAppend(head, tail.children);
    EntryChildrenUnion(first, left, prefix);
  }

  lemma SplitOff(rest: set<string>, first: set<string>)
    requires first <= rest
    ensures rest == first + (rest - first)
  {
  }

  lemma SliceAppend(acc: seq<string>, before: seq<string>, added: seq<string>)
    requires acc <= before
    ensures acc <= before + added && (before + added)[|acc|..] == before[|acc|..] + added
  {
  }

  lemma ConcatAssoc(a: seq<string>, b: seq<string>, c: seq<string>)
    ensures a + (b + c) == (a + b) + c
  {
  }

  /** Adding a page of unseen entries to the seen ones. */
  lemma SeenGrows(entries: set<string>, seen: set<string>, page: set<string>)
    requires seen <= entries && page <= entries - seen
    ensures seen + page <= entries && entries - (seen + page) == (entries - seen) - page
    ensures page != {} ==> |entries - (seen + page)| < |entries - seen|
    ensures page == entries - seen ==> seen + page == entries
  {
    var unseen := entries - seen;
    assert (unseen - page) + page == unseen;
    assert (unseen - page) * page == {};
  }

  /** A file system holds only the store it runs on. */
  class CosFileSystem {
    const store: Store

    constructor (store: Store)
      ensures this.store == store
    {
      this.store := store;
    }

    /** The names directly under a directory prefix: the first path segment
        of what follows the prefix in every key below it, the prefix's own
        marker object aside. */
    function DirChildren(bucket: string, prefix: string): set<string>
      reads store
    {
      set id | id in store.objects && id.bucket == bucket && prefix <= id.key && id.key != prefix ::
        FirstSegment(id.key[|prefix|..])
    }

    /** Rolling keys up into common prefixes at '/' and naming the children
        of the entries gives the names directly under the prefix. */
    lemma ChildrenOfEntries(bucket: string, prefix: string)
      ensures EntryChildren(store.Entries(bucket, prefix, Some('/')), prefix) == DirChildren(bucket, prefix)
    {
      var entries := store.Entries(bucket, prefix, Some('/'));
      forall x | x in EntryChildren(entries, prefix) ensures x in DirChildren(bucket, prefix) {
        var e :| e in entries && prefix <= e && e != prefix && x == EntryChild(e, prefix, Some('/'));
        var id :| id in store.objects && id.bucket == bucket && prefix <= id.key &&
                  e == EntryOf(id.key, prefix, Some('/'));
        EntryChildIsFirstSegment(id.key, prefix);
      }
      forall x | x in DirChildren(bucket, prefix) ensures x in EntryChildren(entries, prefix) {
        var id :| id in store.objects && id.bucket == bucket && prefix <= id.key && id.key != prefix &&
                  x == FirstSegment(id.key[|prefix|..]);
        var e := EntryOf(id.key, prefix, Some('/'));
        EntryOfShape(id.key, prefix, Some('/'));
        EntryChildIsFirstSegment(id.key, prefix);
        assert e in entries;
      }
    }

    /** Every key strictly below a directory names a child. */
    lemma ChildOfKey(bucket: string, dir: string, key: string)
      requires ObjectId(bucket, key) in store.objects && dir <= key && key != dir
      ensures FirstSegment(key[|dir|..]) in DirChildren(bucket, dir)
    {
      var id := ObjectId(bucket, key);
      assert id.key == key;
    }

    /** The keys of the listing test's tree name no child but the file and
        the sub-directory. */
    lemma TreeChildrenBelow(bucket: string, dir: string, file: string, sub: string, subFile: string)
      requires file != "" && '/' !in file && '/' !in sub
      requires forall id | id in store.objects && id.bucket == bucket ::
        id.key == dir || id.key == dir + file || id.key == dir + sub + "/" || id.key == dir + sub + "/" + subFile
      ensures DirChildren(bucket, dir) <= {sub, file}
    {
      forall x | x in DirChildren(bucket, dir) ensures x in {sub, file} {
        var id :| id in store.objects && id.bucket == bucket && dir <= id.key && id.key != dir &&
                  x == FirstSegment(id.key[|dir|..]);
        TreeKeyChild(dir, file, sub, subFile, id.key);
      }
    }

    /** The listing test: a directory holding a file and a sub-directory
        (its marker, a file in it, or both) has exactly those two children;
        the directory's own marker contributes nothing. */
    lemma ChildrenOfTree(bucket: string, dir: string, file: string, sub: string, subFile: string)
      requires file != "" && sub != "" && '/' !in file && '/' !in sub
      requires forall id | id in store.objects && id.bucket == bucket ::
        id.key == dir || id.key == dir + file || id.key == dir + sub + "/" || id.key == dir + sub + "/" + subFile
      requires ObjectId(bucket, dir + file) in store.objects
      requires ObjectId(bucket, dir + sub + "/") in store.objects ||
               ObjectId(bucket, dir + sub + "/" + subFile) in store.objects
      ensures DirChildren(bucket, dir) == {sub, file}
    {
      TreeChildrenBelow(bucket, dir, file, sub, subFile);
      TreeNames(dir, file, sub, subFile);
      ChildOfKey(bucket, dir, dir + file);
      if ObjectId(bucket, dir + sub + "/") in store.objects {
        ChildOfKey(bucket, dir, dir + sub + "/");
      } else {
        ChildOfKey(bucket, dir, dir + sub + "/" + subFile);
      }
    }

    /** Stat: the bucket root is a directory when the bucket exists; a key
        that HEAD finds is a file of that length; otherwise the key is a
        directory when some key starts with it, and missing when none does
        or the listing fails. */
    function Stat(fname: string): (r: Result<FileStatistics>)
      reads store
      ensures r.Failure? ==> r.status == InvalidArgument || r.status == NotFound
      ensures (r.Failure? && r.status == InvalidArgument) <==> ParseCosPath(fname, true).Failure?
      ensures r.Success? && r.value.isDirectory ==> r.value.length == 0
      ensures r.Success? ==>
        var p := ParseCosPath(fname, true).value;
        if p.key == "" then p.bucket in store.buckets && r.value.isDirectory
        else if r.value.isDirectory then store.KeysUnder(p.bucket, p.key) != {}
        else ObjectId(p.bucket, p.key) in store.objects && r.value.length == |store.Content(p.bucket, p.key)|
      ensures ParseCosPath(fname, true).Success? && ParseCosPath(fname, true).value.key != "" ==>
        var p := ParseCosPath(fname, true).value;
        (r.Success? && !r.value.isDirectory <==> store.Head(p.bucket, p.key).Some?) &&
        (r.Success? && r.value.isDirectory <==>
          store.Head(p.bucket, p.key).None? && store.List(p.bucket, p.key, None, "", 2).Some? &&
          store.KeysUnder(p.bucket, p.key) != {})
    {
      match ParseCosPath(fname, true)
      case Failure(e) => Failure(e)
      case Success(p) =>
        if p.key == "" then
          if store.BucketExists(p.bucket) then Success(FileStatistics(0, true)) else Failure(NotFound)
        else
          match store.Head(p.bucket, p.key)
          case Some(length) => Success(FileStatistics(length, false))
          case None =>
            match store.List(p.bucket, p.key, None, "", 2)
            case None => Failure(NotFound)
            case Some(page) =>
              store.FirstPlainPage(p.bucket, p.key, 2);
              if |page.contents| > 0 then Success(FileStatistics(0, true)) else Failure(NotFound)
    }

    /** A file exists exactly when Stat succeeds. */
    function FileExists(fname: string): (s: Status)
      reads store
      ensures s == OK <==> Stat(fname).Success?
      ensures s != OK ==> s == Stat(fname).status
      ensures s == OK ==>
        var p := ParseCosPath(fname, true).value;
        if p.key == "" then p.bucket in store.buckets
        else ObjectId(p.bucket, p.key) in store.objects || store.KeysUnder(p.bucket, p.key) != {}
    {
      match Stat(fname)
      case Failure(e) => e
      case Success(_) => OK
    }

    /** The size Stat reports: an object's length, or 0 for a directory. */
    function GetFileSize(fname: string): (r: Result<nat>)
      reads store
      ensures r.Success? <==> Stat(fname).Success?
      ensures r.Failure? ==> r.status == Stat(fname).status
      ensures r.Success? ==>
        var p := ParseCosPath(fname, true).value;
        r.value == if p.key != "" && ObjectId(p.bucket, p.key) in store.objects && !Stat(fname).value.isDirectory
                   then |store.Content(p.bucket, p.key)| else 0
    {
      match Stat(fname)
      case Failure(e) => Failure(e)
      case Success(stats) => Success(stats.length)
    }

    /** A key that HEAD finds is a file of the object's length. */
    lemma StatOfObject(bucket: string, key: string)
      requires ValidBucket(bucket) && key != ""
      requires ObjectId(bucket, key) in store.objects && HeadObject(bucket, key) !in store.faults
      ensures Stat(CosUri(bucket, key)) == Success(FileStatistics(|store.Content(bucket, key)|, false))
      ensures GetFileSize(CosUri(bucket, key)) == Success(|store.Content(bucket, key)|)
    {
      ParseCosUri(bucket, key, true);
    }

    /** A key that is no object is a directory as soon as some key starts
        with it, whether or not a '/' follows. */
    lemma StatOfPrefix(bucket: string, key: string)
      requires ValidBucket(bucket) && key != ""
      requires ObjectId(bucket, key) !in store.objects
      requires bucket in store.buckets && GetBucket(bucket, key, None, "", 2) !in store.faults
      requires store.KeysUnder(bucket, key) != {}
      ensures Stat(CosUri(bucket, key)) == Success(FileStatistics(0, true))
    {
      ParseCosUri(bucket, key, true);
      store.FirstPlainPage(bucket, key, 2);
      assert |store.KeysUnder(bucket, key)| > 0;
    }

    /** A key that HEAD does not find is missing when the fallback listing
        fails, whatever keys start with it. */
    lemma StatListingFails(bucket: string, key: string)
      requires ValidBucket(bucket) && key != ""
      requires ObjectId(bucket, key) !in store.objects || HeadObject(bucket, key) in store.faults
      requires GetBucket(bucket, key, None, "", 2) in store.faults
      ensures Stat(CosUri(bucket, key)) == Failure(NotFound)
      ensures FileExists(CosUri(bucket, key)) == NotFound
    {
      ParseCosUri(bucket, key, true);
    }

    /** An object whose HEAD request fails is reported as a directory of
        length 0 when the fallback listing works, since the object's own key
        starts with itself. */
    lemma StatHeadFails(bucket: string, key: string)
      requires ValidBucket(bucket) && key != ""
      requires ObjectId(bucket, key) in store.objects && HeadObject(bucket, key) in store.faults
      requires bucket in store.buckets && GetBucket(bucket, key, None, "", 2) !in store.faults
      ensures Stat(CosUri(bucket, key)) == Success(FileStatistics(0, true))
    {
      ParseCosUri(bucket, key, true);
      store.FirstPlainPage(bucket, key, 2);
      assert key in store.KeysUnder(bucket, key);
      assert |store.KeysUnder(bucket, key)| > 0;
    }

    /** With only `a/bc` stored, `a/b` is reported as a directory. */
    lemma StatRawPrefix(bucket: string)
      requires ValidBucket(bucket) && bucket in store.buckets && store.faults == {}
      requires ObjectId(bucket, "a/bc") in store.objects && ObjectId(bucket, "a/b") !in store.objects
      ensures Stat(CosUri(bucket, "a/b")) == Success(FileStatistics(0, true))
    {
      assert "a/b" <= "a/bc";
      assert "a/bc" in store.KeysUnder(bucket, "a/b");
      StatOfPrefix(bucket, "a/b");
    }

    /** A key that neither is an object nor starts any key is missing. */
    lemma StatOfMissing(bucket: string, key: string)
      requires ValidBucket(bucket) && key != ""
      requires ObjectId(bucket, key) !in store.objects && store.KeysUnder(bucket, key) == {}
      ensures Stat(CosUri(bucket, key)) == Failure(NotFound)
      ensures FileExists(CosUri(bucket, key)) == NotFound
    {
      ParseCosUri(bucket, key, true);
    }

    /** The bucket root is a directory exactly when the bucket check succeeds. */
    lemma StatOfBucket(bucket: string)
      requires ValidBucket(bucket)
      ensures Stat(CosUri(bucket, "")) ==
        if store.BucketExists(bucket) then Success(FileStatistics(0, true)) else Failure(NotFound)
    {
      ParseCosUri(bucket, "", true);
    }

    method NewRandomAccessFile(fname: string) returns (s: Status, file: CosRandomAccessFile?)
      ensures s == OK || s == InvalidArgument
      ensures s == OK <==> ParseCosPath(fname, false).Success?
      ensures s != OK ==> file == null
      ensures s == OK ==>
        file != null && fresh(file) && file.store == store &&
        file.bucket == ParseCosPath(fname, false).value.bucket && file.key == ParseCosPath(fname, false).value.key
    {
      var parsed := ParseCosPath(fname, false);
      if parsed.Failure? {
        return parsed.status, null;
      }
      file := new CosRandomAccessFile(parsed.value.bucket, parsed.value.key, store);
      s := OK;
    }

    /** A new writer starts with empty staged content; stagingOpened says
        whether its staging stream could be opened. */
    method NewWritableFile(fname: string, stagingOpened: bool) returns (s: Status, file: CosWritableFile?)
      ensures s == OK || s == InvalidArgument
      ensures s == OK <==> ParseCosPath(fname, false).Success?
      ensures s != OK ==> file == null
      ensures s == OK ==>
        file != null && fresh(file) && file.store == store &&
        file.bucket == ParseCosPath(fname, false).value.bucket && file.key == ParseCosPath(fname, false).value.key &&
        file.Valid() && !file.closed && file.buffer == [] && file.usable == stagingOpened
    {
      var parsed := ParseCosPath(fname, false);
      if parsed.Failure? {
        return parsed.status, null;
      }
      file := new CosWritableFile(parsed.value.bucket, parsed.value.key, store, stagingOpened);
      s := OK;
    }

    /** A writer that starts with the object's current content, read back in
        chunks of 1 MiB at offsets 0, 1 MiB, 2 MiB, ... until the first read
        that finds nothing; writeFaults are the indices of the appends whose
        local write fails. */
    method NewAppendableFile(fname: string, stagingOpened: bool, writeFaults: set<nat>)
      returns (s: Status, file: CosWritableFile?)
      requires store.Valid()
      ensures s == OK || s == InvalidArgument
      ensures s == OK <==> ParseCosPath(fname, false).Success?
      ensures s != OK ==> file == null
      ensures s == OK ==>
        var p := ParseCosPath(fname, false).value;
        var d := store.Content(p.bucket, p.key);
        file != null && fresh(file) && file.store == store && file.bucket == p.bucket && file.key == p.key &&
        file.Valid() && !file.closed &&
        (stagingOpened && writeFaults == {} ==> file.usable) &&
        (file.usable ==> file.buffer <= d) &&
        (file.usable && |file.buffer| < |d| ==>
          |file.buffer| % AppendChunkSize == 0 &&
          GetObject(p.bucket, p.key, |file.buffer|, |file.buffer| + AppendChunkSize - 1) in store.faults) &&
        (file.usable && store.faults == {} ==> file.buffer == d)
    {
      var s0, reader := NewRandomAccessFile(fname);
      if s0 != OK {
        return s0, null;
      }
      var p := ParseCosPath(fname, false).value;
      file := new CosWritableFile(p.bucket, p.key, store, stagingOpened);
      ReadBack(reader, file, writeFaults, store.Content(p.bucket, p.key));
      s := OK;
    }

    /** DeleteFile: one DELETE of the object. */
    method DeleteFile(fname: string) returns (s: Status)
      requires store.Valid()
      modifies store
      ensures store.Valid()
      ensures ParseCosPath(fname, false).Failure? ==>
        s == InvalidArgument && store.objects == old(store.objects)
      ensures ParseCosPath(fname, false).Success? ==>
        var p := ParseCosPath(fname, false).value;
        s == (if p.bucket in store.buckets && DeleteObject(p.bucket, p.key) !in store.faults then OK else Internal) &&
        store.objects == if s == OK then old(store.objects) - {ObjectId(p.bucket, p.key)} else old(store.objects)
    {
      var parsed := ParseCosPath(fname, false);
      if parsed.Failure? {
        return parsed.status;
      }
      var ok := store.Delete(parsed.value.bucket, parsed.value.key);
      s := if ok then OK else Internal;
    }

    /** CreateDir: for the bucket root, only checks the bucket; otherwise
        writes and closes an empty writer at the key with '/' appended, which
        uploads a zero-length marker object. */
    method CreateDir(dirname: string, stagingOpened: bool) returns (s: Status)
      requires store.Valid()
      modifies store
      ensures store.Valid()
      ensures ParseCosPath(dirname, true).Failure? ==>
        s == InvalidArgument && store.objects == old(store.objects)
      ensures ParseCosPath(dirname, true).Success? && ParseCosPath(dirname, true).value.key == "" ==>
        s == (if store.BucketExists(ParseCosPath(dirname, true).value.bucket) then OK else NotFound) &&
        store.objects == old(store.objects)
      ensures ParseCosPath(dirname, true).Success? && ParseCosPath(dirname, true).value.key != "" ==>
        var p := ParseCosPath(dirname, true).value;
        var marker := ObjectId(p.bucket, WithSlash(p.key));
        (s == OK || s == Internal) &&
        (s == OK <==> !stagingOpened || (p.bucket in store.buckets && PutObject(p.bucket, marker.key) !in store.faults)) &&
        store.objects == if s == OK && stagingOpened then old(store.objects)[marker := []] else old(store.objects)
    {
      var parsed := ParseCosPath(dirname, true);
      if parsed.Failure? {
        return parsed.status;
      }
      var p := parsed.value;
      if p.key == "" {
        return if store.BucketExists(p.bucket) then OK else NotFound;
      }
      var filename := WithSlash(dirname);
      ParseWithSlash(dirname, true);
      var s1, file := NewWritableFile(filename, stagingOpened);
      // the directory's path parsed, so the marker's path parses too
      assert s1 == OK;
      s := file.Close();
    }

    /** DeleteDir: lists at most two keys under the directory prefix and
        refuses a directory holding anything but its marker, removes a lone
        marker, and otherwise does nothing; a failed listing also does
        nothing and reports success. */
    method DeleteDir(dirname: string) returns (s: Status)
      requires store.Valid()
      modifies store
      ensures store.Valid()
      ensures ParseCosPath(dirname, false).Failure? ==>
        s == InvalidArgument && store.objects == old(store.objects)
      ensures ParseCosPath(dirname, false).Success? ==>
        var p := ParseCosPath(dirname, false).value;
        var prefix := WithSlash(p.key);
        var keys := old(store.KeysUnder(p.bucket, prefix));
        var listed := old(store.List(p.bucket, prefix, None, "", 2)).Some?;
        var removed := p.bucket in store.buckets && DeleteObject(p.bucket, prefix) !in store.faults;
        s == (if !listed then OK
              else if keys - {prefix} != {} then FailedPrecondition
              else if keys == {prefix} then (if removed then OK else Internal)
              else OK) &&
        store.objects == if listed && keys == {prefix} && removed then old(store.objects) - {ObjectId(p.bucket, prefix)}
                         else old(store.objects)
    {
      var parsed := ParseCosPath(dirname, false);
      if parsed.Failure? {
        return parsed.status;
      }
      var p := parsed.value;
      var prefix := WithSlash(p.key);
      var listing := store.List(p.bucket, prefix, None, "", 2);
      if listing.Some? {
        store.FirstPlainPage(p.bucket, prefix, 2);
        DeleteDirDecisionOfKeys(store.KeysUnder(p.bucket, prefix), prefix);
        match DeleteDirDecision(listing.value.contents, prefix)
        case RefuseNonEmpty =>
          return FailedPrecondition;
        case RemoveMarker =>
          ParseWithSlash(dirname, false);
          s := DeleteFile(WithSlash(dirname));
          return;
        case NothingToDelete =>
      }
      s := OK;
    }

    /** What one page of a listing loop adds to the entries seen so far. */
    lemma PageStep(bucket: string, prefix: string, delimiter: Option<char>, marker: string, maxKeys: nat,
                   entries: set<string>, seen: set<string>)
      requires store.List(bucket, prefix, delimiter, marker, maxKeys).Some?
      requires prefix != "" && maxKeys > 0
      requires entries == store.Entries(bucket, prefix, delimiter) && seen <= entries
      requires store.Remaining(bucket, prefix, delimiter, marker) == entries - seen
      ensures var page := store.List(bucket, prefix, delimiter, marker, maxKeys).value;
        var seen' := seen + PageEntries(page);
        seen' <= entries &&
        (page.isTruncated ==>
          store.Remaining(bucket, prefix, delimiter, page.nextMarker) == entries - seen' &&
          |entries - seen'| < |entries - seen|) &&
        (!page.isTruncated ==> seen' == entries)
    {
      var page := store.List(bucket, prefix, delimiter, marker, maxKeys).value;
      store.ListAdvance(bucket, prefix, delimiter, marker, maxKeys);
      SeenGrows(entries, seen, PageEntries(page));
    }

    /** No listing request for this bucket and prefix fails. */
    predicate ListingSucceeds(bucket: string, prefix: string)
      reads store
    {
      bucket in store.buckets &&
      forall r | r in store.faults :: !(r.GetBucket? && r.bucket == bucket && r.prefix == prefix)
    }

    /** A listing from the empty marker has every entry still to list. */
    lemma FromStart(bucket: string, prefix: string)
      requires prefix != ""
      ensures store.Remaining(bucket, prefix, Some('/'), "") == store.Entries(bucket, prefix, Some('/'))
    {
      store.EntriesShape(bucket, prefix, Some('/'));
    }

    /** Following the marker of a truncated page leaves fewer entries to list. */
    lemma ListShrinks(bucket: string, prefix: string, marker: string)
      requires prefix != ""
      requires store.List(bucket, prefix, Some('/'), marker, ListMaxKeys).Some?
      requires store.List(bucket, prefix, Some('/'), marker, ListMaxKeys).value.isTruncated
      ensures var next := store.List(bucket, prefix, Some('/'), marker, ListMaxKeys).value.nextMarker;
        |store.Remaining(bucket, prefix, Some('/'), next)| < |store.Remaining(bucket, prefix, Some('/'), marker)|
    {
      var page := store.List(bucket, prefix, Some('/'), marker, ListMaxKeys).value;
      store.ListAdvance(bucket, prefix, Some('/'), marker, ListMaxKeys);
      FewerLeft(store.Remaining(bucket, prefix, Some('/'), marker), PageEntries(page),
                store.Remaining(bucket, prefix, Some('/'), page.nextMarker));
    }

    /** What the GetChildren loop produces from marker on: the children of
        every page, page after page, while pages are truncated; a failed
        request ends it with Internal and the children of the pages before. */
    function ChildrenFrom(bucket: string, prefix: string, marker: string): Listed
      reads store
      requires prefix != ""
      decreases |store.Remaining(bucket, prefix, Some('/'), marker)|
    {
      match store.List(bucket, prefix, Some('/'), marker, ListMaxKeys)
      case None => Listed(Internal, [])
      case Some(page) =>
        var children := PageChildren(page, prefix);
        if !page.isTruncated then Listed(OK, children)
        else
          ListShrinks(bucket, prefix, marker);
          var tail := ChildrenFrom(bucket, prefix, page.nextMarker);
          Listed(tail.status, children + tail.children)
    }

    /** ChildrenFrom unfolded once: a page that is listed contributes its
        children ahead of those from its next marker, if it is truncated. */
    lemma ChildrenFromStep(bucket: string, prefix: string, marker: string)
      requires prefix != ""
      requires store.List(bucket, prefix, Some('/'), marker, ListMaxKeys).Some?
      ensures var page := store.List(bucket, prefix, Some('/'), marker, ListMaxKeys).value;
        var tail := ChildrenFrom(bucket, prefix, page.nextMarker);
        ChildrenFrom(bucket, prefix, marker) ==
          if page.isTruncated then Listed(tail.status, PageChildren(page, prefix) + tail.children)
          else Listed(OK, PageChildren(page, prefix))
    {
    }

    /** The names ChildrenFrom collects from marker are the children of the
        entries still to list: all of them when it ends with OK, some of them
        when a request fails; only a failed request ends it otherwise. */
    ghost predicate CollectsRemaining(bucket: string, prefix: string, marker: string)
      reads store
      requires prefix != ""
    {
      var l := ChildrenFrom(bucket, prefix, marker);
      var rest := EntryChildren(store.Remaining(bucket, prefix, Some('/'), marker), prefix);
      (l.status == OK || l.status == Internal) &&
      (l.status == OK ==> Elems(l.children) == rest) &&
      (l.status == Internal ==> Elems(l.children) <= rest) &&
      (ListingSucceeds(bucket, prefix) ==> l.status == OK)
    }

    lemma FailedCollects(bucket: string, prefix: string, marker: string)
      requires prefix != ""
      requires store.List(bucket, prefix, Some('/'), marker, ListMaxKeys).None?
      ensures CollectsRemaining(bucket, prefix, marker)
    {
      assert !ListingSucceeds(bucket, prefix) by {
        if bucket in store.buckets {
          assert GetBucket(bucket, prefix, Some('/'), marker, ListMaxKeys) in store.faults;
        }
      }
    }

    lemma LastPageCollects(bucket: string, prefix: string, marker: string)
      requires prefix != ""
      requires store.List(bucket, prefix, Some('/'), marker, ListMaxKeys).Some?
      requires !store.List(bucket, prefix, Some('/'), marker, ListMaxKeys).value.isTruncated
      ensures CollectsRemaining(bucket, prefix, marker)
    {
      var page := store.List(bucket, prefix, Some('/'), marker, ListMaxKeys).value;
      store.ListAdvance(bucket, prefix, Some('/'), marker, ListMaxKeys);
      ChildrenFromStep(bucket, prefix, marker);
      PageChildrenElems(page, prefix);
    }

    lemma NextPageCollects(bucket: string, prefix: string, marker: string)
      requires prefix != ""
      requires store.List(bucket, prefix, Some('/'), marker, ListMaxKeys).Some?
      requires store.List(bucket, prefix, Some('/'), marker, ListMaxKeys).value.isTruncated
      requires CollectsRemaining(bucket, prefix, store.List(bucket, prefix, Some('/'), marker, ListMaxKeys).value.nextMarker)
      ensures CollectsRemaining(bucket, prefix, marker)
    {
      var page := store.List(bucket, prefix, Some('/'), marker, ListMaxKeys).value;
      var left := store.Remaining(bucket, prefix, Some('/'), page.nextMarker);
      var tail := ChildrenFrom(bucket, prefix, page.nextMarker);
      store.ListAdvance(bucket, prefix, Some('/'), marker, ListMaxKeys);
      ChildrenFromStep(bucket, prefix, marker);
      PageChildrenElems(page, prefix);
      SplitOff(store.Remaining(bucket, prefix, Some('/'), marker), PageEntries(page));
      JoinListed(ChildrenFrom(bucket, prefix, marker), PageChildren(page, prefix), tail,
                 PageEntries(page), left, prefix, ListingSucceeds(bucket, prefix));
    }

    /** Every listing from a marker collects the children of what remains,
        by induction on the entries left to list. */
    lemma {:induction false} ChildrenFromElems(bucket: string, prefix: string, marker: string)
      requires prefix != ""
      ensures CollectsRemaining(bucket, prefix, marker)
      decreases |store.Remaining(bucket, prefix, Some('/'), marker)|
    {
      var listing := store.List(bucket, prefix, Some('/'), marker, ListMaxKeys);
      if listing.None? {
        FailedCollects(bucket, prefix, marker);
      } else if !listing.value.isTruncated {
        LastPageCollects(bucket, prefix, marker);
      } else {
        ListShrinks(bucket, prefix, marker);
        ChildrenFromElems(bucket, prefix, listing.value.nextMarker);
        NextPageCollects(bucket, prefix, marker);
      }
    }

    /** A whole GetChildren listing names the children of the directory:
        all of them when it ends with OK, some of them when a request fails,
        and it fails only when some listing request for the prefix does. */
    lemma ChildrenListed(bucket: string, prefix: string)
      requires prefix != ""
      ensures var l := ChildrenFrom(bucket, prefix, "");
        (l.status == OK || l.status == Internal) &&
        (l.status == OK ==> Elems(l.children) == DirChildren(bucket, prefix)) &&
        (l.status == Internal ==> Elems(l.children) <= DirChildren(bucket, prefix)) &&
        (ListingSucceeds(bucket, prefix) ==> l.status == OK)
    {
      ChildrenFromElems(bucket, prefix, "");
      ChildrenOfEntries(bucket, prefix);
      FromStart(bucket, prefix);
    }

    /** One page of the GetChildren listing: lists from marker and appends
        the children of the page's common prefixes, then of its keys. With
        total the whole listing and done what was appended to acc before,
        what is appended now is the next piece of total. */
    method ChildrenPage(bucket: string, prefix: string, marker: string, result: seq<string>,
                        ghost acc: seq<string>, ghost total: Listed)
      returns (ok: bool, r: seq<string>, next: string, more: bool)
      requires prefix != "" && acc <= result
      requires total == Listed(ChildrenFrom(bucket, prefix, marker).status,
                               result[|acc|..] + ChildrenFrom(bucket, prefix, marker).children)
      ensures acc <= r
      ensures ok <==> store.List(bucket, prefix, Some('/'), marker, ListMaxKeys).Some?
      ensures ok ==>
        var page := store.List(bucket, prefix, Some('/'), marker, ListMaxKeys).value;
        r == result + PageChildren(page, prefix) && next == page.nextMarker && more == page.isTruncated
      ensures !ok ==> r == result && !more && total == Listed(Internal, r[|acc|..])
      ensures ok && more ==>
        |store.Remaining(bucket, prefix, Some('/'), next)| < |store.Remaining(bucket, prefix, Some('/'), marker)| &&
        total == Listed(ChildrenFrom(bucket, prefix, next).status, r[|acc|..] + ChildrenFrom(bucket, prefix, next).children)
      ensures ok && !more ==> total == Listed(OK, r[|acc|..])
    {
      r, next, more := result, marker, false;
      var listing := store.List(bucket, prefix, Some('/'), marker, ListMaxKeys);
      if listing.None? {
        assert result[|acc|..] + [] == result[|acc|..];
        return false, r, next, more;
      }
      var page := listing.value;
      ChildrenFromStep(bucket, prefix, marker);
      if page.isTruncated {
        ListShrinks(bucket, prefix, marker);
        ConcatAssoc(result[|acc|..], PageChildren(page, prefix), ChildrenFrom(bucket, prefix, page.nextMarker).children);
      }
      r := AppendPageChildren(r, page, prefix);
      SliceAppend(acc, result, PageChildren(page, prefix));
      ok, next, more := true, page.nextMarker, page.isTruncated;
    }

    /** GetChildren: lists the directory prefix page by page with delimiter
        '/' and appends to acc the name each common prefix and each key
        contributes. */
    method GetChildren(dir: string, acc: seq<string>) returns (s: Status, result: seq<string>)
      ensures acc <= result
      ensures ParseCosPath(dir, false).Failure? ==> s == InvalidArgument && result == acc
      ensures ParseCosPath(dir, false).Success? ==>
        var p := ParseCosPath(dir, false).value;
        var prefix := WithSlash(p.key);
        prefix != "" &&
        s == ChildrenFrom(p.bucket, prefix, "").status && result == acc + ChildrenFrom(p.bucket, prefix, "").children &&
        (s == OK || s == Internal) &&
        (s == OK ==> Elems(result[|acc|..]) == DirChildren(p.bucket, prefix)) &&
        (s == Internal ==> Elems(result[|acc|..]) <= DirChildren(p.bucket, prefix)) &&
        (ListingSucceeds(p.bucket, prefix) ==> s == OK)
    {
      var parsed := ParseCosPath(dir, false);
      if parsed.Failure? {
        return parsed.status, acc;
      }
      WithSlashEndsInSlash(parsed.value.key);
      s, result := ListChildren(parsed.value.bucket, WithSlash(parsed.value.key), acc);
    }

    /** The listing loop of GetChildren: pages of at most ListMaxKeys entries
        rolled up at '/', each entry's child appended, until a page is not
        truncated or a request fails. */
    method ListChildren(bucket: string, prefix: string, acc: seq<string>) returns (s: Status, result: seq<string>)
      requires prefix != ""
      ensures s == ChildrenFrom(bucket, prefix, "").status && result == acc + ChildrenFrom(bucket, prefix, "").children
      ensures s == OK || s == Internal
      ensures s == OK ==> Elems(result[|acc|..]) == DirChildren(bucket, prefix)
      ensures s == Internal ==> Elems(result[|acc|..]) <= DirChildren(bucket, prefix)
      ensures ListingSucceeds(bucket, prefix) ==> s == OK
    {
      ghost var total := ChildrenFrom(bucket, prefix, "");
      result := acc;
      var marker := "";
      var ok, more := true, true;
      assert result[|acc|..] == [];
      while more
        invariant acc <= result
        invariant more ==> total == Listed(ChildrenFrom(bucket, prefix, marker).status,
                                           result[|acc|..] + ChildrenFrom(bucket, prefix, marker).children)
        invariant !more ==> total == Listed(if ok then OK else Internal, result[|acc|..])
        decreases more, |store.Remaining(bucket, prefix, Some('/'), marker)|
      {
        ok, result, marker, more := ChildrenPage(bucket, prefix, marker, result, acc, total);
      }
      s := if ok then OK else Internal;
      assert result == acc + result[|acc|..];
      ChildrenListed(bucket, prefix);
    }

    /** No request fails, and both buckets exist. */
    predicate Unfailing(srcBucket: string, tgtBucket: string)
      reads store
    {
      store.faults == {} && srcBucket in store.buckets && tgtBucket in store.buckets
    }

    /** The loop turn of RenameFile for one key: copy it to its target key,
        then delete it. */
    method MoveKey(srcBucket: string, src: string, tgtBucket: string, tgt: string, k: string,
                   ghost o0: map<ObjectId, Bytes>, ghost done: set<string>)
      returns (ok: bool, ghost pending: Option<string>)
      requires store.Valid() && Separated(srcBucket, src, tgtBucket, tgt)
      requires done <= KeysIn(o0, srcBucket, src) && k in KeysIn(o0, srcBucket, src) - done
      requires store.objects == Moved(o0, srcBucket, src, tgtBucket, tgt, done)
      modifies store
      ensures store.Valid()
      ensures ok ==> pending == None && store.objects == Moved(o0, srcBucket, src, tgtBucket, tgt, done + {k})
      ensures !ok ==>
        (pending == None || pending == Some(k)) &&
        store.objects == Interrupted(o0, srcBucket, src, tgtBucket, tgt, done, pending)
      ensures Unfailing(srcBucket, tgtBucket) ==> ok
    {
      MovedStep(o0, srcBucket, src, tgtBucket, tgt, done, k);
      pending := None;
      ok := store.Copy(srcBucket, k, tgtBucket, TargetKey(k, src, tgt));
      if !ok {
        return;
      }
      pending := Some(k);
      ok := store.Delete(srcBucket, k);
      if ok {
        pending := None;
      }
    }

    /** The loop of RenameFile over the keys of one page, in listing order. */
    method MoveKeys(srcBucket: string, src: string, tgtBucket: string, tgt: string, page: seq<string>,
                    ghost o0: map<ObjectId, Bytes>, ghost keys: set<string>, ghost done: set<string>)
      returns (ok: bool, ghost done': set<string>, ghost pending: Option<string>)
      requires store.Valid() && Separated(srcBucket, src, tgtBucket, tgt)
      requires keys == KeysIn(o0, srcBucket, src) && done <= keys && DownClosed(done, keys)
      requires store.objects == Moved(o0, srcBucket, src, tgtBucket, tgt, done)
      requires Increasing(page) && forall k | k in page :: k in keys - done
      requires forall a, b | a in page && b in keys - done - Elems(page) :: Less(a, b)
      modifies store
      ensures store.Valid() && done' <= keys && DownClosed(done', keys)
      ensures pending.Some? ==> pending.value in keys - done'
      ensures store.objects == Interrupted(o0, srcBucket, src, tgtBucket, tgt, done', pending)
      ensures ok ==> done' == done + Elems(page) && pending == None
      ensures Unfailing(srcBucket, tgtBucket) ==> ok
    {
      done', pending := done, None;
      var i := 0;
      while i < |page|
        invariant i <= |page| && store.Valid()
        invariant done' == done + Elems(page[..i])
        invariant done' <= keys && DownClosed(done', keys)
        invariant store.objects == Moved(o0, srcBucket, src, tgtBucket, tgt, done')
        invariant pending == None
      {
        LessIrreflexive(page[i]);
        assert page[i] !in Elems(page[..i]);
        ok, pending := MoveKey(srcBucket, src, tgtBucket, tgt, page[i], o0, done');
        if !ok {
          return;
        }
        ElemsTake(page, i);
        done' := done' + {page[i]};
        i := i + 1;
        DownClosedTake(done, keys, page, i);
      }
      assert page[..i] == page;
      ok := true;
    }

    /** One page of RenameFile: list the keys under the source prefix after
        marker, without a delimiter, and move each of them. */
    method RenamePage(srcBucket: string, src: string, tgtBucket: string, tgt: string, marker: string,
                      ghost o0: map<ObjectId, Bytes>, ghost keys: set<string>, ghost done: set<string>)
      returns (ok: bool, next: string, more: bool, ghost done': set<string>, ghost pending: Option<string>)
      requires store.Valid() && Separated(srcBucket, src, tgtBucket, tgt)
      requires keys == KeysIn(o0, srcBucket, src) && done <= keys && DownClosed(done, keys)
      requires store.objects == Moved(o0, srcBucket, src, tgtBucket, tgt, done)
      requires forall k | k in keys - done :: After(marker, k)
      modifies store
      ensures store.Valid() && done' <= keys && DownClosed(done', keys)
      ensures pending.Some? ==> pending.value in keys - done'
      ensures store.objects == Interrupted(o0, srcBucket, src, tgtBucket, tgt, done', pending)
      ensures ok ==>
        pending == None &&
        (more ==> (forall k | k in keys - done' :: After(next, k)) && |keys - done'| < |keys - done|) &&
        (!more ==> done' == keys)
      ensures Unfailing(srcBucket, tgtBucket) ==> ok
    {
      done', pending, next, more := done, None, marker, false;
      var listing := store.List(srcBucket, src, None, marker, ListMaxKeys);
      if listing.None? {
        return false, next, more, done', pending;
      }
      var page := listing.value;
      ghost var rest := keys - done;
      MovedKeys(o0, srcBucket, src, tgtBucket, tgt, done);
      assert RemainingOf(store.KeysUnder(srcBucket, src), marker) == rest;
      store.PlainOrder(srcBucket, src, marker, ListMaxKeys);
      store.PlainAdvance(srcBucket, src, marker, ListMaxKeys);
      ghost var moved := Elems(page.contents);
      assert moved <= rest;
      assert page.isTruncated ==> moved != {} && forall k | k in rest - moved :: After(page.nextMarker, k);
      assert !page.isTruncated ==> moved == rest;
      ok, done', pending := MoveKeys(srcBucket, src, tgtBucket, tgt, page.contents, o0, keys, done);
      if !ok {
        return;
      }
      SeenGrows(keys, done, moved);
      next, more := page.nextMarker, page.isTruncated;
    }

    /** The source and the normalized target of a rename do not overlap. */
    predicate RenameSeparated(src: string, target: string) {
      var ps := ParseCosPath(src, false);
      var pt := ParseCosPath(target, false);
      ps.Success? && pt.Success? ==>
        Separated(ps.value.bucket, ps.value.key, pt.value.bucket, NormalizeTarget(ps.value.key, pt.value.key))
    }

    /** RenameFile: lists every key under the source key, page by page, and
        copies each to the target key followed by the same suffix, then
        deletes it; the first failed request stops the rename. */
    method RenameFile(src: string, target: string)
      returns (s: Status, ghost renamed: set<string>, ghost pending: Option<string>)
      requires store.Valid() && RenameSeparated(src, target)
      modifies store
      ensures store.Valid()
      ensures ParseCosPath(src, false).Failure? || ParseCosPath(target, false).Failure? ==>
        s == InvalidArgument && store.objects == old(store.objects)
      ensures ParseCosPath(src, false).Success? && ParseCosPath(target, false).Success? ==>
        var ps := ParseCosPath(src, false).value;
        var pt := ParseCosPath(target, false).value;
        var tk := NormalizeTarget(ps.key, pt.key);
        var keys := KeysIn(old(store.objects), ps.bucket, ps.key);
        (s == OK || s == Internal) && renamed <= keys && DownClosed(renamed, keys) &&
        (pending.Some? ==> pending.value in keys - renamed) &&
        store.objects == Interrupted(old(store.objects), ps.bucket, ps.key, pt.bucket, tk, renamed, pending) &&
        (s == OK ==> renamed == keys && pending == None) &&
        (Unfailing(ps.bucket, pt.bucket) ==> s == OK)
    {
      renamed, pending := {}, None;
      var ps := ParseCosPath(src, false);
      if ps.Failure? {
        return ps.status, renamed, pending;
      }
      var pt := ParseCosPath(target, false);
      if pt.Failure? {
        return pt.status, renamed, pending;
      }
      var srcBucket, srcKey, tgtBucket := ps.value.bucket, ps.value.key, pt.value.bucket;
      var tgtKey := NormalizeTarget(srcKey, pt.value.key);
      ghost var o0 := store.objects;
      ghost var keys := KeysIn(o0, srcBucket, srcKey);
      MovedNothing(o0, srcBucket, srcKey, tgtBucket, tgtKey);
      var marker := "";
      var more := true;
      while more
        invariant store.Valid() && renamed <= keys && DownClosed(renamed, keys) && pending == None
        invariant store.objects == Moved(o0, srcBucket, srcKey, tgtBucket, tgtKey, renamed)
        invariant more ==> forall k | k in keys - renamed :: After(marker, k)
        invariant !more ==> renamed == keys
        decreases |keys - renamed| + (if more then 1 else 0)
      {
        var ok;
        ok, marker, more, renamed, pending := RenamePage(srcBucket, srcKey, tgtBucket, tgtKey, marker, o0, keys, renamed);
        if !ok {
          return Internal, renamed, pending;
        }
      }
      s := OK;
    }
  }
}
