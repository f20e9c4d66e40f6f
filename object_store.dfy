/** The object store the file system runs on: a map from (bucket, key) to
    bytes, a fixed set of buckets, and the primitives the file system calls
    (bucket check, HEAD, ranged GET, PUT, paged listing, DELETE, COPY).

    Which requests fail is decided by an explicit oracle, `faults`: a request
    in that set fails; every other request behaves as the store's contract
    says. */
module ObjectStore {
  import opened Outcomes
  import opened Keys

  type Byte = bv8
  type Bytes = seq<Byte>

  /** The largest object a single PUT (or a server-side copy) creates: 5 GiB. */
  const MaxObjectSize: nat := 5 * 1024 * 1024 * 1024

  /** 2^64, the number of values of the uint64 and size_t arguments. */
  const U64: nat := 0x1_0000_0000_0000_0000

  datatype ObjectId = ObjectId(bucket: string, key: string)

  /** Every request the file system sends, with the arguments that identify it. */
  datatype Request =
    | IsBucketExist(bucket: string)
    | HeadObject(bucket: string, key: string)
    | GetObject(bucket: string, key: string, first: nat, last: nat)
    | PutObject(bucket: string, key: string)
    | GetBucket(bucket: string, prefix: string, delimiter: Option<char>, marker: string, maxKeys: nat)
    | DeleteObject(bucket: string, key: string)
    | CopyObject(srcBucket: string, srcKey: string, dstBucket: string, dstKey: string)

  /** One page of a listing. */
  datatype ListPage = ListPage(commonPrefixes: seq<string>, contents: seq<string>,
                               isTruncated: bool, nextMarker: string)

  /** The answer to `Range: bytes=first-last`. A range whose last byte
      precedes its first is syntactically invalid; the store is taken to
      ignore the header and send the whole object, as section 14.35.1 of
      RFC 2616 requires. A range that starts at or past the end is
      unsatisfiable (section 4.4 of RFC 7233). Otherwise the range is cut at
      the end of the object (section 2.1 of RFC 7233). */
  function ServeRange(d: Bytes, first: nat, last: nat): Option<Bytes>
  {
    if last < first then Some(d)
    else if first >= |d| then None
    else Some(d[first..Min(last + 1, |d|)])
  }

  /** The first maxKeys entries of a sorted listing, split into common
      prefixes and object keys. */
  function PageOf(sorted: seq<string>, prefix: string, delimiter: Option<char>, marker: string,
                  maxKeys: nat): ListPage
  {
    var page := sorted[..Min(maxKeys, |sorted|)];
    ListPage(Filter(page, e => IsCommonPrefix(e, prefix, delimiter)),
             Filter(page, e => !IsCommonPrefix(e, prefix, delimiter)),
             |sorted| > maxKeys,
             if page == [] then marker else page[|page| - 1])
  }

  /** Every entry of a page comes from the listing it was cut from. */
  lemma PageShape(sorted: seq<string>, prefix: string, delimiter: Option<char>, marker: string, maxKeys: nat)
    requires forall e | e in sorted ::
      prefix <= e && (IsCommonPrefix(e, prefix, delimiter) ==> |e| > |prefix| && e[|e| - 1] == delimiter.value)
    ensures var p := PageOf(sorted, prefix, delimiter, marker, maxKeys);
      (forall k | k in p.contents :: prefix <= k && !IsCommonPrefix(k, prefix, delimiter)) &&
      (forall c | c in p.commonPrefixes ::
        prefix <= c && |c| > |prefix| && IsCommonPrefix(c, prefix, delimiter) && c[|c| - 1] == delimiter.value)
  {
    var page := sorted[..Min(maxKeys, |sorted|)];
    assert forall e | e in page :: e in sorted;
  }

  /** The entries of a listing that sort after marker. */
  function RemainingOf(entries: set<string>, marker: string): set<string>
  {
    set e | e in entries && After(marker, e)
  }

  /** The entries a page reports are the first maxKeys of the listing. */
  lemma PageEntriesOf(sorted: seq<string>, prefix: string, delimiter: Option<char>, marker: string, maxKeys: nat)
    ensures var p := PageOf(sorted, prefix, delimiter, marker, maxKeys);
      PageEntries(p) == Elems(sorted[..Min(maxKeys, |sorted|)]) &&
      (p.isTruncated <==> |sorted| > maxKeys) &&
      (p.isTruncated && maxKeys > 0 ==> p.nextMarker == sorted[maxKeys - 1])
  {
  }

  /** Cutting a sorted listing after its n-th entry and restarting from that
      entry leaves exactly the entries after the cut. */
  lemma MarkerAdvance(entries: set<string>, marker: string, n: nat)
    requires "" !in entries
    requires 0 < n < |SortedKeys(RemainingOf(entries, marker))|
    ensures var sorted := SortedKeys(RemainingOf(entries, marker));
      RemainingOf(entries, sorted[n - 1]) == RemainingOf(entries, marker) - Elems(sorted[..n])
  {
    var rest := RemainingOf(entries, marker);
    var sorted := SortedKeys(rest);
    var next := sorted[n - 1];
    assert next in rest;
    var after := RemainingOf(entries, next);
    forall x | x in after ensures x in rest && x !in sorted[..n] {
      AfterTransitive(marker, next, x);
      IncreasingSplit(sorted, n, x);
    }
    forall x | x in rest && x !in sorted[..n] ensures x in after {
      IncreasingSplit(sorted, n, x);
    }
  }

  /** The keys of a bucket that start with prefix. */
  function KeysIn(objects: map<ObjectId, Bytes>, bucket: string, prefix: string): (r: set<string>)
    ensures forall k :: k in r <==> ObjectId(bucket, k) in objects && prefix <= k
  {
    var r := set id | id in objects && id.bucket == bucket && prefix <= id.key :: id.key;
    assert forall k | ObjectId(bucket, k) in objects && prefix <= k :: k in r by {
      forall k | ObjectId(bucket, k) in objects && prefix <= k ensures k in r {
        var id := ObjectId(bucket, k);
        assert id in objects && id.key == k;
      }
    }
    r
  }

  /** Without a delimiter, a page has no common prefixes: it is the first
      maxKeys keys, and it is truncated when keys are left over. */
  lemma PlainPageOf(sorted: seq<string>, prefix: string, marker: string, maxKeys: nat)
    ensures var p := PageOf(sorted, prefix, None, marker, maxKeys);
      p.commonPrefixes == [] && p.contents == sorted[..Min(maxKeys, |sorted|)] &&
      (p.isTruncated <==> |sorted| > maxKeys) &&
      (p.isTruncated && maxKeys > 0 ==> p.nextMarker == sorted[maxKeys - 1])
  {
    var page := sorted[..Min(maxKeys, |sorted|)];
    FilterAll(page, e => !IsCommonPrefix(e, prefix, None));
    FilterNone(page, e => IsCommonPrefix(e, prefix, None));
  }

  /** Every key a sorted listing has after its first n sorts after the n-th. */
  lemma PlainCut(rest: set<string>, n: nat)
    requires 0 < n <= |rest|
    ensures var sorted := SortedKeys(rest);
      forall k | k in rest - Elems(sorted[..n]) :: Less(sorted[n - 1], k)
  {
    var sorted := SortedKeys(rest);
    forall k | k in rest - Elems(sorted[..n]) ensures Less(sorted[n - 1], k) {
      IncreasingSplit(sorted, n, k);
    }
  }

  /** A truncated page without a delimiter is not empty, and every key it
      left out sorts after its marker. */
  lemma PlainTruncatedOf(rest: set<string>, prefix: string, marker: string, maxKeys: nat)
    requires 0 < maxKeys < |rest|
    ensures var p := PageOf(SortedKeys(rest), prefix, None, marker, maxKeys);
      p.isTruncated && Elems(p.contents) != {} &&
      forall k | k in rest - Elems(p.contents) :: After(p.nextMarker, k)
  {
    var sorted := SortedKeys(rest);
    PlainPageOf(sorted, prefix, marker, maxKeys);
    PlainCut(rest, maxKeys);
    assert sorted[0] in Elems(sorted[..maxKeys]);
  }

  /** A page without a delimiter cut from a listing that fits in it is the
      whole listing. */
  lemma PlainWholeOf(sorted: seq<string>, prefix: string, marker: string, maxKeys: nat)
    requires |sorted| <= maxKeys
    ensures var p := PageOf(sorted, prefix, None, marker, maxKeys);
      !p.isTruncated && p.contents == sorted
  {
    PlainPageOf(sorted, prefix, marker, maxKeys);
    assert sorted[..|sorted|] == sorted;
  }

  /** A page without a delimiter that is not truncated holds every key. */
  lemma PlainCompleteOf(rest: set<string>, prefix: string, marker: string, maxKeys: nat)
    requires |rest| <= maxKeys
    ensures var p := PageOf(SortedKeys(rest), prefix, None, marker, maxKeys);
      !p.isTruncated && Elems(p.contents) == rest
  {
    ElemsOfSorted(rest);
    PlainWholeOf(SortedKeys(rest), prefix, marker, maxKeys);
  }

  /** Every entry a page reports. */
  function PageEntries(p: ListPage): set<string>
  {
    Elems(p.commonPrefixes + p.contents)
  }

  /** The buckets that hold at least one object. */
  ghost function BucketsOf(objects: map<ObjectId, Bytes>): set<string>
  {
    set id | id in objects :: id.bucket
  }

  class Store {
    var objects: map<ObjectId, Bytes>
    const buckets: set<string>
    const faults: set<Request>

    /** Every object fits the size limit and lies in an existing bucket. */
    ghost predicate Valid()
      reads this
    {
      (forall id | id in objects :: |objects[id]| <= MaxObjectSize) && BucketsOf(objects) <= buckets
    }

    constructor (buckets: set<string>, faults: set<Request>, objects: map<ObjectId, Bytes>)
      requires forall id | id in objects :: |objects[id]| <= MaxObjectSize
      requires BucketsOf(objects) <= buckets
      ensures Valid()
      ensures this.objects == objects && this.buckets == buckets && this.faults == faults
    {
      this.objects := objects;
      this.buckets := buckets;
      this.faults := faults;
    }

    /** The content of an object, or nothing if there is no such object. */
    function Content(bucket: string, key: string): Bytes
      reads this
    {
      var id := ObjectId(bucket, key);
      if id in objects then objects[id] else []
    }

    function BucketExists(bucket: string): bool
      reads this
    {
      bucket in buckets && IsBucketExist(bucket) !in faults
    }

    /** HEAD: the content length of an existing object. */
    function Head(bucket: string, key: string): Option<nat>
      reads this
    {
      var id := ObjectId(bucket, key);
      if id in objects && HeadObject(bucket, key) !in faults then Some(|objects[id]|) else None
    }

    /** GET with `Range: bytes=first-last`. */
    function Get(bucket: string, key: string, first: nat, last: nat): Option<Bytes>
      reads this
    {
      var id := ObjectId(bucket, key);
      if id !in objects || GetObject(bucket, key, first, last) in faults then None
      else ServeRange(objects[id], first, last)
    }

    /** The keys of a bucket that start with prefix. */
    function KeysUnder(bucket: string, prefix: string): set<string>
      reads this
    {
      KeysIn(objects, bucket, prefix)
    }

    /** What a listing reports for the keys under prefix: the keys themselves,
        or with a delimiter their common prefixes. */
    function Entries(bucket: string, prefix: string, delimiter: Option<char>): set<string>
      reads this
    {
      set id | id in objects && id.bucket == bucket && prefix <= id.key :: EntryOf(id.key, prefix, delimiter)
    }

    /** The entries a listing still has to report once it has reached marker. */
    function Remaining(bucket: string, prefix: string, delimiter: Option<char>, marker: string): set<string>
      reads this
    {
      RemainingOf(Entries(bucket, prefix, delimiter), marker)
    }

    /** GET Bucket: the page of entries that follows marker. */
    function List(bucket: string, prefix: string, delimiter: Option<char>, marker: string, maxKeys: nat)
      : (r: Option<ListPage>)
      reads this
      ensures r.Some? ==> forall k | k in r.value.contents :: prefix <= k && !IsCommonPrefix(k, prefix, delimiter)
      ensures r.Some? ==> forall p | p in r.value.commonPrefixes ::
        prefix <= p && |p| > |prefix| && IsCommonPrefix(p, prefix, delimiter) && p[|p| - 1] == delimiter.value
    {
      if bucket !in buckets || GetBucket(bucket, prefix, delimiter, marker, maxKeys) in faults then None
      else
        var sorted := SortedKeys(Remaining(bucket, prefix, delimiter, marker));
        EntriesShape(bucket, prefix, delimiter);
        PageShape(sorted, prefix, delimiter, marker, maxKeys);
        Some(PageOf(sorted, prefix, delimiter, marker, maxKeys))
    }

    lemma EntriesShape(bucket: string, prefix: string, delimiter: Option<char>)
      ensures forall e | e in Entries(bucket, prefix, delimiter) ::
        prefix <= e && (IsCommonPrefix(e, prefix, delimiter) ==> |e| > |prefix| && e[|e| - 1] == delimiter.value)
    {
      forall e | e in Entries(bucket, prefix, delimiter)
        ensures prefix <= e && (IsCommonPrefix(e, prefix, delimiter) ==> |e| > |prefix| && e[|e| - 1] == delimiter.value)
      {
        var id :| id in objects && id.bucket == bucket && prefix <= id.key &&
                  e == EntryOf(id.key, prefix, delimiter);
        EntryOfShape(id.key, prefix, delimiter);
      }
    }

    /** A page lists entries that were still to come; following its marker
        lists exactly the entries it did not, and a page that is not
        truncated holds everything that was left. */
    lemma ListAdvance(bucket: string, prefix: string, delimiter: Option<char>, marker: string, maxKeys: nat)
      requires List(bucket, prefix, delimiter, marker, maxKeys).Some?
      requires prefix != "" && maxKeys > 0
      ensures var p := List(bucket, prefix, delimiter, marker, maxKeys).value;
        var rest := Remaining(bucket, prefix, delimiter, marker);
        PageEntries(p) <= rest &&
        (p.isTruncated ==>
          PageEntries(p) != {} &&
          Remaining(bucket, prefix, delimiter, p.nextMarker) == rest - PageEntries(p)) &&
        (!p.isTruncated ==> PageEntries(p) == rest)
    {
      var entries := Entries(bucket, prefix, delimiter);
      EntriesShape(bucket, prefix, delimiter);
      var sorted := SortedKeys(RemainingOf(entries, marker));
      PageEntriesOf(sorted, prefix, delimiter, marker, maxKeys);
      if |sorted| > maxKeys {
        MarkerAdvance(entries, marker, maxKeys);
      }
    }

    /** Without a delimiter, a listing is a page of the sorted keys under
        prefix that follow marker. */
    lemma ListPlain(bucket: string, prefix: string, marker: string, maxKeys: nat)
      requires List(bucket, prefix, None, marker, maxKeys).Some?
      ensures List(bucket, prefix, None, marker, maxKeys).value ==
        PageOf(SortedKeys(RemainingOf(KeysUnder(bucket, prefix), marker)), prefix, None, marker, maxKeys)
    {
      assert Entries(bucket, prefix, None) == KeysUnder(bucket, prefix);
    }

    /** Without a delimiter, a page is the smallest keys under prefix that
        sort after marker, and it has no common prefixes. */
    lemma PlainPage(bucket: string, prefix: string, marker: string, maxKeys: nat)
      requires List(bucket, prefix, None, marker, maxKeys).Some?
      ensures var keys := RemainingOf(KeysUnder(bucket, prefix), marker);
        var p := List(bucket, prefix, None, marker, maxKeys).value;
        p.commonPrefixes == [] && p.contents == SortedKeys(keys)[..Min(maxKeys, |keys|)]
    {
      var keys := RemainingOf(KeysUnder(bucket, prefix), marker);
      ListPlain(bucket, prefix, marker, maxKeys);
      PlainPageOf(SortedKeys(keys), prefix, marker, maxKeys);
    }

    /** Without a delimiter, the first page is the smallest keys under prefix. */
    lemma FirstPlainPage(bucket: string, prefix: string, maxKeys: nat)
      requires List(bucket, prefix, None, "", maxKeys).Some?
      ensures var keys := KeysUnder(bucket, prefix);
        List(bucket, prefix, None, "", maxKeys).value.contents == SortedKeys(keys)[..Min(maxKeys, |keys|)] &&
        |List(bucket, prefix, None, "", maxKeys).value.contents| == Min(maxKeys, |keys|)
    {
      PlainPage(bucket, prefix, "", maxKeys);
      assert RemainingOf(KeysUnder(bucket, prefix), "") == KeysUnder(bucket, prefix);
    }

    /** A page of a listing without a delimiter holds, in order, keys that
        sort before every key it leaves out. */
    lemma PlainOrder(bucket: string, prefix: string, marker: string, maxKeys: nat)
      requires List(bucket, prefix, None, marker, maxKeys).Some?
      ensures var rest := RemainingOf(KeysUnder(bucket, prefix), marker);
        var p := List(bucket, prefix, None, marker, maxKeys).value;
        Increasing(p.contents) && Elems(p.contents) <= rest &&
        forall a, b | a in p.contents && b in rest - Elems(p.contents) :: Less(a, b)
    {
      var rest := RemainingOf(KeysUnder(bucket, prefix), marker);
      PlainPage(bucket, prefix, marker, maxKeys);
      PrefixBelow(SortedKeys(rest), Min(maxKeys, |rest|));
    }

    /** Following the marker of a page without a delimiter lists exactly the
        keys it left out, and a page that is not truncated holds every key
        that was left. */
    lemma PlainAdvance(bucket: string, prefix: string, marker: string, maxKeys: nat)
      requires List(bucket, prefix, None, marker, maxKeys).Some? && maxKeys > 0
      ensures var rest := RemainingOf(KeysUnder(bucket, prefix), marker);
        var p := List(bucket, prefix, None, marker, maxKeys).value;
        var page := Elems(p.contents);
        (p.isTruncated ==> page != {} && forall k | k in rest - page :: After(p.nextMarker, k)) &&
        (!p.isTruncated ==> page == rest)
    {
      var rest := RemainingOf(KeysUnder(bucket, prefix), marker);
      ListPlain(bucket, prefix, marker, maxKeys);
      if |rest| > maxKeys {
        PlainTruncatedOf(rest, prefix, marker, maxKeys);
      } else {
        PlainCompleteOf(rest, prefix, marker, maxKeys);
      }
    }

    /** PUT: replaces the whole object. */
    method Put(bucket: string, key: string, content: Bytes) returns (ok: bool)
      requires Valid()
      modifies this
      ensures Valid()
      ensures ok == (bucket in buckets && PutObject(bucket, key) !in faults && |content| <= MaxObjectSize)
      ensures objects == if ok then old(objects)[ObjectId(bucket, key) := content] else old(objects)
    {
      ok := bucket in buckets && PutObject(bucket, key) !in faults && |content| <= MaxObjectSize;
      if ok {
        objects := objects[ObjectId(bucket, key) := content];
      }
    }

    /** DELETE: removing a key that does not exist succeeds. */
    method Delete(bucket: string, key: string) returns (ok: bool)
      requires Valid()
      modifies this
      ensures Valid()
      ensures ok == (bucket in buckets && DeleteObject(bucket, key) !in faults)
      ensures objects == if ok then old(objects) - {ObjectId(bucket, key)} else old(objects)
    {
      ok := bucket in buckets && DeleteObject(bucket, key) !in faults;
      if ok {
        objects := objects - {ObjectId(bucket, key)};
      }
    }

    /** Server-side COPY of an existing object onto any key of an existing bucket. */
    method Copy(srcBucket: string, srcKey: string, dstBucket: string, dstKey: string) returns (ok: bool)
      requires Valid()
      modifies this
      ensures Valid()
      ensures ok == (ObjectId(srcBucket, srcKey) in old(objects) && dstBucket in buckets &&
                     CopyObject(srcBucket, srcKey, dstBucket, dstKey) !in faults)
      ensures objects == if ok then old(objects)[ObjectId(dstBucket, dstKey) := old(objects)[ObjectId(srcBucket, srcKey)]]
                         else old(objects)
    {
      var src := ObjectId(srcBucket, srcKey);
      ok := src in objects && dstBucket in buckets && CopyObject(srcBucket, srcKey, dstBucket, dstKey) !in faults;
      if ok {
        objects := objects[ObjectId(dstBucket, dstKey) := objects[src]];
      }
    }
  }
}
