/** The random-access reader: each read is one ranged GET of the object. */
module RandomAccessFile {
  import opened Outcomes
  import opened ObjectStore

  /** What a read hands back: its status and the bytes it placed in the result. */
  datatype Chunk = Chunk(status: Status, data: Bytes)

  /** The last byte of the range `bytes=offset-(offset+n-1)`, computed in
      unsigned 64-bit arithmetic, so that it wraps around when n is 0 or
      offset + n exceeds 2^64. */
  function RangeLast(offset: nat, n: nat): (last: nat)
    requires offset < U64 && n < U64
    ensures last < U64
    ensures 0 < n && offset + n <= U64 ==> last == offset + n - 1
    ensures (n == 0 || offset + n > U64) ==> last < offset || (offset == 0 && last == U64 - 1)
  {
    (offset + n - 1) % U64
  }

  class CosRandomAccessFile {
    const bucket: string
    const key: string
    const store: Store

    constructor (bucket: string, key: string, store: Store)
      ensures this.bucket == bucket && this.key == key && this.store == store
    {
      this.bucket := bucket;
      this.key := key;
      this.store := store;
    }

    /** Read as written: one GET of `bytes=offset-(offset+n-1)` in 64-bit
        arithmetic; any failure is OutOfRange with nothing read, a success
        hands back exactly the bytes the store sent. */
    function Read(offset: nat, n: nat): (r: Chunk)
      reads store
      requires store.Valid() && offset < U64 && n < U64
      ensures r.status == OK || r.status == OutOfRange
      ensures r.status == OutOfRange ==> r.data == []
      ensures r.status == OK ==> ObjectId(bucket, key) in store.objects
      ensures r.status == OK ==>
        r.data == store.Content(bucket, key) ||
        (offset < |store.Content(bucket, key)| &&
         r.data == store.Content(bucket, key)[offset..Min(offset + n, |store.Content(bucket, key)|)])
    {
      match store.Get(bucket, key, offset, RangeLast(offset, n))
      case None => Chunk(OutOfRange, [])
      case Some(d) =>
        assert |store.Content(bucket, key)| <= MaxObjectSize;
        Chunk(OK, d)
    }

    /** The read the interface promises: at most n bytes, starting at offset.
        A read of zero bytes reads nothing; the range's last byte is kept
        below 2^64 instead of wrapping around. */
    function ReadBounded(offset: nat, n: nat): (r: Chunk)
      reads store
      requires store.Valid() && offset < U64 && n < U64
      ensures r.status == OK || r.status == OutOfRange
      ensures |r.data| <= n
      ensures r.status == OutOfRange ==> r.data == []
      ensures r.status == OK && 0 < n ==>
        offset < |store.Content(bucket, key)| &&
        r.data == store.Content(bucket, key)[offset..Min(offset + n, |store.Content(bucket, key)|)]
      ensures r.status == OK <==>
        n == 0 ||
        (ObjectId(bucket, key) in store.objects && offset < |store.Content(bucket, key)| &&
         GetObject(bucket, key, offset, Min(offset + n - 1, U64 - 1)) !in store.faults)
    {
      if n == 0 then Chunk(OK, [])
      else
        match store.Get(bucket, key, offset, Min(offset + n - 1, U64 - 1))
        case None => Chunk(OutOfRange, [])
        case Some(d) =>
          assert |store.Content(bucket, key)| <= MaxObjectSize;
          Chunk(OK, d)
    }

    /** For every read of at least one byte whose range fits in 64 bits, the
        read as written is the bounded read. */
    lemma ReadAgrees(offset: nat, n: nat)
      requires store.Valid()
      requires offset < U64 && 0 < n < U64 && offset + n <= U64
      ensures Read(offset, n) == ReadBounded(offset, n)
    {
      assert RangeLast(offset, n) == Min(offset + n - 1, U64 - 1);
    }

    /** As written, a read of zero bytes, or one whose range wraps past 2^64,
        sends a range the store ignores and hands back the whole object,
        however many bytes were asked for, where the bounded read does not. */
    lemma ReadWrapsToWholeObject(offset: nat, n: nat)
      requires store.Valid()
      requires offset < U64 && n < U64 && (n == 0 || offset + n > U64)
      requires ObjectId(bucket, key) in store.objects && store.Content(bucket, key) != []
      requires GetObject(bucket, key, offset, RangeLast(offset, n)) !in store.faults
      ensures Read(offset, n) == Chunk(OK, store.Content(bucket, key))
      ensures ReadBounded(offset, n) != Read(offset, n)
    {
      var d := store.Content(bucket, key);
      assert |d| <= MaxObjectSize < U64;
      if RangeLast(offset, n) >= offset {
        assert d[0..Min(U64, |d|)] == d;
      }
      var b := ReadBounded(offset, n);
      if b.status == OK && 0 < n {
        assert |b.data| < |d|;
      }
    }

    /** Reading an object from its start for its whole length hands back the
        whole object. */
    lemma ReadWhole()
      requires store.Valid()
      requires ObjectId(bucket, key) in store.objects && store.Content(bucket, key) != []
      requires GetObject(bucket, key, 0, |store.Content(bucket, key)| - 1) !in store.faults
      ensures Read(0, |store.Content(bucket, key)|) == Chunk(OK, store.Content(bucket, key))
    {
      var d := store.Content(bucket, key);
      assert |d| <= MaxObjectSize < U64;
      assert d[0..|d|] == d;
    }

    /** Reading the whole of an empty object asks for zero bytes, whose range
        wraps around to start at 0, which an empty object cannot satisfy: the
        read fails where the bounded read succeeds with nothing. */
    lemma ReadEmptyObject()
      requires store.Valid()
      requires ObjectId(bucket, key) in store.objects && store.Content(bucket, key) == []
      ensures Read(0, 0) == Chunk(OutOfRange, [])
      ensures ReadBounded(0, 0) == Chunk(OK, [])
    {
      assert RangeLast(0, 0) == U64 - 1;
    }

    /** The read test: four bytes from offset 2 of a fourteen-byte object. */
    lemma ReadFourFromTwo()
      requires store.Valid()
      requires ObjectId(bucket, key) in store.objects && |store.Content(bucket, key)| == 14
      requires GetObject(bucket, key, 2, 5) !in store.faults
      ensures Read(2, 4) == Chunk(OK, store.Content(bucket, key)[2..6])
    {
    }
  }
}
