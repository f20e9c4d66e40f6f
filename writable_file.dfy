/** The buffered writer: appends go to a local staging stream, and every
    sync uploads the whole staged content as the object's new value. */
module WritableFile {
  import opened Outcomes
  import opened ObjectStore

  class CosWritableFile {
    const bucket: string
    const key: string
    const store: Store
    /** The content of the staging stream. */
    var buffer: Bytes
    /** The stream's position; reads and writes share it. */
    var pos: nat
    /** Whether the staging stream is open and in a good state. */
    var usable: bool
    /** Set when the writer is made and by every append; nothing clears it. */
    var syncNeeded: bool
    /** Whether the caller has closed the writer successfully. */
    var closed: bool

    /** Writing happens at the end of the staged content, and a sync is
        always due. */
    ghost predicate Valid()
      reads this
    {
      pos == |buffer| && syncNeeded
    }

    /** A new writer over an empty staging stream; stagingOpened says whether
        the stream could be opened. */
    constructor (bucket: string, key: string, store: Store, stagingOpened: bool)
      ensures Valid() && !closed
      ensures this.bucket == bucket && this.key == key && this.store == store
      ensures buffer == [] && usable == stagingOpened
    {
      this.bucket := bucket;
      this.key := key;
      this.store := store;
      buffer := [];
      pos := 0;
      usable := stagingOpened;
      syncNeeded := true;
      closed := false;
    }

    /** Appends data to the staging stream; writeOk says whether the local
        write succeeded. A failed write leaves the stream unusable. */
    method Append(data: Bytes, writeOk: bool) returns (s: Status)
      requires Valid() && !closed
      modifies this
      ensures Valid() && !closed
      ensures s == (if !old(usable) then FailedPrecondition else if writeOk then OK else Internal)
      ensures usable == (old(usable) && writeOk)
      ensures buffer == if s == OK then old(buffer) + data else old(buffer)
    {
      if !usable {
        return FailedPrecondition;
      }
      syncNeeded := true;
      if !writeOk {
        usable := false;
        return Internal;
      }
      buffer := buffer + data;
      pos := pos + |data|;
      s := OK;
    }

    /** Uploads the whole staged content from position 0 and puts the stream
        position back where it was, so later appends continue at the end. */
    method Sync() returns (s: Status)
      requires Valid() && !closed && store.Valid()
      modifies this, store
      ensures Valid() && !closed && store.Valid()
      ensures buffer == old(buffer) && pos == old(pos) && usable == old(usable)
      ensures s == (if !usable then FailedPrecondition
                    else if bucket in store.buckets && PutObject(bucket, key) !in store.faults &&
                            |buffer| <= MaxObjectSize then OK
                    else Internal)
      ensures store.objects == if s == OK then old(store.objects)[ObjectId(bucket, key) := buffer]
                               else old(store.objects)
    {
      if !usable {
        return FailedPrecondition;
      }
      // a sync is always due: syncNeeded is set from the start and never cleared
      assert syncNeeded;
      var offset := pos;
      pos := 0;
      var ok := store.Put(bucket, key, buffer);
      pos := offset;
      s := if ok then OK else Internal;
    }

    /** Flushing is syncing. */
    method Flush() returns (s: Status)
      requires Valid() && !closed && store.Valid()
      modifies this, store
      ensures Valid() && !closed && store.Valid()
      ensures buffer == old(buffer) && pos == old(pos) && usable == old(usable)
      ensures s == (if !usable then FailedPrecondition
                    else if bucket in store.buckets && PutObject(bucket, key) !in store.faults &&
                            |buffer| <= MaxObjectSize then OK
                    else Internal)
      ensures store.objects == if s == OK then old(store.objects)[ObjectId(bucket, key) := buffer]
                               else old(store.objects)
    {
      s := Sync();
    }

    /** Closing a usable writer syncs it and reports a failed sync without
        closing; an unusable writer closes without uploading anything. */
    method Close() returns (s: Status)
      requires Valid() && !closed && store.Valid()
      modifies this, store
      ensures Valid() && store.Valid() && buffer == old(buffer)
      ensures s == OK || (old(usable) && s == Internal)
      ensures closed == (s == OK) && (closed ==> !usable) && (!closed ==> usable == old(usable))
      ensures s == OK <==>
        (!old(usable) || (bucket in store.buckets && PutObject(bucket, key) !in store.faults &&
                          |buffer| <= MaxObjectSize))
      ensures store.objects == if s == OK && old(usable) then old(store.objects)[ObjectId(bucket, key) := buffer]
                               else old(store.objects)
    {
      if usable {
        s := Sync();
        if s != OK {
          return s;
        }
        usable := false;
      }
      closed := true;
      s := OK;
    }
  }
}
