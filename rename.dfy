/** What a rename does to the store: every key under the source prefix is
    copied to the target prefix followed by the same suffix, and then
    deleted. */
module Rename {
  import opened Outcomes
  import opened Keys
  import opened ObjectStore

  /** The target key matches the source's kind: a directory source (ending
      in '/') gets a target ending in '/', any other source loses one
      trailing '/' from its target. */
  function NormalizeTarget(srcKey: string, tgtKey: string): (r: string)
    ensures EndsInSlash(srcKey) ==> EndsInSlash(r) && (if EndsInSlash(tgtKey) then r == tgtKey else r == tgtKey + "/")
    ensures !EndsInSlash(srcKey) ==>
      (!EndsInSlash(tgtKey) && r == tgtKey) || (EndsInSlash(tgtKey) && r + "/" == tgtKey)
  {
    if EndsInSlash(srcKey) then WithSlash(tgtKey)
    else if EndsInSlash(tgtKey) then tgtKey[..|tgtKey| - 1]
    else tgtKey
  }

  /** Unless the target ends in "//", the normalized target ends in '/'
      exactly when the source does. */
  lemma NormalizeTargetKind(srcKey: string, tgtKey: string)
    requires !(|tgtKey| >= 2 && tgtKey[|tgtKey| - 2..] == "//")
    ensures EndsInSlash(NormalizeTarget(srcKey, tgtKey)) <==> EndsInSlash(srcKey)
  {
    if !EndsInSlash(srcKey) && EndsInSlash(tgtKey) && |tgtKey| >= 2 {
      assert tgtKey[|tgtKey| - 2..] == [tgtKey[|tgtKey| - 2], '/'];
    }
  }

  /** The key a source key is copied to: its source prefix replaced by the
      target prefix. */
  function TargetKey(key: string, src: string, tgt: string): (r: string)
    requires src <= key
    ensures tgt <= r && |r| == |tgt| + |key| - |src|
  {
    tgt + key[|src|..]
  }

  lemma TargetKeyInjective(src: string, tgt: string, a: string, b: string)
    requires src <= a && src <= b
    ensures TargetKey(a, src, tgt) == TargetKey(b, src, tgt) ==> a == b
  {
    if TargetKey(a, src, tgt) == TargetKey(b, src, tgt) {
      assert a[|src|..] == TargetKey(a, src, tgt)[|tgt|..];
      assert a == src + a[|src|..] && b == src + b[|src|..];
    }
  }

  /** The source and target ranges do not overlap: either they are in
      different buckets, or neither prefix extends the other. */
  predicate Separated(srcBucket: string, src: string, tgtBucket: string, tgt: string) {
    srcBucket != tgtBucket || (!(src <= tgt) && !(tgt <= src))
  }

  /** Under separation, no copy lands under the source prefix. */
  lemma TargetOutside(srcBucket: string, src: string, tgtBucket: string, tgt: string, key: string)
    requires Separated(srcBucket, src, tgtBucket, tgt) && src <= key
    ensures tgtBucket == srcBucket ==> !(src <= TargetKey(key, src, tgt))
  {
    var t := TargetKey(key, src, tgt);
    if tgtBucket == srcBucket {
      if |src| <= |tgt| {
        assert src != tgt[..|src|];
        var i :| 0 <= i < |src| && src[i] != tgt[..|src|][i];
        assert t[i] == tgt[i];
      } else {
        assert tgt != src[..|tgt|];
        var i :| 0 <= i < |tgt| && tgt[i] != src[..|tgt|][i];
        assert t[i] == tgt[i];
      }
    }
  }

  function SourceIds(srcBucket: string, done: set<string>): set<ObjectId> {
    set k | k in done :: ObjectId(srcBucket, k)
  }

  function TargetIds(src: string, tgtBucket: string, tgt: string, done: set<string>): set<ObjectId>
    requires forall k | k in done :: src <= k
  {
    set k | k in done :: ObjectId(tgtBucket, TargetKey(k, src, tgt))
  }

  lemma TargetIdsOutside(srcBucket: string, src: string, tgtBucket: string, tgt: string, done: set<string>)
    requires Separated(srcBucket, src, tgtBucket, tgt)
    requires forall k | k in done :: src <= k
    ensures forall id | id in TargetIds(src, tgtBucket, tgt, done) :: id.bucket != srcBucket || !(src <= id.key)
  {
    forall id | id in TargetIds(src, tgtBucket, tgt, done) ensures id.bucket != srcBucket || !(src <= id.key) {
      var j :| j in done && id == ObjectId(tgtBucket, TargetKey(j, src, tgt));
      TargetOutside(srcBucket, src, tgtBucket, tgt, j);
    }
  }

  /** The copies of the renamed keys, each at its target key. */
  function Copies(o: map<ObjectId, Bytes>, srcBucket: string, src: string, tgtBucket: string, tgt: string,
                  done: set<string>): map<ObjectId, Bytes>
    requires done <= KeysIn(o, srcBucket, src)
  {
    assert forall a, b | a in done && b in done :: TargetKey(a, src, tgt) == TargetKey(b, src, tgt) ==> a == b by {
      forall a, b | a in done && b in done {
        TargetKeyInjective(src, tgt, a, b);
      }
    }
    map k | k in done :: ObjectId(tgtBucket, TargetKey(k, src, tgt)) := o[ObjectId(srcBucket, k)]
  }

  /** The store once the keys in done have been copied and deleted. */
  function Moved(o: map<ObjectId, Bytes>, srcBucket: string, src: string, tgtBucket: string, tgt: string,
                 done: set<string>): map<ObjectId, Bytes>
    requires done <= KeysIn(o, srcBucket, src)
  {
    (o - SourceIds(srcBucket, done)) + Copies(o, srcBucket, src, tgtBucket, tgt, done)
  }

  /** The store after a rename stopped by a failed request: the keys in done
      are moved, and pending, if present, was copied but not deleted. */
  function Interrupted(o: map<ObjectId, Bytes>, srcBucket: string, src: string, tgtBucket: string, tgt: string,
                       done: set<string>, pending: Option<string>): map<ObjectId, Bytes>
    requires done <= KeysIn(o, srcBucket, src)
    requires pending.Some? ==> pending.value in KeysIn(o, srcBucket, src)
  {
    var m := Moved(o, srcBucket, src, tgtBucket, tgt, done);
    match pending
    case None => m
    case Some(k) => m[ObjectId(tgtBucket, TargetKey(k, src, tgt)) := o[ObjectId(srcBucket, k)]]
  }

  /** The keys in done are the smallest of keys. */
  predicate DownClosed(done: set<string>, keys: set<string>) {
    forall a, b | a in done && b in keys - done :: Less(a, b)
  }

  lemma MovedNothing(o: map<ObjectId, Bytes>, srcBucket: string, src: string, tgtBucket: string, tgt: string)
    ensures Moved(o, srcBucket, src, tgtBucket, tgt, {}) == o
  {
    assert SourceIds(srcBucket, {}) == {};
  }

  /** What a completed move means, object by object: every moved key is gone
      and its content sits at its target key, whatever was there before, and
      every other object is untouched. */
  lemma MovedMeaning(o: map<ObjectId, Bytes>, srcBucket: string, src: string, tgtBucket: string, tgt: string,
                     done: set<string>)
    requires Separated(srcBucket, src, tgtBucket, tgt)
    requires done <= KeysIn(o, srcBucket, src)
    ensures var m := Moved(o, srcBucket, src, tgtBucket, tgt, done);
      m.Keys == (o.Keys - SourceIds(srcBucket, done)) + TargetIds(src, tgtBucket, tgt, done) &&
      (forall k | k in done :: ObjectId(srcBucket, k) !in m) &&
      (forall k | k in done :: m[ObjectId(tgtBucket, TargetKey(k, src, tgt))] == o[ObjectId(srcBucket, k)]) &&
      (forall id | id in o && id !in SourceIds(srcBucket, done) && id !in TargetIds(src, tgtBucket, tgt, done) ::
         id in m && m[id] == o[id])
  {
    var m := Moved(o, srcBucket, src, tgtBucket, tgt, done);
    var c := Copies(o, srcBucket, src, tgtBucket, tgt, done);
    assert c.Keys == TargetIds(src, tgtBucket, tgt, done);
    TargetIdsOutside(srcBucket, src, tgtBucket, tgt, done);
    forall k | k in done ensures ObjectId(srcBucket, k) !in m {
      assert ObjectId(srcBucket, k) in SourceIds(srcBucket, done);
    }
    forall k | k in done ensures m[ObjectId(tgtBucket, TargetKey(k, src, tgt))] == o[ObjectId(srcBucket, k)] {
      var t := ObjectId(tgtBucket, TargetKey(k, src, tgt));
      assert t in c;
      var j :| j in done && ObjectId(tgtBucket, TargetKey(j, src, tgt)) == t && c[t] == o[ObjectId(srcBucket, j)];
      TargetKeyInjective(src, tgt, j, k);
    }
  }

  /** The copies sit exactly at the target keys of the renamed keys. */
  lemma CopiesKeys(o: map<ObjectId, Bytes>, srcBucket: string, src: string, tgtBucket: string, tgt: string,
                   done: set<string>)
    requires done <= KeysIn(o, srcBucket, src)
    ensures Copies(o, srcBucket, src, tgtBucket, tgt, done).Keys == TargetIds(src, tgtBucket, tgt, done)
  {
  }

  /** Each renamed key's copy holds its content. */
  lemma CopiesAt(o: map<ObjectId, Bytes>, srcBucket: string, src: string, tgtBucket: string, tgt: string,
                 done: set<string>, k: string)
    requires done <= KeysIn(o, srcBucket, src) && k in done
    ensures var c := Copies(o, srcBucket, src, tgtBucket, tgt, done);
      ObjectId(tgtBucket, TargetKey(k, src, tgt)) in c &&
      c[ObjectId(tgtBucket, TargetKey(k, src, tgt))] == o[ObjectId(srcBucket, k)]
  {
    var c := Copies(o, srcBucket, src, tgtBucket, tgt, done);
    var t := ObjectId(tgtBucket, TargetKey(k, src, tgt));
    assert t in c;
    var j :| j in done && ObjectId(tgtBucket, TargetKey(j, src, tgt)) == t && c[t] == o[ObjectId(srcBucket, j)];
    TargetKeyInjective(src, tgt, j, k);
  }

  /** A map that agrees with c everywhere but at t, where it holds v, is c
      updated at t. */
  lemma MapUpdate(c: map<ObjectId, Bytes>, c': map<ObjectId, Bytes>, t: ObjectId, v: Bytes)
    requires c'.Keys == c.Keys + {t} && c'[t] == v
    requires forall x | x in c && x != t :: c'[x] == c[x]
    ensures c' == c[t := v]
  {
  }

  /** Copying one more key adds its copy at its target key. */
  lemma CopiesAdd(o: map<ObjectId, Bytes>, srcBucket: string, src: string, tgtBucket: string, tgt: string,
                  done: set<string>, k: string)
    requires done <= KeysIn(o, srcBucket, src) && k in KeysIn(o, srcBucket, src) - done
    ensures Copies(o, srcBucket, src, tgtBucket, tgt, done + {k}) ==
      Copies(o, srcBucket, src, tgtBucket, tgt, done)[ObjectId(tgtBucket, TargetKey(k, src, tgt)) :=
                                                      o[ObjectId(srcBucket, k)]]
  {
    var c := Copies(o, srcBucket, src, tgtBucket, tgt, done);
    var c' := Copies(o, srcBucket, src, tgtBucket, tgt, done + {k});
    var t := ObjectId(tgtBucket, TargetKey(k, src, tgt));
    CopiesKeys(o, srcBucket, src, tgtBucket, tgt, done);
    CopiesKeys(o, srcBucket, src, tgtBucket, tgt, done + {k});
    assert TargetIds(src, tgtBucket, tgt, done + {k}) == TargetIds(src, tgtBucket, tgt, done) + {t};
    CopiesAt(o, srcBucket, src, tgtBucket, tgt, done + {k}, k);
    forall x | x in c && x != t ensures c'[x] == c[x] {
      var j :| j in done && x == ObjectId(tgtBucket, TargetKey(j, src, tgt));
      CopiesAt(o, srcBucket, src, tgtBucket, tgt, done + {k}, j);
      CopiesAt(o, srcBucket, src, tgtBucket, tgt, done, j);
    }
    MapUpdate(c, c', t, o[ObjectId(srcBucket, k)]);
  }

  /** Overwriting one entry and then removing another commutes with a merge. */
  lemma MergeStep(a: map<ObjectId, Bytes>, c: map<ObjectId, Bytes>, t: ObjectId, v: Bytes, id: ObjectId)
    requires id !in c && t != id
    ensures (a + c)[t := v] - {id} == (a - {id}) + c[t := v]
  {
  }

  /** Moving one more key: copy it to its target, then delete it. */
  lemma MovedStep(o: map<ObjectId, Bytes>, srcBucket: string, src: string, tgtBucket: string, tgt: string,
                  done: set<string>, k: string)
    requires Separated(srcBucket, src, tgtBucket, tgt)
    requires done <= KeysIn(o, srcBucket, src) && k in KeysIn(o, srcBucket, src) - done
    ensures var m := Moved(o, srcBucket, src, tgtBucket, tgt, done);
      var src' := ObjectId(srcBucket, k);
      src' in m && m[src'] == o[src'] &&
      m[ObjectId(tgtBucket, TargetKey(k, src, tgt)) := o[src']] - {src'} ==
        Moved(o, srcBucket, src, tgtBucket, tgt, done + {k})
  {
    var id := ObjectId(srcBucket, k);
    var t := ObjectId(tgtBucket, TargetKey(k, src, tgt));
    var a := o - SourceIds(srcBucket, done);
    var c := Copies(o, srcBucket, src, tgtBucket, tgt, done);
    assert c.Keys == TargetIds(src, tgtBucket, tgt, done);
    TargetIdsOutside(srcBucket, src, tgtBucket, tgt, done);
    TargetOutside(srcBucket, src, tgtBucket, tgt, k);
    assert id !in c;
    assert id in a;
    CopiesAdd(o, srcBucket, src, tgtBucket, tgt, done, k);
    MergeStep(a, c, t, o[id], id);
    assert SourceIds(srcBucket, done + {k}) == SourceIds(srcBucket, done) + {id};
    assert o - SourceIds(srcBucket, done + {k}) == a - {id};
  }

  /** After moving done, the keys still under the source prefix are the
      others. */
  lemma MovedKeys(o: map<ObjectId, Bytes>, srcBucket: string, src: string, tgtBucket: string, tgt: string,
                  done: set<string>)
    requires Separated(srcBucket, src, tgtBucket, tgt)
    requires done <= KeysIn(o, srcBucket, src)
    ensures KeysIn(Moved(o, srcBucket, src, tgtBucket, tgt, done), srcBucket, src) == KeysIn(o, srcBucket, src) - done
  {
    var m := Moved(o, srcBucket, src, tgtBucket, tgt, done);
    MovedMeaning(o, srcBucket, src, tgtBucket, tgt, done);
    TargetIdsOutside(srcBucket, src, tgtBucket, tgt, done);
    forall k | k in KeysIn(m, srcBucket, src) ensures k in KeysIn(o, srcBucket, src) - done {
      assert ObjectId(srcBucket, k) !in TargetIds(src, tgtBucket, tgt, done);
    }
    forall k | k in KeysIn(o, srcBucket, src) - done ensures k in KeysIn(m, srcBucket, src) {
      assert ObjectId(srcBucket, k) !in TargetIds(src, tgtBucket, tgt, done);
    }
  }

  /** A page of a sorted listing taken one key at a time keeps the moved
      keys the smallest ones. */
  lemma DownClosedTake(done: set<string>, keys: set<string>, page: seq<string>, i: nat)
    requires DownClosed(done, keys) && Increasing(page) && i <= |page|
    requires forall k | k in page :: k in keys - done
    requires forall a, b | a in page && b in keys - done - Elems(page) :: Less(a, b)
    ensures DownClosed(done + Elems(page[..i]), keys)
  {
    var done' := done + Elems(page[..i]);
    forall a, b | a in done' && b in keys - done' ensures Less(a, b) {
      if a !in done {
        var m :| 0 <= m < i && page[m] == a;
        if b in Elems(page) {
          var n :| 0 <= n < |page| && page[n] == b;
          assert forall x | 0 <= x < i :: page[x] in Elems(page[..i]);
        }
      }
    }
  }

  /** The rename tests: a source object's content ends up at the target key,
      and replaces whatever was there. */
  lemma RenameReplacesTarget(o: map<ObjectId, Bytes>, srcBucket: string, src: string, tgtBucket: string, tgt: string)
    requires Separated(srcBucket, src, tgtBucket, tgt)
    requires ObjectId(srcBucket, src) in o
    ensures var m := Moved(o, srcBucket, src, tgtBucket, tgt, KeysIn(o, srcBucket, src));
      ObjectId(srcBucket, src) !in m && ObjectId(tgtBucket, tgt) in m &&
      m[ObjectId(tgtBucket, tgt)] == o[ObjectId(srcBucket, src)]
  {
    MovedMeaning(o, srcBucket, src, tgtBucket, tgt, KeysIn(o, srcBucket, src));
    assert TargetKey(src, src, tgt) == tgt;
  }

  /** Renaming a plain object moves every key that extends its name too:
      renaming `a` to `c` also turns `ab` into `cb`, since the listing asks
      for every key starting with `a`. */
  lemma RenameMovesExtensions(o: map<ObjectId, Bytes>, bucket: string, src: string, tgt: string, suffix: string)
    requires Separated(bucket, src, bucket, tgt)
    requires ObjectId(bucket, src) in o && ObjectId(bucket, src + suffix) in o
    ensures var m := Moved(o, bucket, src, bucket, tgt, KeysIn(o, bucket, src));
      ObjectId(bucket, src + suffix) !in m && ObjectId(bucket, tgt + suffix) in m &&
      m[ObjectId(bucket, tgt + suffix)] == o[ObjectId(bucket, src + suffix)]
  {
    MovedMeaning(o, bucket, src, bucket, tgt, KeysIn(o, bucket, src));
    assert TargetKey(src + suffix, src, tgt) == tgt + suffix by {
      assert (src + suffix)[|src|..] == suffix;
    }
  }
}
