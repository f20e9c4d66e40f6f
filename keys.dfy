/** Object keys: their order and the prefix arithmetic that turns a flat
    key space into a directory tree.

    Object keys are compared character by character (code point order; for
    keys stored as UTF-8 this is also the byte order the store sorts by). */
module Keys {
  import opened Outcomes

  /** Strict lexicographic order on keys. */
  predicate Less(a: string, b: string)
    decreases |a|
  {
    if |a| == 0 then |b| > 0
    else |b| > 0 && (a[0] < b[0] || (a[0] == b[0] && Less(a[1..], b[1..])))
  }

  lemma {:induction false} LessIrreflexive(a: string)
    ensures !Less(a, a)
  {
    if |a| > 0 {
      LessIrreflexive(a[1..]);
    }
  }

  lemma {:induction false} LessTransitive(a: string, b: string, c: string)
    requires Less(a, b) && Less(b, c)
    ensures Less(a, c)
    decreases |a|
  {
    if |a| > 0 && a[0] == b[0] && b[0] == c[0] {
      LessTransitive(a[1..], b[1..], c[1..]);
    }
  }

  lemma {:induction false} LessTotal(a: string, b: string)
    requires a != b
    ensures Less(a, b) || Less(b, a)
    decreases |a|
  {
    if |a| > 0 && |b| > 0 && a[0] == b[0] {
      assert a == [a[0]] + a[1..] && b == [b[0]] + b[1..];
      LessTotal(a[1..], b[1..]);
    }
  }

  lemma LessAsymmetric(a: string, b: string)
    requires Less(a, b)
    ensures !Less(b, a)
  {
    if Less(b, a) {
      LessTransitive(a, b, a);
      LessIrreflexive(a);
    }
  }

  lemma AllLessAsymmetric()
    ensures forall a: string, b: string :: Less(a, b) ==> !Less(b, a)
  {
    forall a: string, b: string | Less(a, b) ensures !Less(b, a) {
      LessAsymmetric(a, b);
    }
  }

  /** A proper prefix sorts before every key that extends it. */
  lemma {:induction false} PrefixLess(p: string, s: string)
    requires p <= s && p != s
    ensures Less(p, s)
    decreases |p|
  {
    if |p| > 0 {
      assert p[1..] <= s[1..];
      PrefixLess(p[1..], s[1..]);
    }
  }

  /** The cursor semantics of a listing marker: the empty marker admits every
      key, any other marker admits exactly the keys that sort after it. */
  predicate After(marker: string, key: string) {
    marker == "" || Less(marker, key)
  }

  lemma AfterTransitive(marker: string, a: string, b: string)
    requires After(marker, a) && Less(a, b)
    ensures After(marker, b)
  {
    if marker != "" {
      LessTransitive(marker, a, b);
    }
  }

  /** m is the smallest key of s. */
  predicate IsMin(m: string, s: set<string>) {
    m in s && forall x | x in s && x != m :: Less(m, x)
  }

  lemma {:induction false} MinExists(s: set<string>)
    requires s != {}
    ensures exists m :: IsMin(m, s)
    decreases |s|
  {
    var y :| y in s;
    if s == {y} {
      assert IsMin(y, s);
    } else {
      var rest := s - {y};
      MinExists(rest);
      var m :| IsMin(m, rest);
      if Less(y, m) {
        forall x | x in s && x != y ensures Less(y, x) {
          if x != m {
            LessTransitive(y, m, x);
          }
        }
        assert IsMin(y, s);
      } else {
        LessTotal(y, m);
        assert IsMin(m, s);
      }
    }
  }

  /** The smallest key of a non-empty set. */
  function MinKey(s: set<string>): (m: string)
    requires s != {}
    ensures m in s
    ensures forall x | x in s && x != m :: Less(m, x)
  {
    MinExists(s);
    AllLessAsymmetric();
    var m :| IsMin(m, s);
    m
  }

  predicate Increasing(r: seq<string>) {
    forall i, j | 0 <= i < j < |r| :: Less(r[i], r[j])
  }

  /** The keys of a finite set in listing order. */
  function SortedKeys(s: set<string>): (r: seq<string>)
    ensures |r| == |s|
    ensures forall x :: x in r <==> x in s
    ensures Increasing(r)
    decreases |s|
  {
    if s == {} then []
    else
      var m := MinKey(s);
      var rest := SortedKeys(s - {m});
      forall j | 0 <= j < |rest| ensures Less(m, rest[j]) {
        assert rest[j] in rest;
      }
      [m] + rest
  }

  /** In an increasing sequence, the elements before index n are exactly those
      that sort at or below element n - 1. */
  lemma IncreasingSplit(r: seq<string>, n: nat, x: string)
    requires Increasing(r) && 0 < n <= |r| && x in r
    ensures x in r[..n] <==> !Less(r[n - 1], x)
  {
    var j :| 0 <= j < |r| && r[j] == x;
    if j < n {
      assert x in r[..n];
      if j < n - 1 {
        LessAsymmetric(r[j], r[n - 1]);
      } else {
        LessIrreflexive(x);
      }
    } else {
      assert Less(r[n - 1], x);
      if x in r[..n] {
        var i :| 0 <= i < n && r[i] == x;
        assert Less(r[i], r[j]);
        LessIrreflexive(x);
      }
    }
  }

  function Filter(s: seq<string>, f: string -> bool): (r: seq<string>)
    ensures forall x :: x in r <==> x in s && f(x)
  {
    if s == [] then [] else (if f(s[0]) then [s[0]] else []) + Filter(s[1..], f)
  }

  /** The elements of a sequence, as a set. */
  function Elems(s: seq<string>): set<string>
  {
    set x | x in s
  }

  lemma ElemsOfSorted(s: set<string>)
    ensures Elems(SortedKeys(s)) == s
  {
    var r := SortedKeys(s);
    forall x ensures x in Elems(r) <==> x in s {
    }
  }

  lemma ElemsAppend(s: seq<string>, t: seq<string>)
    ensures Elems(s + t) == Elems(s) + Elems(t)
  {
  }

  lemma {:induction false} FilterAll(s: seq<string>, f: string -> bool)
    requires forall x | x in s :: f(x)
    ensures Filter(s, f) == s
  {
    if s != [] {
      FilterAll(s[1..], f);
    }
  }

  lemma {:induction false} FilterNone(s: seq<string>, f: string -> bool)
    requires forall x | x in s :: !f(x)
    ensures Filter(s, f) == []
  {
    if s != [] {
      FilterNone(s[1..], f);
    }
  }

  /** In a sorted listing, everything among its first n entries sorts before
      everything after them. */
  lemma PrefixBelow(r: seq<string>, n: nat)
    requires Increasing(r) && n <= |r|
    ensures Increasing(r[..n])
    ensures forall a, b | a in r[..n] && b in r && b !in r[..n] :: Less(a, b)
  {
    forall a, b | a in r[..n] && b in r && b !in r[..n] ensures Less(a, b) {
      var i :| 0 <= i < n && r[i] == a;
      var j :| 0 <= j < |r| && r[j] == b;
      assert forall m | 0 <= m < n :: r[m] in r[..n];
    }
  }

  /** The index of the first occurrence of c in s. */
  function IndexOf(s: string, c: char): (r: Option<nat>)
    ensures r.None? <==> c !in s
    ensures r.Some? ==> r.value < |s| && s[r.value] == c && c !in s[..r.value]
  {
    if s == [] then None
    else if s[0] == c then Some(0)
    else match IndexOf(s[1..], c)
      case None => None
      case Some(i) => assert s[1..][..i] == s[1..i + 1]; Some(i + 1)
  }

  /** A key that names a directory: its last character is '/'. */
  predicate EndsInSlash(s: string)
  {
    |s| > 0 && s[|s| - 1] == '/'
  }

  /** A key with a trailing '/' added unless it already has one. */
  function WithSlash(s: string): (r: string)
  {
    if EndsInSlash(s) then s else s + "/"
  }

  lemma WithSlashEndsInSlash(s: string)
    ensures |WithSlash(s)| > 0 && WithSlash(s)[|WithSlash(s)| - 1] == '/'
    ensures s <= WithSlash(s)
  {
  }

  /** The first path segment of a relative name: everything before its first '/'. */
  function FirstSegment(s: string): (r: string)
    ensures r <= s && '/' !in r
    ensures r == s <==> '/' !in s
  {
    match IndexOf(s, '/')
    case None => s
    case Some(i) => s[..i]
  }

  /** What a listing reports for a key under a prefix: with a delimiter, the
      key cut just after the first delimiter that follows the prefix (a
      common prefix); otherwise the key itself. */
  function EntryOf(key: string, prefix: string, delimiter: Option<char>): (e: string)
    requires prefix <= key
    ensures prefix <= e && e <= key
  {
    match delimiter
    case None => key
    case Some(c) =>
      match IndexOf(key[|prefix|..], c)
      case None => key
      case Some(i) =>
        assert key[..|prefix| + i + 1][..|prefix|] == prefix;
        key[..|prefix| + i + 1]
  }

  /** Whether a listing entry is a common prefix rather than an object key. */
  predicate IsCommonPrefix(e: string, prefix: string, delimiter: Option<char>)
  {
    delimiter.Some? && prefix <= e && delimiter.value in e[|prefix|..]
  }

  lemma EntryOfShape(key: string, prefix: string, delimiter: Option<char>)
    requires prefix <= key
    ensures var e := EntryOf(key, prefix, delimiter);
      (IsCommonPrefix(e, prefix, delimiter) ==> |e| > |prefix| && e[|e| - 1] == delimiter.value) &&
      (!IsCommonPrefix(e, prefix, delimiter) ==> e == key)
  {
    var e := EntryOf(key, prefix, delimiter);
    if delimiter.Some? {
      var c := delimiter.value;
      match IndexOf(key[|prefix|..], c)
      case None =>
      case Some(i) =>
        assert e[|prefix|..] == key[|prefix|..][..i + 1];
        assert e[|prefix|..][i] == c;
    }
  }

  /** The child name a directory listing makes of an entry: a common prefix
      loses the query prefix and its trailing delimiter, an object key loses
      the query prefix. */
  function EntryChild(e: string, prefix: string, delimiter: Option<char>): string
    requires prefix <= e
  {
    var rest := e[|prefix|..];
    if IsCommonPrefix(e, prefix, delimiter) && |rest| > 0 then rest[..|rest| - 1] else rest
  }

  /** Under the delimiter '/', the child a key contributes is the first path
      segment of what follows the prefix. */
  lemma EntryChildIsFirstSegment(key: string, prefix: string)
    requires prefix <= key
    ensures prefix <= EntryOf(key, prefix, Some('/'))
    ensures EntryChild(EntryOf(key, prefix, Some('/')), prefix, Some('/')) == FirstSegment(key[|prefix|..])
  {
    var rest := key[|prefix|..];
    var e := EntryOf(key, prefix, Some('/'));
    match IndexOf(rest, '/')
    case None =>
      assert e == key;
    case Some(i) =>
      assert e[|prefix|..] == rest[..i + 1];
      assert rest[..i + 1][i] == '/';
      assert IsCommonPrefix(e, prefix, Some('/'));
      assert rest[..i + 1][..i] == rest[..i];
  }
}
