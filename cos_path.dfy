/** Parsing of `cos://bucket/key` paths into a bucket and an object key. */
module CosPath {
  import opened Outcomes
  import opened Keys

  /** The three parts of a URI: scheme, host (the bucket) and path. */
  datatype Uri = Uri(scheme: string, host: string, path: string)

  /** A parsed object path. */
  datatype ObjectPath = ObjectPath(bucket: string, key: string)

  /** The index of the first "://" at or after position i. */
  function SchemeEnd(u: string, i: nat): (r: Option<nat>)
    ensures r.Some? ==> i <= r.value && r.value + 3 <= |u| && u[r.value..r.value + 3] == "://"
    decreases |u| - i
  {
    if i + 3 > |u| then None
    else if u[i..i + 3] == "://" then Some(i)
    else SchemeEnd(u, i + 1)
  }

  /** Splits a URI: the scheme is what precedes the first "://", the host runs
      up to the next '/', and the path is the rest, its leading '/' included.
      Without a "://" the whole text is the path. */
  function ParseUri(u: string): (r: Uri)
  {
    match SchemeEnd(u, 0)
    case None => Uri("", "", u)
    case Some(i) =>
      var rest := u[i + 3..];
      match IndexOf(rest, '/')
      case None => Uri(u[..i], rest, "")
      case Some(j) => Uri(u[..i], rest[..j], rest[j..])
  }

  /** Removes one leading '/', if there is one. */
  function ConsumeSlash(s: string): (r: string)
  {
    if |s| > 0 && s[0] == '/' then s[1..] else s
  }

  /** Whether a string can be the bucket of a well-formed path. */
  predicate ValidBucket(b: string) {
    b != "" && b != "." && '/' !in b
  }

  /** Splits `cos://bucket/key`; the key may be empty only when emptyObjectOk. */
  function ParseCosPath(fname: string, emptyObjectOk: bool): (r: Result<ObjectPath>)
    ensures r.Failure? ==> r.status == InvalidArgument
    ensures r.Success? ==> ValidBucket(r.value.bucket)
    ensures r.Success? && !emptyObjectOk ==> r.value.key != ""
  {
    var uri := ParseUri(fname);
    if uri.scheme != "cos" then Failure(InvalidArgument)
    else if uri.host == "" || uri.host == "." then Failure(InvalidArgument)
    else
      var key := ConsumeSlash(uri.path);
      if !emptyObjectOk && key == "" then Failure(InvalidArgument)
      else
        HostHasNoSlash(fname);
        Success(ObjectPath(uri.host, key))
  }

  lemma HostHasNoSlash(u: string)
    ensures '/' !in ParseUri(u).host
  {
    match SchemeEnd(u, 0)
    case None =>
    case Some(i) =>
      var rest := u[i + 3..];
      match IndexOf(rest, '/')
      case None =>
      case Some(j) => assert rest[..j] == ParseUri(u).host;
  }

  /** The canonical text of an object path. */
  function CosUri(bucket: string, key: string): string {
    "cos://" + bucket + "/" + key
  }

  lemma SchemeEndOfCos(rest: string)
    ensures SchemeEnd("cos://" + rest, 0) == Some(3)
  {
    var u := "cos://" + rest;
    assert u[3..6] == "://";
    assert SchemeEnd(u, 3) == Some(3);
    assert u[2..5][0] == 's' && u[1..4][0] == 'o' && u[0..3][0] == 'c';
    assert SchemeEnd(u, 2) == Some(3);
    assert SchemeEnd(u, 1) == Some(3);
  }

  lemma IndexOfAt(s: string, c: char, i: nat)
    requires i < |s| && s[i] == c && c !in s[..i]
    ensures IndexOf(s, c) == Some(i)
  {
  }

  lemma ParseUriOfCos(bucket: string, path: string)
    requires '/' !in bucket && (path == "" || path[0] == '/')
    ensures ParseUri("cos://" + bucket + path) == Uri("cos", bucket, path)
  {
    var u := "cos://" + bucket + path;
    var rest := bucket + path;
    assert u == "cos://" + rest;
    SchemeEndOfCos(rest);
    assert u[3 + 3..] == rest;
    assert u[..3] == "cos";
    if path == "" {
      assert rest == bucket;
    } else {
      assert rest[..|bucket|] == bucket;
      IndexOfAt(rest, '/', |bucket|);
      assert rest[|bucket|..] == path;
    }
  }

  /** Parsing the canonical text of a well-formed path gives the path back. */
  lemma ParseCosUri(bucket: string, key: string, emptyObjectOk: bool)
    requires ValidBucket(bucket)
    requires emptyObjectOk || key != ""
    ensures ParseCosPath(CosUri(bucket, key), emptyObjectOk) == Success(ObjectPath(bucket, key))
  {
    assert CosUri(bucket, key) == "cos://" + bucket + ("/" + key);
    ParseUriOfCos(bucket, "/" + key);
    assert ConsumeSlash("/" + key) == key;
  }

  /** A URI with a scheme is its scheme, "://", and what follows, cut
      anywhere into host and path. */
  lemma Join3(u: string, i: nat, j: nat)
    requires i + 3 <= |u| && u[i..i + 3] == "://" && j <= |u| - (i + 3)
    ensures u == u[..i] + "://" + u[i + 3..][..j] + u[i + 3..][j..]
  {
    var rest := u[i + 3..];
    assert rest == rest[..j] + rest[j..];
    assert u == u[..i] + u[i..i + 3] + u[i + 3..];
  }

  lemma ParseUriJoins(u: string)
    requires SchemeEnd(u, 0).Some?
    ensures var r := ParseUri(u); u == r.scheme + "://" + r.host + r.path
    ensures var r := ParseUri(u); r.path == "" || r.path[0] == '/'
  {
    var i := SchemeEnd(u, 0).value;
    var rest := u[i + 3..];
    var r := ParseUri(u);
    match IndexOf(rest, '/')
    case None =>
      assert r == Uri(u[..i], rest, "");
      assert u == r.scheme + "://" + r.host + r.path by {
        Join3(u, i, |rest|);
        assert rest[..|rest|] == rest;
      }
    case Some(j) =>
      assert r == Uri(u[..i], rest[..j], rest[j..]);
      assert u == r.scheme + "://" + r.host + r.path by {
        Join3(u, i, j);
      }
  }

  /** Every path that parses is the canonical text of its result, or, for the
      bucket root, the bare `cos://bucket`. */
  lemma ParsedPathIsCanonical(fname: string, emptyObjectOk: bool)
    requires ParseCosPath(fname, emptyObjectOk).Success?
    ensures var p := ParseCosPath(fname, emptyObjectOk).value;
      fname == CosUri(p.bucket, p.key) || (p.key == "" && fname == "cos://" + p.bucket)
  {
    var uri := ParseUri(fname);
    var key := ConsumeSlash(uri.path);
    assert ParseCosPath(fname, emptyObjectOk).value == ObjectPath(uri.host, key);
    assert SchemeEnd(fname, 0).Some?;
    ParseUriJoins(fname);
    JoinCanonical(fname, uri.host, uri.path);
  }

  lemma JoinCanonical(fname: string, host: string, path: string)
    requires fname == "cos" + "://" + host + path
    requires path == "" || path[0] == '/'
    ensures fname == CosUri(host, ConsumeSlash(path)) || (ConsumeSlash(path) == "" && fname == "cos://" + host)
  {
    if path != "" {
      assert path == "/" + path[1..];
    }
  }

  /** Appending '/' to the text of a path with a non-empty key appends it to
      the key: what CreateDir and DeleteDir rely on when they append '/' to
      the path they were given. */
  lemma ParseWithSlash(fname: string, emptyObjectOk: bool)
    requires ParseCosPath(fname, emptyObjectOk).Success?
    requires ParseCosPath(fname, emptyObjectOk).value.key != ""
    ensures var p := ParseCosPath(fname, emptyObjectOk).value;
      ParseCosPath(WithSlash(fname), false) == Success(ObjectPath(p.bucket, WithSlash(p.key)))
  {
    var p := ParseCosPath(fname, emptyObjectOk).value;
    ParsedPathIsCanonical(fname, emptyObjectOk);
    UriWithSlash(p.bucket, p.key);
    ParseCosUri(p.bucket, WithSlash(p.key), false);
  }

  /** Appending '/' to the text of a path with a non-empty key is appending
      it to the key. */
  lemma UriWithSlash(bucket: string, key: string)
    requires key != ""
    ensures WithSlash(CosUri(bucket, key)) == CosUri(bucket, WithSlash(key))
  {
    var u := CosUri(bucket, key);
    assert u[|u| - 1] == key[|key| - 1];
    assert u + "/" == "cos://" + bucket + "/" + (key + "/");
  }
}
