/**
 * Same-origin URLs in parsed form, and the `URLSearchParams` operations the proxy uses.
 *
 * A query value is plain text or, for values that are themselves same-origin URLs (the `redirect`
 * parameter of the silent-refresh route), the parsed URL. A value written as `Text` is one that
 * does not parse as a same-origin URL.
 */
module Urls {
  import opened Strings

  datatype Param = Param(key: string, value: Value)
  datatype Target = Target(path: string, query: seq<Param>)

  datatype Value = Text(text: string) | Link(to: Target)

  /** Position of the first parameter named `key`, or the length when there is none. */
  function Position(query: seq<Param>, key: string): (k: nat)
    ensures k <= |query|
    ensures k < |query| ==> query[k].key == key
    ensures forall i :: 0 <= i < k ==> query[i].key != key
  {
    if query == [] || query[0].key == key then 0 else 1 + Position(query[1..], key)
  }

  predicate Has(query: seq<Param>, key: string) {
    Position(query, key) < |query|
  }

  function Get(query: seq<Param>, key: string): Option<Value> {
    if Has(query, key) then Some(query[Position(query, key)].value) else None
  }

  function Delete(query: seq<Param>, key: string): seq<Param> {
    if query == [] then []
    else if query[0].key == key then Delete(query[1..], key)
    else [query[0]] + Delete(query[1..], key)
  }

  /** Replaces the first occurrence and drops the others, or appends. */
  function Set(query: seq<Param>, key: string, value: Value): seq<Param> {
    if query == [] then [Param(key, value)]
    else if query[0].key == key then [Param(key, value)] + Delete(query[1..], key)
    else [query[0]] + Set(query[1..], key, value)
  }

  lemma GetBehind(head: Param, rest: seq<Param>, key: string)
    ensures Get([head] + rest, key) == if head.key == key then Some(head.value) else Get(rest, key)
  {
    assert ([head] + rest)[1..] == rest;
  }

  lemma NothingToGet(key: string)
    ensures Get([], key) == None
  {
  }

  lemma {:induction false} GetAfterDelete(query: seq<Param>, key: string, other: string)
    ensures Get(Delete(query, key), other) == if other == key then None else Get(query, other)
  {
    hide Get;
    if query == [] {
      NothingToGet(other);
    } else {
      GetAfterDelete(query[1..], key, other);
      GetBehind(query[0], query[1..], other);
      GetBehind(query[0], Delete(query[1..], key), other);
      assert [query[0]] + query[1..] == query;
    }
  }

  lemma {:induction false} GetAfterSet(query: seq<Param>, key: string, value: Value, other: string)
    ensures Get(Set(query, key, value), other) == if other == key then Some(value) else Get(query, other)
  {
    hide Get, Delete;
    if query == [] {
      NothingToGet(other);
      GetBehind(Param(key, value), [], other);
      assert [Param(key, value)] + [] == [Param(key, value)];
    } else {
      GetBehind(query[0], query[1..], other);
      assert [query[0]] + query[1..] == query;
      if query[0].key == key {
        GetAfterDelete(query[1..], key, other);
        GetBehind(Param(key, value), Delete(query[1..], key), other);
      } else {
        GetAfterSet(query[1..], key, value, other);
        GetBehind(query[0], Set(query[1..], key, value), other);
      }
    }
  }

  lemma {:induction false} DeleteIdempotent(query: seq<Param>, key: string)
    ensures Delete(Delete(query, key), key) == Delete(query, key)
  {
    if query != [] {
      DeleteIdempotent(query[1..], key);
      var rest := Delete(query[1..], key);
      if query[0].key != key {
        assert ([query[0]] + rest)[1..] == rest;
      }
    }
  }

  lemma {:induction false} SetIdempotent(query: seq<Param>, key: string, value: Value)
    ensures Set(Set(query, key, value), key, value) == Set(query, key, value)
  {
    if query == [] {
      assert [Param(key, value)][1..] == [];
    } else if query[0].key == key {
      var rest := Delete(query[1..], key);
      DeleteIdempotent(query[1..], key);
      assert ([Param(key, value)] + rest)[1..] == rest;
    } else {
      SetIdempotent(query[1..], key, value);
      var rest := Set(query[1..], key, value);
      assert ([query[0]] + rest)[1..] == rest;
    }
  }

  /** Deleting looks at one parameter at a time: the named ones go, the others stay in order. */
  lemma {:induction false} DeletedParamByParam(before: seq<Param>, p: Param, after: seq<Param>, key: string)
    ensures Delete(before + [p] + after, key) ==
      Delete(before, key) + (if p.key == key then [] else [p]) + Delete(after, key)
  {
    var query := before + [p] + after;
    if before == [] {
      assert query[1..] == after;
    } else {
      assert query[1..] == before[1..] + [p] + after;
      DeletedParamByParam(before[1..], p, after, key);
    }
  }

  /** Sets `key` on the target's query, replacing any value it already has. */
  function WithQueryParam(t: Target, key: string, value: string): Target {
    Target(t.path, Set(t.query, key, Text(value)))
  }

  predicate IsControl(c: char) {
    c <= '\U{001F}' || c == '\U{007F}'
  }

  /** `isSafeSameOriginPath`: one leading slash, no backslash and no control character. */
  predicate IsSafePath(path: string) {
    && StartsWith(path, "/")
    && !StartsWith(path, "//")
    && forall i :: 0 <= i < |path| ==> path[i] != '\\' && !IsControl(path[i])
  }

  /** The last check every redirect passes before its `Location` is written. */
  function ToSameOriginPath(t: Target): Target {
    if !StartsWith(t.path, "/") then Target("/", [])
    else if StartsWith(t.path, "//") || StartsWith(t.path, "/\\") then Target("/", [])
    else if exists i :: 0 <= i < |t.path| && IsControl(t.path[i]) then Target("/", [])
    else t
  }

  lemma SafePathIsKept(t: Target)
    requires IsSafePath(t.path)
    ensures ToSameOriginPath(t) == t
  {
    if |t.path| >= 2 {
      assert t.path[1] != '\\';
    }
  }

  function DropSlashes(s: string): (t: string)
    ensures |t| <= |s|
  {
    if s != [] && s[0] == '/' then DropSlashes(s[1..]) else s
  }

  /**
   * `normalizePath` on a pathname that a URL parser already produced: dot segments are gone, so
   * only a leading `//` is still re-read, as the start of an authority. `hostParses` answers
   * whether the URL parser accepts that authority; when it does not, the code falls back to `/`.
   */
  function NormalizePath(pathname: string, hostParses: string -> bool): (p: string)
    ensures StartsWith(p, "/")
  {
    if !StartsWith(pathname, "/") then "/" + pathname
    else if !StartsWith(pathname, "//") then pathname
    else
      var rest := DropSlashes(pathname);
      var end := IndexOf(rest, '/');
      if !hostParses(rest[..end]) || end == |rest| then "/" else rest[end..]
  }

  /** Paths that the safe-path check accepts are already in normal form. */
  lemma SafePathIsNormal(path: string, hostParses: string -> bool)
    requires IsSafePath(path)
    ensures NormalizePath(path, hostParses) == path
  {
  }

  lemma {:induction false} DropsAllSlashes(slashes: string, rest: string)
    requires forall i :: 0 <= i < |slashes| ==> slashes[i] == '/'
    requires rest == "" || rest[0] != '/'
    ensures DropSlashes(slashes + rest) == rest
  {
    if slashes == "" {
      assert slashes + rest == rest;
    } else {
      assert (slashes + rest)[1..] == slashes[1..] + rest;
      DropsAllSlashes(slashes[1..], rest);
    }
  }

  lemma HostEndsAtSlash(host: string, tail: string)
    requires '/' !in host && (tail == "" || tail[0] == '/')
    ensures IndexOf(host + tail, '/') == |host|
  {
    var s := host + tail;
    if tail == "" {
      assert s == host;
    } else {
      assert s == host + ['/'] + tail[1..];
      IndexOfAt(host, '/', tail[1..]);
    }
  }

  /**
   * Two or more leading slashes start an authority: it is dropped with them, and what is left is
   * the path behind it. Nothing behind it, or an authority that does not parse, leaves the root.
   */
  lemma AuthorityIsDropped(slashes: string, host: string, tail: string, hostParses: string -> bool)
    requires |slashes| >= 2 && forall i :: 0 <= i < |slashes| ==> slashes[i] == '/'
    requires '/' !in host && (tail == "" || (tail[0] == '/' && host != ""))
    ensures NormalizePath(slashes + (host + tail), hostParses) ==
      if hostParses(host) && tail != "" then tail else "/"
  {
    var path := slashes + (host + tail);
    assert path[0] == '/' && path[1] == '/';
    assert "//" <= path && "/" <= path;
    assert host != "" ==> (host + tail)[0] == host[0];
    DropsAllSlashes(slashes, host + tail);
    HostEndsAtSlash(host, tail);
    assert (host + tail)[..|host|] == host && (host + tail)[|host|..] == tail;
  }

  predicate HasNoControl(path: string) {
    forall i :: 0 <= i < |path| ==> 32 <= path[i] as int != 127
  }

  lemma ControlsByNumber(path: string)
    ensures HasNoControl(path) <==> forall i :: 0 <= i < |path| ==> !IsControl(path[i])
  {
  }

  /** What a path on the own origin looks like: one slash in front, and no control character. */
  lemma SafePathIff(path: string)
    ensures IsSafePath(path) <==>
      && path != "" && path[0] == '/' && (|path| == 1 || path[1] != '/')
      && '\\' !in path && HasNoControl(path)
  {
    hide IsControl, HasNoControl;
    assert "/" <= path <==> path != "" && path[0] == '/';
    assert "//" <= path <==> |path| > 1 && path[0] == '/' && path[1] == '/';
    ControlsByNumber(path);
  }

  /** The last check sends everything home that a browser could read as another origin. */
  lemma OffOriginGoesHome(t: Target)
    ensures ToSameOriginPath(t) ==
      if t.path != "" && t.path[0] == '/' && (|t.path| == 1 || (t.path[1] != '/' && t.path[1] != '\\'))
         && HasNoControl(t.path)
      then t else Target("/", [])
  {
    hide IsControl, HasNoControl;
    assert "/" <= t.path <==> t.path != "" && t.path[0] == '/';
    assert "//" <= t.path <==> |t.path| > 1 && t.path[0] == '/' && t.path[1] == '/';
    assert "/\\" <= t.path <==> |t.path| > 1 && t.path[0] == '/' && t.path[1] == '\\';
    ControlsByNumber(t.path);
  }
}
