/** `Set-Cookie` parsing (the parts that decide identity) and last-writer-wins deduplication. */
module SetCookie {
  import opened Strings
  import LastWriter

  const MAX_SET_COOKIE_LENGTH := 8192

  predicate HasLineBreak(raw: string) {
    exists i :: 0 <= i < |raw| && (raw[i] == '\n' || raw[i] == '\r')
  }

  method ContainsHeaderSmugglingBytes(raw: string) returns (found: bool)
    ensures found <==> HasLineBreak(raw)
  {
    for i := 0 to |raw|
      invariant forall j :: 0 <= j < i ==> raw[j] != '\n' && raw[j] != '\r'
    {
      if raw[i] == '\n' || raw[i] == '\r' {
        return true;
      }
    }
    return false;
  }

  function AttributeName(attribute: string): string {
    AsciiLower(Trim(attribute[..IndexOf(attribute, '=')]))
  }

  function AttributeValue(attribute: string): string {
    var k := IndexOf(attribute, '=');
    if k == |attribute| then "" else Trim(attribute[k + 1..])
  }

  function TrimAll(pieces: seq<string>): (trimmed: seq<string>)
    ensures |trimmed| == |pieces|
  {
    seq(|pieces|, i requires 0 <= i < |pieces| => Trim(pieces[i]))
  }

  function CookieSegments(raw: string): (segments: seq<string>)
    ensures |segments| >= 1
  {
    TrimAll(Split(raw, ';'))
  }

  function CookieName(raw: string): string {
    var pair := CookieSegments(raw)[0];
    var k := IndexOf(pair, '=');
    if k == |pair| then "" else Trim(pair[..k])
  }

  /** The value of the last attribute with this name. */
  function LastAttribute(attributes: seq<string>, name: string): Option<string> {
    if attributes == [] then None
    else
      var last := attributes[|attributes| - 1];
      if AttributeName(last) == name then Some(AttributeValue(last))
      else LastAttribute(attributes[..|attributes| - 1], name)
  }

  function Lowered(value: Option<string>): Option<string> {
    if value.None? then None else Some(AsciiLower(value.value))
  }

  /** The attribute loop, for the two attributes that decide a cookie's identity. */
  method ParseCookieAttributes(attributes: seq<string>)
    returns (domain: Option<string>, path: Option<string>)
    ensures domain == Lowered(LastAttribute(attributes, "domain"))
    ensures path == LastAttribute(attributes, "path")
  {
    domain, path := None, None;
    for i := 0 to |attributes|
      invariant domain == Lowered(LastAttribute(attributes[..i], "domain"))
      invariant path == LastAttribute(attributes[..i], "path")
    {
      var attribute := attributes[i];
      assert attributes[..i + 1][..i] == attributes[..i];
      if |attribute| == 0 {
        assert AttributeName(attribute) == "";
        continue;
      }
      var name := AttributeName(attribute);
      if name == "path" {
        path := Some(AttributeValue(attribute));
      } else if name == "domain" {
        domain := Some(AsciiLower(AttributeValue(attribute)));
      }
    }
    assert attributes[..|attributes|] == attributes;
  }

  function CookieDomain(raw: string): Option<string> {
    Lowered(LastAttribute(CookieSegments(raw)[1..], "domain"))
  }

  function CookiePath(raw: string): Option<string> {
    LastAttribute(CookieSegments(raw)[1..], "path")
  }

  function BuildDedupKey(name: string, domain: Option<string>): string {
    name + "|" + domain.GetOr("")
  }

  /** The deduplication key, or `None` for an entry that is dropped. */
  function Key(raw: string): Option<string> {
    if HasLineBreak(raw) || |raw| > MAX_SET_COOKIE_LENGTH then None
    else if CookieName(raw) == "" then None
    else Some(BuildDedupKey(CookieName(raw), CookieDomain(raw)))
  }

  /** The cookies no later cookie of the same name and domain overwrites, in their original order. */
  function Dedupe(cookies: seq<string>): seq<string> {
    LastWriter.Dedupe(Key, cookies)
  }

  method DedupeSetCookieHeaders(cookies: seq<string>) returns (winners: seq<string>)
    ensures winners == Dedupe(cookies)
  {
    hide Key, LastWriter.TracksLast, LastWriter.Dedupe, LastWriter.Ascending;
    var lastIndexByKey: map<string, nat> := map[];
    assert LastWriter.TracksLast(Key, lastIndexByKey, cookies, 0) by {
      LastWriter.NothingTracked(Key, cookies);
    }
    for index := 0 to |cookies|
      invariant LastWriter.TracksLast(Key, lastIndexByKey, cookies, index)
    {
      LastWriter.TrackStep(Key, lastIndexByKey, cookies, index);
      var key := Key(cookies[index]);
      if key.None? {
        continue;
      }
      lastIndexByKey := lastIndexByKey[key.value := index];
    }
    var winnerIndexes := LastWriter.Ascending(lastIndexByKey.Values, 0, |cookies|);
    winners := [];
    for i := 0 to |winnerIndexes|
      invariant |winners| == i
      invariant forall j :: 0 <= j < i ==> winners[j] == cookies[winnerIndexes[j]]
    {
      winners := winners + [cookies[winnerIndexes[i]]];
    }
    assert winners == LastWriter.Pick(cookies, winnerIndexes);
    LastWriter.TrackedPickIsDedupe(Key, lastIndexByKey, cookies);
  }

  /** A pair whose name goes on into what the other pair calls its domain. */
  predicate Straddles(name1: string, d1: string, name2: string, d2: string) {
    && |name2| < |name1|
    && name1[..|name2|] == name2
    && name1[|name2|] == '|'
    && d2 == name1[|name2| + 1..] + "|" + d1
  }

  lemma LongerNameStraddles(name1: string, d1: string, name2: string, d2: string)
    requires |name2| < |name1|
    ensures name1 + "|" + d1 == name2 + "|" + d2 <==> Straddles(name1, d1, name2, d2)
  {
    var (k1, k2) := (name1 + "|" + d1, name2 + "|" + d2);
    var n := |name2|;
    assert k2[..n] == name2 && k2[n] == '|' && k2[n + 1..] == d2;
    assert k1[..n] == name1[..n] && k1[n] == name1[n] && k1[n + 1..] == name1[n + 1..] + "|" + d1;
    assert k1 == k1[..n] + [k1[n]] + k1[n + 1..] && k2 == k2[..n] + [k2[n]] + k2[n + 1..];
  }

  /** Exactly which pairs share a key: equal ones, and those that cut the same text at two pipes. */
  lemma KeysAgreeIff(name1: string, domain1: Option<string>, name2: string, domain2: Option<string>)
    ensures var (d1, d2) := (domain1.GetOr(""), domain2.GetOr(""));
      BuildDedupKey(name1, domain1) == BuildDedupKey(name2, domain2) <==>
        || (name1 == name2 && d1 == d2)
        || Straddles(name1, d1, name2, d2)
        || Straddles(name2, d2, name1, d1)
  {
    var (d1, d2) := (domain1.GetOr(""), domain2.GetOr(""));
    if |name1| > |name2| {
      LongerNameStraddles(name1, d1, name2, d2);
    } else if |name1| < |name2| {
      LongerNameStraddles(name2, d2, name1, d1);
    } else {
      var (k1, k2) := (name1 + "|" + d1, name2 + "|" + d2);
      assert name1 == k1[..|name1|] && name2 == k2[..|name1|];
      assert d1 == k1[|name1| + 1..] && d2 == k2[|name1| + 1..];
    }
  }

  lemma PipesAreNeeded(name1: string, d1: string, name2: string, d2: string)
    ensures Straddles(name1, d1, name2, d2) ==> '|' in name1 && '|' in d2
  {
    if Straddles(name1, d1, name2, d2) {
      assert d2[|name1| - |name2| - 1] == '|';
    }
  }

  /**
   * The key stands for the (name, domain) pair among domains without `|`, which no host name
   * holds. Absent and empty domains are one bucket.
   */
  lemma KeyIsTheNameDomainPair(name1: string, domain1: Option<string>, name2: string, domain2: Option<string>)
    requires '|' !in domain1.GetOr("") && '|' !in domain2.GetOr("")
    ensures BuildDedupKey(name1, domain1) == BuildDedupKey(name2, domain2)
      <==> name1 == name2 && domain1.GetOr("") == domain2.GetOr("")
  {
    KeysAgreeIff(name1, domain1, name2, domain2);
    PipesAreNeeded(name1, domain1.GetOr(""), name2, domain2.GetOr(""));
    PipesAreNeeded(name2, domain2.GetOr(""), name1, domain1.GetOr(""));
  }

  /** The key of no other pair: the name and the domain are told apart for good. */
  ghost predicate HasAKeyOfItsOwn(name: string, domain: Option<string>) {
    forall n: string, d: Option<string> :: BuildDedupKey(n, d) == BuildDedupKey(name, domain) ==>
      n == name && d.GetOr("") == domain.GetOr("")
  }

  lemma IndexOfFinds(s: string, c: char)
    requires c in s
    ensures IndexOf(s, c) < |s|
  {
    assert s[..|s|] == s;
  }

  /** A pair shares its key with no other exactly when neither part holds a `|`. */
  lemma OwnKeyIff(name: string, domain: Option<string>)
    ensures HasAKeyOfItsOwn(name, domain) <==> '|' !in name && '|' !in domain.GetOr("")
  {
    var d := domain.GetOr("");
    if '|' in name {
      var k := IndexOf(name, '|');
      IndexOfFinds(name, '|');
      var (n2, d2) := (name[..k], name[k + 1..] + "|" + d);
      assert name == n2 + "|" + name[k + 1..];
      KeysAgreeIff(name, domain, n2, Some(d2));
      assert BuildDedupKey(n2, Some(d2)) == BuildDedupKey(name, domain) && n2 != name;
    } else if '|' in d {
      var k := IndexOf(d, '|');
      IndexOfFinds(d, '|');
      var n2 := name + "|" + d[..k];
      assert n2[..|name|] == name && n2[|name| + 1..] == d[..k];
      assert d == d[..k] + "|" + d[k + 1..];
      KeysAgreeIff(n2, Some(d[k + 1..]), name, domain);
      assert BuildDedupKey(n2, Some(d[k + 1..])) == BuildDedupKey(name, domain) && n2 != name;
    } else {
      forall n: string, o: Option<string> | BuildDedupKey(n, o) == BuildDedupKey(name, domain)
        ensures n == name && o.GetOr("") == d
      {
        KeysAgreeIff(n, o, name, domain);
        PipesAreNeeded(n, o.GetOr(""), name, d);
        PipesAreNeeded(name, d, n, o.GetOr(""));
      }
    }
  }

  /** Cookie identity as a browser sees it: the key refined by the path. */
  function BrowserId(raw: string): Option<(string, Option<string>)> {
    if Key(raw).None? then None else Some((Key(raw).value, CookiePath(raw)))
  }

  predicate OnePathPerKey(cookies: seq<string>) {
    forall i, j :: 0 <= i < |cookies| && 0 <= j < |cookies|
      && Key(cookies[i]).Some? && Key(cookies[i]) == Key(cookies[j])
      ==> CookiePath(cookies[i]) == CookiePath(cookies[j])
  }

  /** A jar that only knows names and domains cannot tell the short list from the whole one. */
  lemma DedupePreservesJar(jar: map<string, string>, cookies: seq<string>)
    ensures LastWriter.Replay(Key, jar, Dedupe(cookies)) == LastWriter.Replay(Key, jar, cookies)
  {
    LastWriter.DedupePreservesReplay(Key, jar, cookies);
  }

  type BrowserJar = map<(string, Option<string>), string>

  lemma OneKeptPerKey(cookies: seq<string>, a: nat, b: nat)
    requires a < |Dedupe(cookies)| && b < |Dedupe(cookies)|
    requires Key(Dedupe(cookies)[a]) == Key(Dedupe(cookies)[b])
    ensures a == b
  {
    hide Key;
    LastWriter.DedupeIsOnePerId(Key, cookies, a);
    LastWriter.DedupeIsOnePerId(Key, cookies, b);
    LastWriter.WinnersDiffer(Key, Dedupe(cookies), a, b);
    LastWriter.WinnersDiffer(Key, Dedupe(cookies), b, a);
  }

  lemma LostPath(cookies: seq<string>, i: nat, j: nat)
    requires i < |cookies| && j < |cookies|
    requires Key(cookies[i]).Some? && Key(cookies[i]) == Key(cookies[j])
    requires CookiePath(cookies[i]) != CookiePath(cookies[j])
    ensures LastWriter.Replay(BrowserId, map[], Dedupe(cookies)) != LastWriter.Replay(BrowserId, map[], cookies)
  {
    hide Key, CookiePath;
    var empty: BrowserJar := map[];
    var kept := Dedupe(cookies);
    var (id1, id2) := (BrowserId(cookies[i]).value, BrowserId(cookies[j]).value);
    assert LastWriter.Occurs(BrowserId, id1, cookies) && LastWriter.Occurs(BrowserId, id2, cookies);
    LastWriter.ReplayedIds(BrowserId, empty, cookies, id1);
    LastWriter.ReplayedIds(BrowserId, empty, cookies, id2);
    LastWriter.ReplayedIds(BrowserId, empty, kept, id1);
    LastWriter.ReplayedIds(BrowserId, empty, kept, id2);
    if LastWriter.Occurs(BrowserId, id1, kept) && LastWriter.Occurs(BrowserId, id2, kept) {
      var a :| 0 <= a < |kept| && BrowserId(kept[a]) == Some(id1);
      var b :| 0 <= b < |kept| && BrowserId(kept[b]) == Some(id2);
      OneKeptPerKey(cookies, a, b);
    }
  }

  /**
   * What the (name, domain) key costs a browser, which also tells paths apart: the short list
   * means the same to every browser jar exactly when no key is written under two paths.
   */
  lemma BrowserJarPreservedIff(cookies: seq<string>)
    ensures (forall jar: BrowserJar ::
        LastWriter.Replay(BrowserId, jar, Dedupe(cookies)) == LastWriter.Replay(BrowserId, jar, cookies))
      <==> OnePathPerKey(cookies)
  {
    hide Key, CookiePath;
    if OnePathPerKey(cookies) {
      LastWriter.GroupAlikeDedupeAlike(Key, BrowserId, cookies);
      forall jar: BrowserJar
        ensures LastWriter.Replay(BrowserId, jar, Dedupe(cookies)) == LastWriter.Replay(BrowserId, jar, cookies)
      {
        LastWriter.DedupePreservesReplay(BrowserId, jar, cookies);
      }
    } else {
      var i, j :| 0 <= i < |cookies| && 0 <= j < |cookies|
        && Key(cookies[i]).Some? && Key(cookies[i]) == Key(cookies[j])
        && CookiePath(cookies[i]) != CookiePath(cookies[j]);
      LostPath(cookies, i, j);
      var empty: BrowserJar := map[];
      assert LastWriter.Replay(BrowserId, empty, Dedupe(cookies)) != LastWriter.Replay(BrowserId, empty, cookies);
    }
  }

  // ---- what the parser reads ----

  /** An attribute as it may be written: white space around the key and around the value. */
  function Written(a: string, key: string, b: string, c: string, value: string, d: string): string {
    (a + key + b) + ['='] + (c + value + d)
  }

  predicate ArePads(a: string, b: string, c: string, d: string) {
    AllSpaces(a) && AllSpaces(b) && AllSpaces(c) && AllSpaces(d)
  }

  lemma {:induction false} AllTrimmed(pad: string)
    requires AllSpaces(pad)
    ensures Trim(pad) == ""
  {
    hide IsSpace;
    if pad != "" {
      AllTrimmed(pad[1..]);
    }
  }

  lemma TrimPads(before: string, s: string, after: string)
    requires AllSpaces(before) && AllSpaces(after) && IsTrimmed(s)
    ensures Trim(before + s + after) == s
  {
    hide IsSpace;
    if s != "" {
      TrimBoth(before, s, after);
    } else {
      assert before + s + after == before + after;
      AllTrimmed(before + after);
    }
  }

  lemma WrittenSplits(a: string, key: string, b: string, c: string, value: string, d: string)
    requires ArePads(a, b, c, d) && '=' !in key
    ensures var s := Written(a, key, b, c, value, d);
      && IndexOf(s, '=') == |a + key + b| < |s|
      && s[..|a + key + b|] == a + key + b && s[|a + key + b| + 1..] == c + value + d
  {
    EqualsIsNoSpace();
    hide IsSpace;
    IndexOfAt(a + key + b, '=', c + value + d);
  }

  /** Attribute names are read in any case and attribute values as they are, both without their padding. */
  lemma AttributeReads(a: string, key: string, b: string, c: string, value: string, d: string)
    requires ArePads(a, b, c, d) && IsTrimmed(key) && IsTrimmed(value) && '=' !in key
    ensures AttributeName(Written(a, key, b, c, value, d)) == AsciiLower(key)
    ensures AttributeValue(Written(a, key, b, c, value, d)) == value
  {
    hide IsSpace, Trim, IndexOf, AsciiLower;
    EqualsIsNoSpace();
    WrittenSplits(a, key, b, c, value, d);
    TrimPads(a, key, b);
    TrimPads(c, value, d);
  }

  /** Without an equals sign an attribute is all name. */
  lemma FlagReads(flag: string)
    requires '=' !in flag
    ensures AttributeName(flag) == AsciiLower(Trim(flag)) && AttributeValue(flag) == ""
  {
    hide Trim, AsciiLower;
    assert IndexOf(flag, '=') == |flag|;
    assert flag[..|flag|] == flag;
  }

  /** A line is cut at its semicolons, and each piece is trimmed. */
  lemma SegmentsOfLine(first: string, rest: string)
    requires ';' !in first
    ensures CookieSegments(first + [';'] + rest) == [Trim(first)] + CookieSegments(rest)
    ensures CookieSegments(first) == [Trim(first)]
  {
    hide Trim, Split;
    SplitFirst(first, ';', rest);
    OnePiece(first, ';');
  }

  lemma SemicolonIsNoSpace()
    ensures !IsSpace(';')
  {
  }

  lemma NoSemicolonIn(a: string, name: string, b: string, value: string)
    requires AllSpaces(a) && AllSpaces(b) && ';' !in name && ';' !in value
    ensures ';' !in a + name + b + "=" + value
  {
    hide IsSpace;
    SemicolonIsNoSpace();
  }

  lemma {:induction false} TrimEndFrom(front: string, tail: string)
    requires tail != "" && !IsSpace(tail[0])
    ensures TrimEnd(front + tail) == front + TrimEnd(tail)
    ensures TrimEnd(tail) != "" && TrimEnd(tail)[0] == tail[0] && IsTrimmed(TrimEnd(tail))
    decreases |tail|
  {
    hide IsSpace;
    var k := |tail| - 1;
    assert (front + tail)[|front| + k] == tail[k];
    if IsSpace(tail[k]) {
      assert (front + tail)[..|front| + k] == front + tail[..k];
      TrimEndFrom(front, tail[..k]);
    }
  }

  lemma NameOfPair(a: string, name: string, b: string, value: string)
    requires AllSpaces(a) && AllSpaces(b) && IsTrimmed(name) && name != "" && '=' !in name
    ensures var pair := Trim(a + name + b + "=" + value);
      var k := IndexOf(pair, '=');
      k < |pair| && Trim(pair[..k]) == name
  {
    EqualsIsNoSpace();
    hide IsSpace;
    var shown := name + b + "=" + value;
    assert a + name + b + "=" + value == a + shown;
    TrimStartPadded(a, shown);
    var tail := "=" + value;
    assert shown == (name + b) + tail;
    TrimEndFrom(name + b, tail);
    var kept := TrimEnd(tail);
    assert kept == ['='] + kept[1..];
    assert TrimEnd(shown) == (name + b) + ['='] + kept[1..];
    IndexOfAt(name + b, '=', kept[1..]);
    assert TrimEnd(shown)[..|name + b|] == name + b == "" + name + b;
    TrimPads("", name, b);
  }

  /** The name is what stands before the first equals sign of the first piece, without its padding. */
  lemma NameReads(a: string, name: string, b: string, value: string, rest: string)
    requires AllSpaces(a) && AllSpaces(b) && IsTrimmed(name) && name != "" && '=' !in name
    requires ';' !in name && ';' !in value
    ensures CookieName(a + name + b + "=" + value + ";" + rest) == name
    ensures CookieName(a + name + b + "=" + value) == name
  {
    hide CookieSegments, Trim, IndexOf, IsSpace;
    var first := a + name + b + "=" + value;
    NoSemicolonIn(a, name, b, value);
    SegmentsOfLine(first, rest);
    assert a + name + b + "=" + value + ";" + rest == first + [';'] + rest;
    NameOfPair(a, name, b, value);
  }

  lemma {:induction false} TrimStartHoldsNoMore(s: string, c: char)
    requires c !in s
    ensures c !in TrimStart(s)
  {
    hide IsSpace;
    if s != "" && IsSpace(s[0]) {
      TrimStartHoldsNoMore(s[1..], c);
    }
  }

  lemma {:induction false} TrimEndHoldsNoMore(s: string, c: char)
    requires c !in s
    ensures c !in TrimEnd(s)
  {
    hide IsSpace;
    if s != "" && IsSpace(s[|s| - 1]) {
      TrimEndHoldsNoMore(s[..|s| - 1], c);
    }
  }

  lemma {:induction false} TrimHoldsNoMore(s: string, c: char)
    requires c !in s
    ensures c !in Trim(s)
  {
    TrimStartHoldsNoMore(s, c);
    TrimEndHoldsNoMore(TrimStart(s), c);
  }

  /** A first piece without an equals sign has no name, and the line is dropped. */
  lemma NamelessIsDropped(first: string, rest: string)
    requires '=' !in first && ';' !in first
    ensures CookieName(first + [';'] + rest) == "" && Key(first + [';'] + rest).None?
    ensures CookieName(first) == "" && Key(first).None?
  {
    hide CookieSegments, Trim, HasLineBreak;
    SegmentsOfLine(first, rest);
    TrimHoldsNoMore(first, '=');
    assert IndexOf(Trim(first), '=') == |Trim(first)|;
  }

  /** The last attribute of a name is the one that is read; those of other names do not matter. */
  lemma LastOfItsName(before: seq<string>, attribute: string, after: seq<string>, name: string)
    requires AttributeName(attribute) == name
    requires forall i :: 0 <= i < |after| ==> AttributeName(after[i]) != name
    ensures LastAttribute(before + [attribute] + after, name) == Some(AttributeValue(attribute))
  {
    hide AttributeName, AttributeValue;
    var all := before + [attribute] + after;
    if after == [] {
      assert all[|all| - 1] == attribute;
    } else {
      var init := after[..|after| - 1];
      assert all[..|all| - 1] == before + [attribute] + init && all[|all| - 1] == after[|after| - 1];
      LastOfItsName(before, attribute, init, name);
    }
  }

  /** The domain is lowered and the path kept as it is. */
  lemma DomainAndPathRead(raw: string)
    ensures var attributes := CookieSegments(raw)[1..];
      && (CookieDomain(raw).None? <==> LastAttribute(attributes, "domain").None?)
      && (CookieDomain(raw).Some? ==> CookieDomain(raw).value == AsciiLower(LastAttribute(attributes, "domain").value))
      && CookiePath(raw) == LastAttribute(attributes, "path")
  {
    hide CookieSegments, LastAttribute, AsciiLower;
  }

  // ---- the same, in terms of names and domains ----

  /** A line the jar could take: no line break, within the size limit, and with a name. */
  predicate IsUsable(raw: string) {
    && (forall i :: 0 <= i < |raw| ==> raw[i] != '\n' && raw[i] != '\r')
    && |raw| <= 8192
    && CookieName(raw) != ""
  }

  type NameAndDomain = (string, string)

  function PairOf(raw: string): Option<NameAndDomain> {
    if IsUsable(raw) then Some((CookieName(raw), CookieDomain(raw).GetOr(""))) else None
  }

  predicate HavePlainDomains(cookies: seq<string>) {
    forall i :: 0 <= i < |cookies| ==> '|' !in CookieDomain(cookies[i]).GetOr("")
  }

  lemma UsableIffKeyed(raw: string)
    ensures IsUsable(raw) <==> Key(raw).Some?
    ensures IsUsable(raw) ==> Key(raw).value == BuildDedupKey(CookieName(raw), CookieDomain(raw))
  {
    hide CookieName, CookieDomain, BuildDedupKey;
  }

  lemma KeysAreThePairs(cookies: seq<string>)
    requires HavePlainDomains(cookies)
    ensures LastWriter.GroupAlike(Key, PairOf, cookies)
  {
    hide Key, IsUsable, CookieName, CookieDomain;
    forall i, j | 0 <= i < |cookies| && 0 <= j < |cookies|
      ensures Key(cookies[i]).None? <==> PairOf(cookies[i]).None?
      ensures Key(cookies[i]) == Key(cookies[j]) <==> PairOf(cookies[i]) == PairOf(cookies[j])
    {
      UsableIffKeyed(cookies[i]);
      UsableIffKeyed(cookies[j]);
      KeyIsTheNameDomainPair(CookieName(cookies[i]), CookieDomain(cookies[i]),
                             CookieName(cookies[j]), CookieDomain(cookies[j]));
    }
  }

  /** A usable cookie that no later usable one of the same name and domain follows. */
  predicate IsKept(cookies: seq<string>, i: nat)
    requires i < |cookies|
  {
    && IsUsable(cookies[i])
    && forall j :: i < j < |cookies| && IsUsable(cookies[j]) ==>
         !(CookieName(cookies[j]) == CookieName(cookies[i])
           && CookieDomain(cookies[j]).GetOr("") == CookieDomain(cookies[i]).GetOr(""))
  }

  lemma KeptAreWinners(cookies: seq<string>, i: nat)
    requires i < |cookies|
    ensures IsKept(cookies, i) <==> LastWriter.IsWinner(PairOf, cookies, i)
  {
    hide IsUsable, CookieName, CookieDomain;
    var rest := cookies[i + 1..];
    assert forall j :: 0 <= j < |rest| ==> rest[j] == cookies[i + 1 + j];
    assert forall j {:trigger cookies[j]} :: i < j < |cookies| ==> cookies[j] == rest[j - i - 1];
  }

  /** An ascending list of exactly the indexes of the kept cookies. */
  ghost predicate AreTheKept(indexes: seq<nat>, cookies: seq<string>) {
    && (forall k :: 0 <= k < |indexes| ==> indexes[k] < |cookies|)
    && (forall k, l :: 0 <= k < l < |indexes| ==> indexes[k] < indexes[l])
    && (forall i :: 0 <= i < |cookies| ==> (i in indexes <==> IsKept(cookies, i)))
  }

  /**
   * What deduplication keeps, where no domain holds a `|`: the usable cookies that no later usable
   * cookie of the same name and domain follows, in their order.
   */
  lemma KeptInOrder(cookies: seq<string>)
    requires HavePlainDomains(cookies)
    ensures exists indexes: seq<nat> ::
      AreTheKept(indexes, cookies) && Dedupe(cookies) == LastWriter.Pick(cookies, indexes)
  {
    hide Key, PairOf, IsKept, HavePlainDomains;
    KeysAreThePairs(cookies);
    LastWriter.GroupAlikeDedupeAlike(Key, PairOf, cookies);
    forall i | 0 <= i < |cookies| ensures IsKept(cookies, i) <==> LastWriter.IsWinner(PairOf, cookies, i) {
      KeptAreWinners(cookies, i);
    }
    var kept := set i: nat | i < |cookies| && IsKept(cookies, i);
    LastWriter.PickedAreDeduped(PairOf, cookies, kept, 0);
    assert cookies[0..] == cookies;
    var indexes := LastWriter.Ascending(kept, 0, |cookies|);
    assert AreTheKept(indexes, cookies);
  }

  /** And a jar of names and domains cannot tell the short list from the whole one. */
  lemma PairJarPreserved(jar: map<NameAndDomain, string>, cookies: seq<string>)
    requires HavePlainDomains(cookies)
    ensures LastWriter.Replay(PairOf, jar, Dedupe(cookies)) == LastWriter.Replay(PairOf, jar, cookies)
  {
    hide Key, PairOf, HavePlainDomains;
    KeysAreThePairs(cookies);
    LastWriter.GroupAlikeDedupeAlike(Key, PairOf, cookies);
    LastWriter.DedupePreservesReplay(PairOf, jar, cookies);
  }
}
