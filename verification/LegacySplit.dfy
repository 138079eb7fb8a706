/** Splitting a comma-joined `Set-Cookie` value back into cookies. */
module LegacySplit {
  import opened Strings
  import opened SetCookie

  const MAX_SET_COOKIE_COUNT := 64

  predicate IsOws(c: char) {
    c == ' ' || c == '\t'
  }

  predicate IsCookieNameChar(c: char) {
    || '0' <= c <= '9'
    || 'A' <= c <= 'Z'
    || 'a' <= c <= 'z'
    || c in "!#$%&'*+-.^_`|~"
  }

  function TokenLength(s: string): (n: nat)
    ensures n <= |s|
  {
    if s != [] && IsCookieNameChar(s[0]) then 1 + TokenLength(s[1..]) else 0
  }

  predicate TokenThenEquals(s: string) {
    var n := TokenLength(s);
    0 < n < |s| && s[n] == '='
  }

  /** Optional white space, then `token=`. */
  predicate StartsCookie(s: string) {
    if s != [] && IsOws(s[0]) then StartsCookie(s[1..]) else TokenThenEquals(s)
  }

  method LooksLikeCookieStart(candidate: string, startIndex: nat) returns (looks: bool)
    requires startIndex <= |candidate|
    ensures looks <==> StartsCookie(candidate[startIndex..])
  {
    var index := startIndex;
    while index < |candidate|
      invariant startIndex <= index <= |candidate|
      invariant StartsCookie(candidate[index..]) == StartsCookie(candidate[startIndex..])
    {
      if candidate[index] != ' ' && candidate[index] != '\t' {
        break;
      }
      assert candidate[index..][1..] == candidate[index + 1..];
      index := index + 1;
    }
    var tokenLength := 0;
    ghost var rest := candidate[index..];
    while index + tokenLength < |candidate| && IsCookieNameChar(candidate[index + tokenLength])
      invariant index + tokenLength <= |candidate|
      invariant TokenLength(rest) == tokenLength + TokenLength(rest[tokenLength..])
    {
      assert rest[tokenLength..][1..] == rest[tokenLength + 1..];
      tokenLength := tokenLength + 1;
    }
    assert TokenLength(rest[tokenLength..]) == 0;
    if tokenLength == 0 {
      return false;
    }
    return index + tokenLength < |candidate| && candidate[index + tokenLength] == '=';
  }

  predicate SplitsAt(s: string, p: nat)
    requires p < |s|
  {
    s[p] == ',' && StartsCookie(s[p + 1..])
  }

  /** The first comma at or after `from` that separates two cookies, or the length. */
  function FirstSplit(s: string, from: nat): (p: nat)
    requires from <= |s|
    ensures from <= p <= |s|
    ensures p < |s| ==> SplitsAt(s, p)
    ensures forall q :: from <= q < p ==> !SplitsAt(s, q)
    decreases |s| - from
  {
    if from == |s| || SplitsAt(s, from) then from else FirstSplit(s, from + 1)
  }

  function Pieces(s: string): (pieces: seq<string>)
    ensures |pieces| >= 1
    decreases |s|
  {
    var p := FirstSplit(s, 0);
    if p == |s| then [Trim(s)] else [Trim(s[..p])] + Pieces(s[p + 1..])
  }

  function SplitCookies(combined: string): seq<string> {
    if |combined| > MAX_SET_COOKIE_LENGTH * MAX_SET_COOKIE_COUNT then []
    else NonEmpty(Pieces(combined))
  }

  lemma FirstSplitIs(s: string, p: nat)
    requires p <= |s|
    requires p < |s| ==> SplitsAt(s, p)
    requires forall q :: 0 <= q < p ==> !SplitsAt(s, q)
    ensures FirstSplit(s, 0) == p
  {
  }

  /** The loop's progress: what was pushed, and that no separator lies between cursor and index. */
  ghost predicate SoFar(s: string, result: seq<string>, cursor: nat, index: nat) {
    && cursor <= index <= |s|
    && result + Pieces(s[cursor..]) == Pieces(s)
    && forall q :: cursor <= q < index ==> !SplitsAt(s, q)
  }

  lemma NothingPushed(s: string)
    ensures SoFar(s, [], 0, 0)
  {
    assert s[0..] == s;
  }

  lemma StepOver(s: string, result: seq<string>, cursor: nat, index: nat)
    requires SoFar(s, result, cursor, index) && index < |s|
    requires s[index] != ',' || !StartsCookie(s[index + 1..])
    ensures SoFar(s, result, cursor, index + 1)
  {
    hide Pieces, StartsCookie;
    assert !SplitsAt(s, index);
  }

  lemma SplitsInSuffix(s: string, from: nat, q: nat)
    requires from + q < |s|
    ensures SplitsAt(s[from..], q) == SplitsAt(s, from + q)
  {
    assert s[from..][q + 1..] == s[from + q + 1..];
  }

  lemma PiecesAtSplit(s: string, cursor: nat, index: nat)
    requires cursor <= index < |s| && SplitsAt(s, index)
    requires forall q :: cursor <= q < index ==> !SplitsAt(s, q)
    ensures Pieces(s[cursor..]) == [Trim(s[cursor..index])] + Pieces(s[index + 1..])
  {
    hide StartsCookie;
    var t := s[cursor..];
    forall q | 0 <= q <= index - cursor ensures SplitsAt(t, q) == SplitsAt(s, cursor + q) {
      SplitsInSuffix(s, cursor, q);
    }
    FirstSplitIs(t, index - cursor);
    assert t[..index - cursor] == s[cursor..index] && t[index - cursor + 1..] == s[index + 1..];
  }

  lemma CutAt(s: string, result: seq<string>, cursor: nat, index: nat)
    requires SoFar(s, result, cursor, index) && index < |s|
    requires s[index] == ',' && StartsCookie(s[index + 1..])
    ensures SoFar(s, result + [Trim(s[cursor..index])], index + 1, index + 1)
  {
    PiecesAtSplit(s, cursor, index);
    hide Pieces, Trim, StartsCookie;
    var piece := Trim(s[cursor..index]);
    assert result + [piece] + Pieces(s[index + 1..]) == result + ([piece] + Pieces(s[index + 1..]));
  }

  lemma PiecesWithoutSplit(s: string, cursor: nat)
    requires cursor <= |s|
    requires forall q :: cursor <= q < |s| ==> !SplitsAt(s, q)
    ensures Pieces(s[cursor..]) == [Trim(s[cursor..])]
  {
    hide StartsCookie;
    var t := s[cursor..];
    forall q | 0 <= q < |t| ensures !SplitsAt(t, q) {
      SplitsInSuffix(s, cursor, q);
    }
    FirstSplitIs(t, |t|);
  }

  lemma LastCut(s: string, result: seq<string>, cursor: nat)
    requires SoFar(s, result, cursor, |s|)
    ensures result + [Trim(s[cursor..])] == Pieces(s)
  {
    PiecesWithoutSplit(s, cursor);
  }

  method SplitLegacySetCookie(combined: string) returns (cookies: seq<string>)
    ensures cookies == SplitCookies(combined)
  {
    if |combined| > MAX_SET_COOKIE_LENGTH * MAX_SET_COOKIE_COUNT {
      return [];
    }
    var result: seq<string> := [];
    var cursor := 0;
    assert combined[0..] == combined;
    hide SoFar;
    assert SoFar(combined, result, 0, 0) by {
      NothingPushed(combined);
    }
    for index := 0 to |combined|
      invariant cursor <= index
      invariant SoFar(combined, result, cursor, index)
    {
      if combined[index] != ',' {
        StepOver(combined, result, cursor, index);
        continue;
      }
      var looks := LooksLikeCookieStart(combined, index + 1);
      if looks {
        CutAt(combined, result, cursor, index);
        result := result + [Trim(combined[cursor..index])];
        cursor := index + 1;
      } else {
        StepOver(combined, result, cursor, index);
      }
    }
    LastCut(combined, result, cursor);
    result := result + [Trim(combined[cursor..])];
    return NonEmpty(result);
  }

  /** Cookies joined the way a header with several values is: a comma and optional white space. */
  function Join(cookies: seq<string>, ows: string): string {
    if cookies == [] then ""
    else if |cookies| == 1 then cookies[0]
    else cookies[0] + ("," + ows + Join(cookies[1..], ows))
  }

  predicate IsCookie(c: string) {
    IsTrimmed(c) && StartsCookie(c)
  }

  predicate HoldsNoSplit(c: string) {
    forall p :: 0 <= p < |c| ==> !SplitsAt(c, p)
  }

  lemma {:induction false} TokenStopsAtComma(t: string, u: string)
    ensures TokenLength(t + "," + u) == TokenLength(t)
  {
    var s := t + "," + u;
    if t == [] {
      assert s[0] == ',';
    } else {
      assert s[1..] == t[1..] + "," + u;
      TokenStopsAtComma(t[1..], u);
    }
  }

  /** The look-ahead never reads past a comma, so a separator hides everything after it. */
  lemma {:induction false} LookaheadStopsAtComma(t: string, u: string)
    ensures StartsCookie(t + "," + u) == StartsCookie(t)
  {
    var s := t + "," + u;
    if t != [] && IsOws(t[0]) {
      assert s[1..] == t[1..] + "," + u;
      LookaheadStopsAtComma(t[1..], u);
    } else {
      assert s[|t|] == ',';
      assert t == [] ==> s[0] == ',';
      TokenStopsAtComma(t, u);
    }
  }

  lemma SplitsBeforeComma(c: string, u: string, p: nat)
    requires p < |c|
    ensures SplitsAt(c + ("," + u), p) == SplitsAt(c, p)
  {
    assert (c + ("," + u))[p + 1..] == c[p + 1..] + "," + u;
    LookaheadStopsAtComma(c[p + 1..], u);
  }

  lemma {:induction false} OwsIsSkipped(ows: string, s: string)
    requires forall i :: 0 <= i < |ows| ==> IsOws(ows[i])
    ensures StartsCookie(ows + s) == StartsCookie(s)
    ensures Trim(ows + s) == Trim(s)
  {
    if ows == [] {
      assert ows + s == s;
    } else {
      assert (ows + s)[1..] == ows[1..] + s;
      OwsIsSkipped(ows[1..], s);
    }
  }

  lemma PiecesAfterOws(ows: string, s: string)
    requires forall i :: 0 <= i < |ows| ==> IsOws(ows[i])
    ensures Pieces(ows + s) == Pieces(s)
  {
    hide StartsCookie, Trim;
    var t := ows + s;
    var p := FirstSplit(s, 0);
    assert t[|ows|..] == s;
    forall q | 0 <= q < |ows| + p ensures !SplitsAt(t, q) {
      if q < |ows| {
        assert t[q] == ows[q];
      } else {
        SplitsInSuffix(t, |ows|, q - |ows|);
      }
    }
    if p < |s| {
      SplitsInSuffix(t, |ows|, p);
    }
    FirstSplitIs(t, |ows| + p);
    if p == |s| {
      OwsIsSkipped(ows, s);
    } else {
      assert t[..|ows| + p] == ows + s[..p] && t[|ows| + p + 1..] == s[p + 1..];
      OwsIsSkipped(ows, s[..p]);
    }
  }

  lemma {:induction false} TrimEndShortens(s: string)
    requires s != [] && !IsSpace(s[0])
    ensures TrimEnd(s) != [] && |TrimEnd(s)| <= |s|
  {
    if IsSpace(s[|s| - 1]) {
      TrimEndShortens(s[..|s| - 1]);
    }
  }

  lemma CookieBeginsWithTokenChar(c: string)
    requires IsCookie(c)
    ensures c != [] && IsCookieNameChar(c[0]) && c[0] != ','
  {
  }

  lemma JoinStartsCookie(cookies: seq<string>, ows: string)
    requires cookies != [] && IsCookie(cookies[0])
    ensures StartsCookie(Join(cookies, ows))
  {
    if |cookies| > 1 {
      var u := ows + Join(cookies[1..], ows);
      assert Join(cookies, ows) == cookies[0] + "," + u;
      LookaheadStopsAtComma(cookies[0], u);
    }
  }

  lemma PiecesOfTwo(c: string, u: string)
    requires HoldsNoSplit(c) && StartsCookie(u)
    ensures Pieces(c + ("," + u)) == [Trim(c)] + Pieces(u)
  {
    hide StartsCookie, Trim;
    var s := c + ("," + u);
    assert s[|c| + 1..] == u && s[..|c|] == c;
    forall p | 0 <= p < |c| ensures !SplitsAt(s, p) {
      SplitsBeforeComma(c, u, p);
    }
    FirstSplitIs(s, |c|);
  }

  lemma JoinUnfolds(cookies: seq<string>, ows: string)
    requires |cookies| > 1
    ensures Join(cookies, ows) == cookies[0] + ("," + (ows + Join(cookies[1..], ows)))
  {
    assert "," + ows + Join(cookies[1..], ows) == "," + (ows + Join(cookies[1..], ows));
  }

  /** A cookie that holds no separator comma is the first piece, and the rest is split alone. */
  lemma FirstCookieComesOff(cookies: seq<string>, ows: string)
    requires forall i :: 0 <= i < |ows| ==> IsOws(ows[i])
    requires |cookies| > 1 && IsCookie(cookies[0]) && IsCookie(cookies[1])
    requires HoldsNoSplit(cookies[0])
    ensures Pieces(Join(cookies, ows)) == [cookies[0]] + Pieces(Join(cookies[1..], ows))
  {
    var rest := Join(cookies[1..], ows);
    JoinStartsCookie(cookies[1..], ows);
    OwsIsSkipped(ows, rest);
    JoinUnfolds(cookies, ows);
    TrimmedIsKept(cookies[0]);
    hide StartsCookie, Trim, Join, Pieces;
    PiecesOfTwo(cookies[0], ows + rest);
    PiecesAfterOws(ows, rest);
  }

  lemma SingleJoin(c: string, ows: string)
    ensures Join([c], ows) == c
  {
  }

  /** A cookie holding a separator comma is cut short: the first piece is not that cookie. */
  lemma FirstCookieIsCut(cookies: seq<string>, ows: string)
    requires cookies != [] && IsCookie(cookies[0])
    requires !HoldsNoSplit(cookies[0])
    ensures var pieces := Pieces(Join(cookies, ows));
      pieces[0] != "" && |pieces[0]| < |cookies[0]|
  {
    var c := cookies[0];
    var s := Join(cookies, ows);
    CookieBeginsWithTokenChar(c);
    var p := FirstSplit(c, 0);
    hide StartsCookie, Join;
    assert c <= s && forall q :: 0 <= q < |c| ==> SplitsAt(s, q) == SplitsAt(c, q) by {
      if |cookies| > 1 {
        JoinUnfolds(cookies, ows);
        forall q | 0 <= q < |c| ensures SplitsAt(s, q) == SplitsAt(c, q) {
          SplitsBeforeComma(c, ows + Join(cookies[1..], ows), q);
        }
      } else {
        SingleJoin(c, ows);
        assert cookies == [c];
      }
    }
    FirstSplitIs(s, p);
    assert s[..p] == c[..p];
    TrimEndShortens(c[..p]);
  }

  lemma LonePiece(c: string)
    requires IsCookie(c) && HoldsNoSplit(c)
    ensures Pieces(c) == [c]
  {
    FirstSplitIs(c, |c|);
    TrimmedIsKept(c);
  }

  /**
   * The splitter inverts the join exactly when no cookie holds a separator comma of its own, for
   * every list of trimmed cookies that start with `token=` and every white space between them.
   */
  lemma {:induction false} PiecesInvertJoinIff(cookies: seq<string>, ows: string)
    requires forall i :: 0 <= i < |ows| ==> IsOws(ows[i])
    requires cookies != [] && forall i :: 0 <= i < |cookies| ==> IsCookie(cookies[i])
    ensures NonEmpty(Pieces(Join(cookies, ows))) == cookies
      <==> forall i :: 0 <= i < |cookies| ==> HoldsNoSplit(cookies[i])
    decreases |cookies|
  {
    var c := cookies[0];
    CookieBeginsWithTokenChar(c);
    hide IsCookie, Pieces, StartsCookie;
    if !HoldsNoSplit(c) {
      FirstCookieIsCut(cookies, ows);
    } else if |cookies| == 1 {
      assert cookies == [c];
      SingleJoin(c, ows);
      LonePiece(c);
      assert [c][1..] == [];
    } else {
      var rest := cookies[1..];
      assert rest[0] == cookies[1];
      FirstCookieComesOff(cookies, ows);
      PiecesInvertJoinIff(rest, ows);
      assert ([c] + Pieces(Join(rest, ows)))[1..] == Pieces(Join(rest, ows));
      assert cookies == [c] + rest;
      assert forall i :: 0 <= i < |rest| ==> rest[i] == cookies[i + 1];
      assert NonEmpty(Pieces(Join(cookies, ows))) == [c] + NonEmpty(Pieces(Join(rest, ows)));
      SamePrefix([c], NonEmpty(Pieces(Join(rest, ows))), rest);
    }
  }

  lemma NothingToSplit()
    ensures SplitCookies("") == []
  {
    assert Pieces("") == [""];
    assert [""][1..] == [];
  }

  /**
   * The whole splitter inverts the join exactly when, besides, the joined value keeps to the size
   * limit: beyond it nothing at all comes back.
   */
  lemma SplitInvertsJoinIff(cookies: seq<string>, ows: string)
    requires forall i :: 0 <= i < |ows| ==> IsOws(ows[i])
    requires forall i :: 0 <= i < |cookies| ==> IsCookie(cookies[i])
    ensures SplitCookies(Join(cookies, ows)) == cookies <==>
      || cookies == []
      || (|Join(cookies, ows)| <= 524_288
          && forall i :: 0 <= i < |cookies| ==> HoldsNoSplit(cookies[i]))
  {
    hide IsCookie, HoldsNoSplit, Pieces;
    if cookies == [] {
      NothingToSplit();
    } else {
      PiecesInvertJoinIff(cookies, ows);
    }
  }

  /** A comma as IMF-fixdate writes it (section 5.6.7 of RFC 9110): `, ` and a two-digit day. */
  predicate IsDateComma(s: string, p: nat)
    requires p < |s|
  {
    && p + 4 < |s|
    && s[p] == ','
    && s[p + 1] == ' '
    && IsDigit(s[p + 2]) && IsDigit(s[p + 3])
    && s[p + 4] == ' '
  }

  predicate OnlyDateCommas(c: string) {
    forall p :: 0 <= p < |c| && c[p] == ',' ==> IsDateComma(c, p)
  }

  lemma DateCommaNeverSplits(s: string, p: nat)
    requires p < |s| && IsDateComma(s, p)
    ensures !SplitsAt(s, p)
  {
    var t := s[p + 1..];
    var u := t[1..];
    assert u == s[p + 2..] && u[1..] == s[p + 3..] && u[1..][1..] == s[p + 4..];
    var (v, w) := (u[1..], u[1..][1..]);
    assert w[0] == ' ' && TokenLength(w) == 0;
    assert v[0] == s[p + 3] && TokenLength(v) == 1;
    assert u[0] == s[p + 2] && u[2] == s[p + 4] && TokenLength(u) == 2;
    assert !StartsCookie(u);
    assert t[0] == ' ' && StartsCookie(t) == StartsCookie(u);
  }

  /** Cookies whose only commas are those of `Expires` dates come back unchanged, up to the size limit. */
  lemma CookiesWithDatesRoundTrip(cookies: seq<string>, ows: string)
    requires forall i :: 0 <= i < |ows| ==> IsOws(ows[i])
    requires forall i :: 0 <= i < |cookies| ==> IsCookie(cookies[i]) && OnlyDateCommas(cookies[i])
    requires |Join(cookies, ows)| <= MAX_SET_COOKIE_LENGTH * MAX_SET_COOKIE_COUNT
    ensures SplitCookies(Join(cookies, ows)) == cookies
  {
    forall i | 0 <= i < |cookies| ensures HoldsNoSplit(cookies[i]) {
      forall p | 0 <= p < |cookies[i]| ensures !SplitsAt(cookies[i], p) {
        if cookies[i][p] == ',' {
          DateCommaNeverSplits(cookies[i], p);
        }
      }
    }
    SplitInvertsJoinIff(cookies, ows);
  }

  // ---- where the splitter cuts ----

  /** The token characters of section 5.6.2 of RFC 9110: letters, digits and fifteen marks. */
  predicate IsTokenChar(c: char) {
    'A' <= c <= 'Z' || 'a' <= c <= 'z' || '0' <= c <= '9' || c in "!#$%&'*+-.^_`|~"
  }

  predicate IsToken(s: string) {
    s != "" && forall i :: 0 <= i < |s| ==> IsTokenChar(s[i])
  }

  /** White space, a token, an equals sign and anything. */
  predicate BeginsCookie(s: string, ows: string, name: string, rest: string) {
    && (forall i :: 0 <= i < |ows| ==> ows[i] == ' ' || ows[i] == '\t')
    && IsToken(name)
    && s == ows + (name + ("=" + rest))
  }

  lemma {:induction false} TokenIsMeasured(name: string, rest: string)
    requires forall i :: 0 <= i < |name| ==> IsTokenChar(name[i])
    requires rest == "" || !IsTokenChar(rest[0])
    ensures TokenLength(name + rest) == |name|
  {
    if name == "" {
      assert name + rest == rest;
    } else {
      assert (name + rest)[1..] == name[1..] + rest;
      TokenIsMeasured(name[1..], rest);
    }
  }

  lemma {:induction false} MeasuredIsToken(s: string)
    ensures var n := TokenLength(s);
      (forall i :: 0 <= i < n ==> IsTokenChar(s[i])) && (n < |s| ==> !IsTokenChar(s[n]))
  {
    if s != "" && IsCookieNameChar(s[0]) {
      MeasuredIsToken(s[1..]);
      assert forall i :: 0 < i <= TokenLength(s[1..]) ==> s[i] == s[1..][i - 1];
    }
  }

  lemma {:induction false} BegunIsCookie(s: string, ows: string, name: string, rest: string)
    requires BeginsCookie(s, ows, name, rest)
    ensures StartsCookie(s)
    decreases |ows|
  {
    if ows == "" {
      assert s == name + ("=" + rest);
      TokenIsMeasured(name, "=" + rest);
    } else {
      assert s[1..] == ows[1..] + (name + ("=" + rest));
      BegunIsCookie(s[1..], ows[1..], name, rest);
    }
  }

  lemma {:induction false} CookieIsBegun(s: string) returns (ows: string, name: string, rest: string)
    requires StartsCookie(s)
    ensures BeginsCookie(s, ows, name, rest)
  {
    if s != "" && IsOws(s[0]) {
      ows, name, rest := CookieIsBegun(s[1..]);
      ows := [s[0]] + ows;
    } else {
      var n := TokenLength(s);
      MeasuredIsToken(s);
      ows, name, rest := "", s[..n], s[n + 1..];
      assert s == name + ("=" + rest);
    }
  }

  ghost predicate IsCookieText(s: string) {
    exists ows, name, rest :: BeginsCookie(s, ows, name, rest)
  }

  lemma StartsCookieIff(s: string)
    ensures StartsCookie(s) <==> IsCookieText(s)
  {
    hide StartsCookie, BeginsCookie;
    if StartsCookie(s) {
      var ows, name, rest := CookieIsBegun(s);
    }
    if IsCookieText(s) {
      var ows, name, rest :| BeginsCookie(s, ows, name, rest);
      BegunIsCookie(s, ows, name, rest);
    }
  }

  /** The splitter cuts at exactly the commas behind which a cookie begins. */
  lemma CutsWhereCookiesBegin(s: string, p: nat)
    requires p < |s|
    ensures SplitsAt(s, p) <==> s[p] == ',' && IsCookieText(s[p + 1..])
  {
    hide StartsCookie, IsCookieText;
    StartsCookieIff(s[p + 1..]);
  }
}
