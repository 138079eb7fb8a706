/** The logout route handler, and its agreement with the provider about when a logout happened. */
module Logout {
  import opened Strings
  import opened Urls
  import SetCookie
  import P = SessionProvider

  datatype Mode = StatusMode | RedirectMode(loginPath: Target)

  datatype CookieConfig = CookieConfig(
    access: string,
    refresh: string,
    hasSession: string,
    refreshPath: string,
    domain: Option<string>)

  datatype Request = Request(isPost: bool, isCrossSite: bool)

  datatype Upstream = Unreachable | Status(code: int, retryAfter: Option<string>)

  datatype Response = Response(
    status: int,
    location: Option<Target>,
    retryAfter: Option<string>,
    setCookies: seq<string>)

  const SERVER_ERROR_STATUS := 500
  const TOO_MANY_REQUESTS_STATUS := 429
  const BAD_GATEWAY_STATUS := 502

  const TRAILER: seq<string> := [" Max-Age=0", " HttpOnly", " Secure", " SameSite=Strict"]

  function Scope(path: string, domain: Option<string>): seq<string> {
    [" Path=" + path] + if domain.None? then [] else [" Domain=" + domain.value]
  }

  function JoinAttributes(pieces: seq<string>): string {
    if pieces == [] then ""
    else if |pieces| == 1 then pieces[0]
    else pieces[0] + ";" + JoinAttributes(pieces[1..])
  }

  /** `name=; Path=path; Domain=domain; Max-Age=0; HttpOnly; Secure; SameSite=Strict`. */
  function SerializeClearCookie(name: string, path: string, domain: Option<string>): string {
    JoinAttributes([name + "="] + Scope(path, domain) + TRAILER)
  }

  function ClearCookies(c: CookieConfig): seq<string> {
    [SerializeClearCookie(c.access, "/", c.domain),
     SerializeClearCookie(c.refresh, c.refreshPath, c.domain),
     SerializeClearCookie(c.hasSession, "/", c.domain)]
  }

  /** An upstream answer that settles the logout one way or the other. */
  predicate IsFinalUpstream(upstream: Upstream) {
    upstream.Status? && upstream.code < SERVER_ERROR_STATUS && upstream.code != TOO_MANY_REQUESTS_STATUS
  }

  function FailedLogoutResponse(status: int, retryAfter: Option<string>): Response {
    Response(status, None, retryAfter, [])
  }

  function BuildLogoutResponse(mode: Mode, cookies: CookieConfig): Response {
    match mode
    case RedirectMode(loginPath) => Response(307, Some(ToSameOriginPath(loginPath)), None, ClearCookies(cookies))
    case StatusMode => Response(200, None, None, ClearCookies(cookies))
  }

  function HandleLogout(mode: Mode, cookies: CookieConfig, request: Request, upstream: Upstream): Response {
    if !request.isPost then Response(405, None, None, [])
    else if request.isCrossSite then Response(403, None, None, [])
    else if upstream.Unreachable? then FailedLogoutResponse(BAD_GATEWAY_STATUS, None)
    else if upstream.code >= SERVER_ERROR_STATUS || upstream.code == TOO_MANY_REQUESTS_STATUS then
      FailedLogoutResponse(upstream.code, upstream.retryAfter)
    else BuildLogoutResponse(mode, cookies)
  }

  /**
   * Cookies are touched exactly by a same-site POST the upstream answered for good, in both modes;
   * only then is the browser ever redirected, and a `Retry-After` is the upstream's or nobody's.
   */
  lemma CookiesClearedIff(mode: Mode, cookies: CookieConfig, request: Request, upstream: Upstream)
    ensures var response := HandleLogout(mode, cookies, request, upstream);
      var settled := request.isPost && !request.isCrossSite && IsFinalUpstream(upstream);
      && (response.setCookies != [] <==> settled)
      && (response.location.Some? <==> settled && mode.RedirectMode?)
      && (response.location.Some? ==> response.location.value == ToSameOriginPath(mode.loginPath))
      && response.retryAfter ==
           if request.isPost && !request.isCrossSite && upstream.Status? && !settled then upstream.retryAfter else None
  {
  }

  /** How the client's `logout()` settles; `None` is a response that never arrived. */
  function ClientResult(delivered: Option<Response>): P.LogoutResult {
    match delivered
    case None => P.LogoutRejected(P.OtherError)
    case Some(response) =>
      if 200 <= response.status < 300 then P.LogoutConfirmed
      else P.LogoutRejected(P.ClientError(Some(response.status)))
  }

  /** The client's `logout()` resolves for a 2xx and for nothing else. */
  lemma ResolvesIff(delivered: Option<Response>)
    ensures ClientResult(delivered).LogoutConfirmed? <==>
      delivered.Some? && 200 <= delivered.value.status <= 299
    ensures delivered.Some? && !ClientResult(delivered).LogoutConfirmed? ==>
      ClientResult(delivered) == P.LogoutRejected(P.ClientError(Some(delivered.value.status)))
    ensures delivered.None? ==> ClientResult(delivered) == P.LogoutRejected(P.OtherError)
  {
  }

  /** What each request is answered with, and so what the client hears. */
  lemma AnswersByStatus(mode: Mode, cookies: CookieConfig, request: Request, upstream: Upstream)
    ensures HandleLogout(mode, cookies, request, upstream).status ==
      if !request.isPost then 405
      else if request.isCrossSite then 403
      else if upstream.Unreachable? then 502
      else if upstream.code >= 500 || upstream.code == 429 then upstream.code
      else if mode.RedirectMode? then 307
      else 200
  {
  }

  predicate ProviderClears(result: P.LogoutResult) {
    result.LogoutConfirmed? || P.IsFinalAnswer(result.failure)
  }

  datatype Attempt = Attempt(request: Request, upstream: Upstream, lost: bool)

  function Delivered(cookies: CookieConfig, attempt: Attempt): Option<Response> {
    if attempt.lost then None else Some(HandleLogout(StatusMode, cookies, attempt.request, attempt.upstream))
  }

  predicate CookiesDeleted(cookies: CookieConfig, attempt: Attempt) {
    var response := Delivered(cookies, attempt);
    response.Some? && response.value.setCookies != []
  }

  /**
   * In status mode the browser's cookies and the provider's session go together for every upstream
   * answer exactly when the request was a same-site POST or its response was lost: a refused
   * method or a refused site is a final answer to the provider that deletes no cookie.
   */
  lemma AgreementIff(cookies: CookieConfig, attempt: Attempt)
    ensures (CookiesDeleted(cookies, attempt) <==> ProviderClears(ClientResult(Delivered(cookies, attempt))))
      <==> attempt.lost || (attempt.request.isPost && !attempt.request.isCrossSite)
  {
  }

  datatype World = World(hasCookies: bool, provider: P.Machine)

  /** One logout attempt: the provider calls, the handler answers, both apply the answer. */
  function AfterAttempt(w: World, cookies: CookieConfig, attempt: Attempt): World {
    var started := P.Next(w.provider, P.LogoutStarted);
    var landed := P.LogoutLanded(|w.provider.ops|, ClientResult(Delivered(cookies, attempt)));
    World(w.hasCookies && !CookiesDeleted(cookies, attempt), P.Next(started, landed))
  }

  function AfterAttempts(w: World, cookies: CookieConfig, attempts: seq<Attempt>): World {
    if attempts == [] then w
    else AfterAttempt(AfterAttempts(w, cookies, attempts[..|attempts| - 1]), cookies, attempts[|attempts| - 1])
  }

  predicate AreOurs(attempts: seq<Attempt>) {
    forall i :: 0 <= i < |attempts| ==> attempts[i].request.isPost && !attempts[i].request.isCrossSite
  }

  predicate AnyConfirmed(attempts: seq<Attempt>) {
    exists i :: 0 <= i < |attempts| && !attempts[i].lost && IsFinalUpstream(attempts[i].upstream)
  }

  /**
   * Over any sequence of attempts from a signed-in page, cookies and session are both intact until
   * the first attempt the upstream settles, and both gone from then on.
   */
  lemma {:induction false} LogoutAgreement(w: World, cookies: CookieConfig, attempts: seq<Attempt>)
    requires w.hasCookies && w.provider.statusRef == P.Authenticated
    requires AreOurs(attempts)
    ensures var after := AfterAttempts(w, cookies, attempts);
      && (after.hasCookies <==> !AnyConfirmed(attempts))
      && after.provider.statusRef == if AnyConfirmed(attempts) then P.Unauthenticated else P.Authenticated
  {
    if attempts != [] {
      var (init, last) := (attempts[..|attempts| - 1], attempts[|attempts| - 1]);
      LogoutAgreement(w, cookies, init);
      AgreementIff(cookies, last);
      assert AnyConfirmed(attempts) <==> AnyConfirmed(init) || (!last.lost && IsFinalUpstream(last.upstream)) by {
        assert forall i :: 0 <= i < |init| ==> init[i] == attempts[i];
      }
    }
  }

  // ---- which cookie a deletion names ----

  /** What the factory's checks guarantee of the names and the domain. */
  predicate IsPlain(part: string) {
    IsTrimmed(part) && ';' !in part && '\n' !in part && '\r' !in part
  }

  lemma SlashIsNoSpace()
    ensures !IsSpace('/') && !IsSpace('P') && IsTrimmed("Path") && IsSpace(' ')
  {
  }

  predicate AttributeIs(attribute: string, name: string, value: string) {
    SetCookie.AttributeName(attribute) == name && SetCookie.AttributeValue(attribute) == value
  }

  lemma NamedAttribute(key: string, value: string)
    requires key != [] && !IsSpace(key[0]) && '=' !in key && IsTrimmed(key) && IsTrimmed(value)
    ensures var attribute := Trim(" " + key + "=" + value);
      AttributeIs(attribute, AsciiLower(key), value)
  {
    SlashIsNoSpace();
    hide IsSpace, Trim, IndexOf, AsciiLower;
    var text := key + "=" + value;
    assert " " + key + "=" + value == " " + text;
    EqualsIsNoSpace();
    assert text[0] == key[0] && text[|text| - 1] == if value == "" then '=' else value[|value| - 1];
    TrimPadded(" ", text);
    IndexOfAt(key, '=', value);
    assert text == key + ['='] + value;
    assert text[..|key|] == key && text[|key| + 1..] == value;
    TrimmedIsKept(key);
    TrimmedIsKept(value);
  }

  /** What the factory's check guarantees of a path: printable ASCII but `;`, starting with a slash. */
  predicate IsCookiePath(path: string) {
    && StartsWith(path, "/")
    && forall i :: 0 <= i < |path| ==> ' ' <= path[i] <= '~' && path[i] != ';'
  }

  lemma TrimOneSpace(s: string)
    requires s != "" && !IsSpace(s[0])
    ensures Trim(" " + s) == TrimEnd(s)
  {
    SlashIsNoSpace();
    hide IsSpace;
    assert (" " + s)[1..] == s;
    assert TrimStart(s) == s;
    assert TrimStart(" " + s) == s;
  }

  lemma PathText(value: string)
    ensures Trim(" Path=" + value) == TrimEnd("Path=" + value)
    ensures " " + "Path" + "=" + value == " Path=" + value
  {
    SlashIsNoSpace();
    hide IsSpace, Trim, TrimEnd;
    var text := "Path=" + value;
    assert text[0] == 'P';
    TrimOneSpace(text);
    assert " Path=" + value == " " + text;
  }

  lemma TrimEndOfTrimmed(s: string)
    requires IsTrimmed(s)
    ensures TrimEnd(s) == s
  {
    hide IsSpace;
  }

  lemma PathAttribute(path: string)
    requires IsCookiePath(path)
    ensures AttributeIs(Trim(" Path=" + path), "path", TrimEnd(path))
  {
    SlashIsNoSpace();
    hide IsSpace, Trim, TrimEnd, AttributeIs;
    var value := TrimEnd(path);
    assert path[0] == '/';
    SetCookie.TrimEndFrom("Path=", path);
    PathText(path);
    PathText(value);
    TrimEndOfTrimmed(value);
    SetCookie.TrimEndFrom("Path=", value);
    NamedAttribute("Path", value);
    assert AsciiLower("Path") == "path";
  }

  lemma FlagAttribute(key: string)
    requires '=' !in key && IsTrimmed(key)
    ensures AttributeIs(Trim(" " + key), AsciiLower(key), "")
  {
    TrimPadded(" ", key);
    TrimPadded("", key);
    assert "" + key == key && key[..|key|] == key;
    assert IndexOf(key, '=') == |key|;
  }

  lemma TrailerTexts()
    ensures TRAILER[0] == " " + "Max-Age" + "=" + "0" && TRAILER[1] == " " + "HttpOnly"
    ensures TRAILER[2] == " " + "Secure" && TRAILER[3] == " " + "SameSite" + "=" + "Strict"
  {
  }

  lemma VisibleIsNoSpace(c: char)
    requires '0' <= c <= 'z'
    ensures !IsSpace(c)
  {
  }

  lemma WordIsTrimmed(word: string)
    requires word != "" && '0' <= word[0] <= 'z' && '0' <= word[|word| - 1] <= 'z'
    ensures IsTrimmed(word)
  {
    hide IsSpace;
    VisibleIsNoSpace(word[0]);
    VisibleIsNoSpace(word[|word| - 1]);
  }

  lemma TrailerWords()
    ensures IsTrimmed("Max-Age") && IsTrimmed("HttpOnly") && IsTrimmed("Secure") && IsTrimmed("SameSite")
    ensures IsTrimmed("0") && IsTrimmed("Strict")
    ensures !IsSpace('M') && !IsSpace('S')
  {
    hide IsSpace, IsTrimmed;
    WordIsTrimmed("Max-Age");
    WordIsTrimmed("HttpOnly");
    WordIsTrimmed("Secure");
    WordIsTrimmed("SameSite");
    WordIsTrimmed("0");
    WordIsTrimmed("Strict");
    VisibleIsNoSpace('M');
    VisibleIsNoSpace('S');
  }

  /** The attributes after the path and domain name neither of the two. */
  lemma TrailerNames(name: string)
    requires name == "domain" || name == "path"
    ensures forall i :: 0 <= i < 4 ==> SetCookie.AttributeName(Trim(TRAILER[i])) != name
  {
    hide Trim, SetCookie.AttributeName, SetCookie.AttributeValue, IndexOf, IsSpace;
    TrailerWords();
    TrailerTexts();
    NamedAttribute("Max-Age", "0");
    FlagAttribute("HttpOnly");
    FlagAttribute("Secure");
    NamedAttribute("SameSite", "Strict");
    assert |"Max-Age"| == 7 && |"HttpOnly"| == 8 && |"SameSite"| == 8 && |"domain"| == 6 && |"path"| == 4;
    assert |"Secure"| == 6 && AsciiLower("Secure")[0] == 's' && "domain"[0] == 'd';
  }

  lemma {:induction false} SplitJoined(pieces: seq<string>)
    requires pieces != [] && forall i :: 0 <= i < |pieces| ==> ';' !in pieces[i]
    ensures Split(JoinAttributes(pieces), ';') == pieces
    decreases |pieces|
  {
    if |pieces| == 1 {
      assert IndexOf(pieces[0], ';') == |pieces[0]|;
    } else {
      SplitFirst(pieces[0], ';', JoinAttributes(pieces[1..]));
      SplitJoined(pieces[1..]);
      hide Split;
    }
  }

  /** Attributes that do not carry the name leave the earlier ones to decide. */
  lemma {:induction false} LastAmong(attributes: seq<string>, trailer: seq<string>, name: string)
    requires forall i :: 0 <= i < |trailer| ==> SetCookie.AttributeName(trailer[i]) != name
    ensures SetCookie.LastAttribute(attributes + trailer, name) == SetCookie.LastAttribute(attributes, name)
  {
    hide SetCookie.AttributeName, SetCookie.AttributeValue;
    if trailer == [] {
      assert attributes + trailer == attributes;
    } else {
      var all := attributes + trailer;
      assert all[..|all| - 1] == attributes + trailer[..|trailer| - 1];
      LastAmong(attributes, trailer[..|trailer| - 1], name);
    }
  }

  lemma ClearCookieSplits(name: string, path: string, domain: Option<string>)
    requires ';' !in name && ';' !in path && ';' !in domain.GetOr("")
    ensures Split(SerializeClearCookie(name, path, domain), ';') == [name + "="] + Scope(path, domain) + TRAILER
  {
    hide Split, JoinAttributes;
    assert forall i :: 0 <= i < |TRAILER| ==> ';' !in TRAILER[i];
    SplitJoined([name + "="] + Scope(path, domain) + TRAILER);
  }

  lemma NameReadsBack(name: string)
    requires name != "" && IsTrimmed(name) && '=' !in name
    ensures var pair := Trim(name + "=");
      IndexOf(pair, '=') == |name| < |pair| && Trim(pair[..|name|]) == name
  {
    var pair := name + "=";
    TrimPadded("", pair);
    assert "" + pair == pair && pair == name + ['='] + "";
    IndexOfAt(name, '=', "");
    TrimPadded("", name);
    assert "" + name == name && pair[..|name|] == name;
  }

  lemma DomainIsTrimmed()
    ensures IsTrimmed("Domain") && !IsSpace('D')
  {
  }

  lemma DomainAttribute(domain: string)
    requires IsPlain(domain)
    ensures AttributeIs(Trim(" Domain=" + domain), "domain", domain)
  {
    SlashIsNoSpace();
    hide IsSpace, Trim, SetCookie.AttributeName, SetCookie.AttributeValue;
    assert " Domain=" + domain == " " + "Domain" + "=" + domain;
    DomainIsTrimmed();
    NamedAttribute("Domain", domain);
    assert AsciiLower("Domain") == "domain";
  }

  lemma OneAttribute(scope: seq<string>)
    requires |scope| == 1 && AttributeIs(scope[0], "path", SetCookie.AttributeValue(scope[0]))
    ensures SetCookie.LastAttribute(scope, "path") == Some(SetCookie.AttributeValue(scope[0]))
    ensures SetCookie.LastAttribute(scope, "domain") == None
  {
    hide SetCookie.AttributeName, SetCookie.AttributeValue;
    assert |"path"| != |"domain"|;
    assert scope[..0] == [];
  }

  lemma TwoAttributes(scope: seq<string>)
    requires |scope| == 2
    requires AttributeIs(scope[0], "path", SetCookie.AttributeValue(scope[0]))
    requires AttributeIs(scope[1], "domain", SetCookie.AttributeValue(scope[1]))
    ensures SetCookie.LastAttribute(scope, "path") == Some(SetCookie.AttributeValue(scope[0]))
    ensures SetCookie.LastAttribute(scope, "domain") == Some(SetCookie.AttributeValue(scope[1]))
  {
    hide SetCookie.AttributeName, SetCookie.AttributeValue;
    assert |"path"| != |"domain"|;
    assert scope[..1] == [scope[0]];
    OneAttribute(scope[..1]);
  }

  lemma ScopeReadsBack(path: string, domain: Option<string>)
    requires IsCookiePath(path) && IsPlain(domain.GetOr(""))
    ensures var scope := SetCookie.TrimAll(Scope(path, domain));
      && SetCookie.LastAttribute(scope, "path") == Some(TrimEnd(path))
      && SetCookie.LastAttribute(scope, "domain") == domain
  {
    hide Trim, Split, SetCookie.AttributeName, SetCookie.AttributeValue, IndexOf, IsCookiePath, IsSpace, TrimEnd;
    var scope := SetCookie.TrimAll(Scope(path, domain));
    PathAttribute(path);
    assert |"path"| != |"domain"|;
    if domain.None? {
      OneAttribute(scope);
    } else {
      DomainAttribute(domain.value);
      TwoAttributes(scope);
    }
  }

  /**
   * Reading a deletion back gives the identity it was written for: the name, the domain in lower
   * case and the path. A browser deletes the cookie that carries all three. Spaces that end the
   * path are not read back, neither here nor from the cookie that was planted with it.
   */
  lemma ClearCookieNamesItsTarget(name: string, path: string, domain: Option<string>)
    requires name != "" && IsPlain(name) && '=' !in name
    requires IsCookiePath(path) && IsPlain(domain.GetOr(""))
    ensures var raw := SerializeClearCookie(name, path, domain);
      && SetCookie.CookieName(raw) == name
      && SetCookie.CookieDomain(raw) == (if domain.None? then None else Some(AsciiLower(domain.value)))
      && SetCookie.CookiePath(raw) == Some(TrimEnd(path))
  {
    hide Trim, Split, SetCookie.AttributeName, SetCookie.AttributeValue;
    var raw := SerializeClearCookie(name, path, domain);
    ClearCookieSplits(name, path, domain);
    NameReadsBack(name);
    var segments := SetCookie.CookieSegments(raw);
    var scope := SetCookie.TrimAll(Scope(path, domain));
    var trailer := SetCookie.TrimAll(TRAILER);
    assert segments[1..] == scope + trailer;
    TrailerNames("domain");
    TrailerNames("path");
    LastAmong(scope, trailer, "domain");
    LastAmong(scope, trailer, "path");
    ScopeReadsBack(path, domain);
  }

  /** `raw` deletes the cookie of this name, path and domain. */
  predicate Deletes(raw: string, name: string, path: string, domain: Option<string>) {
    && SetCookie.CookieName(raw) == name
    && SetCookie.CookieDomain(raw) == (if domain.None? then None else Some(AsciiLower(domain.value)))
    && SetCookie.CookiePath(raw) == Some(path)
  }

  predicate IsPlainName(name: string) {
    name != "" && IsPlain(name) && '=' !in name
  }

  lemma RootIsAPath()
    ensures IsCookiePath("/") && TrimEnd("/") == "/"
  {
    hide IsSpace;
    SlashIsNoSpace();
  }

  /** A settled logout deletes each of the three cookies where it was planted. */
  lemma SettledLogoutDeletesTheThree(mode: Mode, c: CookieConfig, upstream: Upstream)
    requires IsPlainName(c.access) && IsPlainName(c.refresh) && IsPlainName(c.hasSession)
    requires IsCookiePath(c.refreshPath) && IsPlain(c.domain.GetOr(""))
    requires IsFinalUpstream(upstream)
    ensures var deletions := HandleLogout(mode, c, Request(true, false), upstream).setCookies;
      && |deletions| == 3
      && Deletes(deletions[0], c.access, "/", c.domain)
      && Deletes(deletions[1], c.refresh, TrimEnd(c.refreshPath), c.domain)
      && Deletes(deletions[2], c.hasSession, "/", c.domain)
  {
    RootIsAPath();
    hide SetCookie.CookieName, SetCookie.CookieDomain, SetCookie.CookiePath, SerializeClearCookie, IsPlain,
      IsCookiePath, TrimEnd;
    ClearCookieNamesItsTarget(c.access, "/", c.domain);
    ClearCookieNamesItsTarget(c.refresh, c.refreshPath, c.domain);
    ClearCookieNamesItsTarget(c.hasSession, "/", c.domain);
  }
}
