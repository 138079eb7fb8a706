/** The edge proxy: what one request is answered with. */
module AuthProxy {
  import opened Strings
  import opened Urls
  import opened Routes
  import opened ProxyHeaders

  datatype Config = Config(
    routes: RouteTable,
    redirectIfAuthenticated: seq<string>,
    loginPath: Target,
    dashboard: string -> Target,
    maxRefreshAttempts: nat,
    userHeaders: UserHeaders,
    blockedUserStatuses: seq<string>,
    hostParses: string -> bool)

  /** The verified access token; `isValid` covers the signature and the expiry. */
  datatype Token = Token(isValid: bool, tokenType: Option<string>, claims: Claims)

  /** The two cookies the proxy reads. */
  datatype Jar = Jar(access: Option<Token>, hasSession: bool)

  datatype Request = Request(target: Target, headers: HeaderMap, cookies: Jar)

  datatype Response =
    | Next(headers: HeaderMap)
    | Rewrite(to: Target, headers: HeaderMap)
    | Redirect(location: Target)
    | Refuse(status: int)

  const REFRESH_ATTEMPT_PARAM := "_r"
  const REASON_PARAM := "reason"
  const REASON_EXPIRED := "expired"
  const SILENT_REFRESH_PATH := "/api/auth/silent-refresh"
  const REDIRECT_PARAM := "redirect"

  predicate IsAuthenticated(jar: Jar) {
    && jar.access.Some?
    && jar.access.value.isValid
    && (jar.access.value.tokenType == Some("dashboard") || jar.access.value.tokenType == Some("platform"))
  }

  function Role(claims: Claims): string {
    claims.role.GetOr("")
  }

  predicate NonEmptyHeader(headers: HeaderMap, name: string) {
    name in headers && headers[name] != ""
  }

  const BACKGROUND_HEADERS: set<string> := {"rsc", "next-router-prefetch", "next-router-state-tree"}

  predicate IsBackgroundRequest(headers: HeaderMap) {
    || NonEmptyHeader(headers, "rsc")
    || NonEmptyHeader(headers, "next-router-prefetch")
    || NonEmptyHeader(headers, "next-router-state-tree")
  }

  function Pow2(n: nat): (r: nat)
    ensures r >= 1
  {
    if n == 0 then 1 else 2 * Pow2(n - 1)
  }

  /** The least integer that `Number.parseInt` reports as `Infinity`. */
  const INFINITY_THRESHOLD: int := Pow2(1024) - Pow2(970)

  function DigitPrefix(s: string): (d: string)
    ensures AllDigits(d) && d <= s
  {
    if s == [] || !IsDigit(s[0]) then [] else [s[0]] + DigitPrefix(s[1..])
  }

  /** `Number.parseInt(s, 10)` before rounding; `None` is `NaN`. */
  function ParseInt(s: string): Option<int> {
    var t := TrimStart(s);
    var negative := StartsWith(t, "-");
    var digits := DigitPrefix(if negative || StartsWith(t, "+") then t[1..] else t);
    if digits == [] then None
    else Some(if negative then -(DecimalValue(digits) as int) else DecimalValue(digits) as int)
  }

  function Min(a: nat, b: nat): nat {
    if a < b then a else b
  }

  /** The `_r` counter, clamped to `[0, maxAllowed]`; unreadable, negative and infinite read as 0. */
  function ReadRefreshAttemptCounter(query: seq<Param>, maxAllowed: nat): nat {
    match Get(query, REFRESH_ATTEMPT_PARAM)
    case Some(Text(raw)) =>
      (match ParseInt(raw)
       case None => 0
       case Some(parsed) =>
         if parsed < 0 || parsed >= INFINITY_THRESHOLD then 0 else Min(parsed, maxAllowed))
    case _ => 0
  }

  predicate IsReasonExpired(query: seq<Param>) {
    Get(query, REASON_PARAM) == Some(Text(REASON_EXPIRED))
  }

  function SafeRelativePath(candidate: Target, fallback: Target): Target {
    if IsSafePath(candidate.path) then candidate else fallback
  }

  function RedirectTo(destination: Target): Response {
    Redirect(ToSameOriginPath(destination))
  }

  /** Where the browser should come back to after a refresh, carrying the incremented counter. */
  function BuildRefreshDestination(pathname: string, query: seq<Param>, nextCounter: nat): Target {
    var cleaned := Delete(Delete(query, REFRESH_ATTEMPT_PARAM), REASON_PARAM);
    Target(pathname, Set(cleaned, REFRESH_ATTEMPT_PARAM, Text(Decimal(nextCounter))))
  }

  function BuildSilentRefreshPath(destination: Target): Target {
    Target(SILENT_REFRESH_PATH, [Param(REDIRECT_PARAM, Link(destination))])
  }

  function RedirectToLogin(config: Config, reason: string): Response {
    var loginPath := SafeRelativePath(config.loginPath, Target("/", []));
    RedirectTo(if reason != "" then WithQueryParam(loginPath, REASON_PARAM, reason) else loginPath)
  }

  function DashboardOf(config: Config, role: string): Target {
    SafeRelativePath(config.dashboard(role), Target("/", []))
  }

  function HandleAuthenticatedOnPublic(request: Request, pathname: string, claims: Claims,
    config: Config, sanitized: HeaderMap): Response
  {
    var reasonPresent := Has(request.target.query, REASON_PARAM);
    if AnyPublicRoute(pathname, config.redirectIfAuthenticated) && !reasonPresent then
      RedirectTo(DashboardOf(config, Role(claims)))
    else
      Next(sanitized)
  }

  function HandlePublicRoute(request: Request, pathname: string, config: Config,
    sanitized: HeaderMap): Response
  {
    var attempts := ReadRefreshAttemptCounter(request.target.query, config.maxRefreshAttempts);
    if IsAuthenticated(request.cookies) then
      HandleAuthenticatedOnPublic(request, pathname, request.cookies.access.value.claims, config, sanitized)
    else if attempts >= config.maxRefreshAttempts || IsReasonExpired(request.target.query) then
      Next(sanitized)
    else if request.cookies.hasSession then
      RedirectTo(BuildSilentRefreshPath(
        BuildRefreshDestination(pathname, request.target.query, attempts + 1)))
    else
      Next(sanitized)
  }

  function HandleUnauthenticatedOnProtected(request: Request, pathname: string, config: Config): Response {
    var attempts := ReadRefreshAttemptCounter(request.target.query, config.maxRefreshAttempts);
    var hasCookie := request.cookies.access.Some?;
    if !hasCookie && !request.cookies.hasSession then
      RedirectToLogin(config, "")
    else if attempts >= config.maxRefreshAttempts || IsReasonExpired(request.target.query) then
      RedirectToLogin(config, REASON_EXPIRED)
    else if request.cookies.hasSession then
      RedirectTo(BuildSilentRefreshPath(
        BuildRefreshDestination(pathname, request.target.query, attempts + 1)))
    else
      RedirectToLogin(config, "")
  }

  /** The configured spelling, lowered, of the first blocked status equal to the claim. */
  function BlockedStatus(claims: Claims, blocked: seq<string>): Option<string> {
    if claims.status.None? || claims.status.value == "" || blocked == [] then None
    else if AsciiLower(blocked[0]) == AsciiLower(claims.status.value) then Some(AsciiLower(blocked[0]))
    else BlockedStatus(claims, blocked[1..])
  }

  function ForbiddenDestination(config: Config, route: ProtectedRoute, role: string): Target {
    var fallback := DashboardOf(config, role);
    WithQueryParam(SafeRelativePath(route.redirectPath.GetOr(fallback), fallback), "error", "forbidden")
  }

  function BuildAuthorisedResponse(request: Request, claims: Claims, config: Config,
    sanitized: HeaderMap): Response
  {
    var forwarded := WithIdentity(sanitized, config.userHeaders, claims);
    if !Has(request.target.query, REFRESH_ATTEMPT_PARAM) then Next(forwarded)
    else Rewrite(Target(request.target.path, Delete(request.target.query, REFRESH_ATTEMPT_PARAM)), forwarded)
  }

  function HandleProtectedRoute(request: Request, pathname: string, matched: ProtectedRoute,
    config: Config, sanitized: HeaderMap): Response
  {
    if !IsAuthenticated(request.cookies) then
      HandleUnauthenticatedOnProtected(request, pathname, config)
    else
      var claims := request.cookies.access.value.claims;
      var blocked := BlockedStatus(claims, config.blockedUserStatuses);
      if blocked.Some? then
        if IsBackgroundRequest(request.headers) then Refuse(403)
        else RedirectToLogin(config, blocked.value)
      else if Role(claims) !in matched.allowedRoles then
        if IsBackgroundRequest(request.headers) then Refuse(403)
        else RedirectTo(ForbiddenDestination(config, matched, Role(claims)))
      else
        BuildAuthorisedResponse(request, claims, config, sanitized)
  }

  function RunProxy(config: Config, request: Request): Response {
    var pathname := NormalizePath(request.target.path, config.hostParses);
    var kind := Classify(pathname, config.routes);
    var sanitized := Sanitized(request.headers, config.userHeaders);
    if kind.Api? then
      Next(sanitized)
    else if IsBackgroundRequest(request.headers) && !IsAuthenticated(request.cookies) then
      Refuse(401)
    else if kind.Protected? then
      HandleProtectedRoute(request, pathname, kind.route, config, sanitized)
    else
      HandlePublicRoute(request, pathname, config, sanitized)
  }

  function ForwardedHeaders(response: Response): HeaderMap {
    match response
    case Next(headers) => headers
    case Rewrite(_, headers) => headers
    case _ => map[]
  }

  lemma SameBackgroundFlag(a: HeaderMap, b: HeaderMap, names: set<string>)
    requires AgreeOutside(a, b, names) && names !! BACKGROUND_HEADERS
    ensures IsBackgroundRequest(a) == IsBackgroundRequest(b)
  {
    assert "rsc" in BACKGROUND_HEADERS && SameSlot(a, b, "rsc");
    assert "next-router-prefetch" in BACKGROUND_HEADERS && SameSlot(a, b, "next-router-prefetch");
    assert "next-router-state-tree" in BACKGROUND_HEADERS && SameSlot(a, b, "next-router-state-tree");
  }

  lemma ProxyReadsTwoThings(config: Config, target: Target, cookies: Jar, a: HeaderMap, b: HeaderMap)
    requires Sanitized(a, config.userHeaders) == Sanitized(b, config.userHeaders)
    requires IsBackgroundRequest(a) == IsBackgroundRequest(b)
    ensures RunProxy(config, Request(target, a, cookies)) == RunProxy(config, Request(target, b, cookies))
  {
    hide Sanitized, IsBackgroundRequest, Classify, NormalizePath, BlockedStatus, WithIdentity, RedirectToLogin,
      BuildRefreshDestination, ForbiddenDestination, DashboardOf, ReadRefreshAttemptCounter, IsAuthenticated;
  }

  /**
   * Client-sent identity headers have no influence at all: requests that differ only in them
   * get the same response, forwarded headers included, on every path.
   */
  lemma IdentityHeadersDoNotInterfere(config: Config, target: Target, cookies: Jar, a: HeaderMap, b: HeaderMap)
    requires AgreeOutside(a, b, IdentityNames(config.userHeaders))
    requires IdentityNames(config.userHeaders) !! BACKGROUND_HEADERS
    ensures RunProxy(config, Request(target, a, cookies)) == RunProxy(config, Request(target, b, cookies))
  {
    SanitizedIgnoresIdentity(a, b, config.userHeaders);
    SameBackgroundFlag(a, b, IdentityNames(config.userHeaders));
    ProxyReadsTwoThings(config, target, cookies, a, b);
  }

  /** Any two requests that differ only in identity headers get the same response. */
  ghost predicate IgnoresIdentityHeaders(config: Config) {
    forall target: Target, cookies: Jar, a: HeaderMap, b: HeaderMap ::
      AgreeOutside(a, b, IdentityNames(config.userHeaders)) ==>
        RunProxy(config, Request(target, a, cookies)) == RunProxy(config, Request(target, b, cookies))
  }

  lemma RootIsAPage(config: Config)
    ensures !Classify(NormalizePath("/", config.hostParses), config.routes).Api?
  {
    assert !StartsWith("/", "//") && !StartsWith("/", API_PREFIX);
  }

  lemma BackgroundDecidesAtRoot(config: Config, headers: HeaderMap)
    ensures RunProxy(config, Request(Target("/", []), headers, Jar(None, false))) == Refuse(401) <==>
      IsBackgroundRequest(headers)
  {
    hide Sanitized, IsBackgroundRequest, Classify, NormalizePath, AnyPublicRoute, ReadRefreshAttemptCounter;
    RootIsAPage(config);
  }

  lemma OneHeaderIsBackground(name: string)
    requires name in BACKGROUND_HEADERS
    ensures IsBackgroundRequest(map[name := "1"]) && !IsBackgroundRequest(map[])
  {
  }

  /** Which configurations that holds for: those that name no background-request header. */
  lemma NonInterferenceIff(config: Config)
    ensures IgnoresIdentityHeaders(config) <==> IdentityNames(config.userHeaders) !! BACKGROUND_HEADERS
  {
    hide RunProxy, IsBackgroundRequest, IdentityNames;
    var names := IdentityNames(config.userHeaders);
    if names !! BACKGROUND_HEADERS {
      forall target: Target, cookies: Jar, a: HeaderMap, b: HeaderMap | AgreeOutside(a, b, names)
        ensures RunProxy(config, Request(target, a, cookies)) == RunProxy(config, Request(target, b, cookies))
      {
        IdentityHeadersDoNotInterfere(config, target, cookies, a, b);
      }
    } else {
      var name :| name in names && name in BACKGROUND_HEADERS;
      var a: HeaderMap := map[name := "1"];
      var b: HeaderMap := map[];
      OneHeaderIsBackground(name);
      BackgroundDecidesAtRoot(config, a);
      BackgroundDecidesAtRoot(config, b);
      assert AgreeOutside(a, b, names);
    }
  }

  /** The counter guard fires exactly for readings in `[maxAllowed, INFINITY_THRESHOLD)`. */
  lemma CounterGuardFires(query: seq<Param>, raw: string, maxAllowed: nat)
    requires Get(query, REFRESH_ATTEMPT_PARAM) == Some(Text(raw))
    requires 0 < maxAllowed
    ensures ReadRefreshAttemptCounter(query, maxAllowed) >= maxAllowed <==>
      ParseInt(raw).Some? && maxAllowed <= ParseInt(raw).value < INFINITY_THRESHOLD
  {
  }

  lemma {:induction false} DigitPrefixOfDigits(s: string)
    requires AllDigits(s)
    ensures DigitPrefix(s) == s
  {
    if s != [] {
      DigitPrefixOfDigits(s[1..]);
    }
  }

  lemma ParseIntReadsDecimal(n: nat)
    ensures ParseInt(Decimal(n)) == Some(n)
  {
    var s := Decimal(n);
    assert IsDigit(s[0]);
    DigitPrefixOfDigits(s);
    DecimalReadsBack(n);
  }

  /**
   * The comment on the reader says every crafted huge counter is clamped and breaks the loop.
   * A numeral too large for a double is not: every one of them reads as 0.
   */
  lemma HugeCounterReadsAsZero(query: seq<Param>, n: nat, maxAllowed: nat)
    requires Get(query, REFRESH_ATTEMPT_PARAM) == Some(Text(Decimal(n)))
    requires n >= INFINITY_THRESHOLD
    ensures ReadRefreshAttemptCounter(query, maxAllowed) == 0
  {
    ParseIntReadsDecimal(n);
  }

  lemma {:induction false} Pow2Monotone(a: nat, b: nat)
    requires a <= b
    ensures Pow2(a) <= Pow2(b)
  {
    if a < b {
      Pow2Monotone(a, b - 1);
    }
  }

  const MAX_SAFE_INTEGER: int := Pow2(53) - 1

  lemma SafeIntegersAreFinite(n: nat)
    requires n <= MAX_SAFE_INTEGER
    ensures n < INFINITY_THRESHOLD
  {
    Pow2Monotone(53, 970);
    Pow2Monotone(970, 1023);
  }

  /** The counter written on the destination is the counter read when the browser lands there. */
  lemma CounterSurvivesTheRoundTrip(pathname: string, query: seq<Param>, next: nat, maxAllowed: nat)
    requires next <= maxAllowed <= MAX_SAFE_INTEGER
    ensures var t := BuildRefreshDestination(pathname, query, next);
      && ReadRefreshAttemptCounter(t.query, maxAllowed) == next
      && !Has(t.query, REASON_PARAM)
  {
    var cleaned := Delete(Delete(query, REFRESH_ATTEMPT_PARAM), REASON_PARAM);
    var value := Text(Decimal(next));
    GetAfterSet(cleaned, REFRESH_ATTEMPT_PARAM, value, REFRESH_ATTEMPT_PARAM);
    GetAfterSet(cleaned, REFRESH_ATTEMPT_PARAM, value, REASON_PARAM);
    GetAfterDelete(Delete(query, REFRESH_ATTEMPT_PARAM), REASON_PARAM, REASON_PARAM);
    ParseIntReadsDecimal(next);
    SafeIntegersAreFinite(next);
  }

  // ---- how the counter is read ----

  lemma {:induction false} DigitPrefixStops(digits: string, rest: string)
    requires AllDigits(digits) && (rest == "" || !IsDigit(rest[0]))
    ensures DigitPrefix(digits + rest) == digits
  {
    if digits == "" {
      assert digits + rest == rest;
    } else {
      assert (digits + rest)[1..] == digits[1..] + rest;
      DigitPrefixStops(digits[1..], rest);
    }
  }

  /** `parseInt`: white space, a sign if any, digits, and then anything that is no digit. */
  predicate IsNumeral(raw: string, pad: string, sign: string, digits: string, rest: string) {
    && AllSpaces(pad)
    && (sign == "" || sign == "+" || sign == "-")
    && AllDigits(digits) && (rest == "" || !IsDigit(rest[0]))
    && (digits == "" && sign == "" ==> rest == "" || (rest[0] != '+' && rest[0] != '-' && !IsSpace(rest[0])))
    && raw == pad + (sign + (digits + rest))
  }

  lemma SignedDigits(sign: string, digits: string, rest: string)
    requires sign == "" || sign == "+" || sign == "-"
    requires AllDigits(digits)
    requires digits == "" && sign == "" ==> rest == "" || (rest[0] != '+' && rest[0] != '-')
    ensures var t := sign + (digits + rest);
      && (StartsWith(t, "-") <==> sign == "-")
      && (StartsWith(t, "+") <==> sign == "+")
      && (sign != "" ==> t[1..] == digits + rest)
      && (sign == "" ==> t == digits + rest)
  {
    var t := sign + (digits + rest);
    assert StartsWith(t, "-") <==> t != "" && t[0] == '-';
    assert StartsWith(t, "+") <==> t != "" && t[0] == '+';
    assert sign != "" ==> t[0] == sign[0];
    assert digits != "" ==> (digits + rest)[0] == digits[0] && IsDigit(digits[0]);
  }

  lemma SignsAreNoSpaces()
    ensures !IsSpace('+') && !IsSpace('-')
  {
  }

  lemma DigitIsNoSpace(c: char)
    requires IsDigit(c)
    ensures !IsSpace(c)
  {
  }

  lemma {:induction false} AllTrimmedStart(pad: string)
    requires AllSpaces(pad)
    ensures TrimStart(pad) == ""
  {
    hide IsSpace;
    if pad != "" {
      AllTrimmedStart(pad[1..]);
    }
  }

  lemma TrimmedNumeral(pad: string, sign: string, digits: string, rest: string)
    requires IsNumeral(pad + (sign + (digits + rest)), pad, sign, digits, rest)
    ensures TrimStart(pad + (sign + (digits + rest))) == sign + (digits + rest)
  {
    SignsAreNoSpaces();
    if digits != "" {
      DigitIsNoSpace(digits[0]);
    }
    hide IsSpace;
    var t := sign + (digits + rest);
    if t == "" {
      assert pad + t == pad;
      AllTrimmedStart(pad);
    } else {
      assert t[0] == if sign != "" then sign[0] else if digits != "" then digits[0] else rest[0];
      TrimStartPadded(pad, t);
    }
  }

  lemma ParseIntReads(raw: string, pad: string, sign: string, digits: string, rest: string)
    requires IsNumeral(raw, pad, sign, digits, rest)
    ensures ParseInt(raw) ==
      if digits == "" then None
      else Some(if sign == "-" then -(DecimalValue(digits) as int) else DecimalValue(digits) as int)
  {
    hide IsSpace, DigitPrefix, DecimalValue, TrimStart, AllSpaces;
    var t := sign + (digits + rest);
    TrimmedNumeral(pad, sign, digits, rest);
    DigitPrefixStops(digits, rest);
    SignedDigits(sign, digits, rest);
  }

  /** The counter that every text of a numeral stands for. */
  lemma CounterOfNumeral(query: seq<Param>, max: nat, raw: string, pad: string, sign: string, digits: string,
    rest: string)
    requires IsNumeral(raw, pad, sign, digits, rest)
    requires Get(query, "_r") == Some(Text(raw))
    ensures var n := DecimalValue(digits);
      ReadRefreshAttemptCounter(query, max) ==
        if digits == "" || sign == "-" || n >= INFINITY_THRESHOLD then 0 else if n < max then n else max
  {
    hide ParseInt, DecimalValue, IsNumeral;
    ParseIntReads(raw, pad, sign, digits, rest);
  }

  /** No counter, or one that is no text, is none. */
  lemma NoCounterIsZero(query: seq<Param>, max: nat)
    requires !Get(query, "_r").Some? || !Get(query, "_r").value.Text?
    ensures ReadRefreshAttemptCounter(query, max) == 0
  {
  }
}
