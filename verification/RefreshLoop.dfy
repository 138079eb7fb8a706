/**
 * The silent-refresh handler, and the redirect chains a browser follows between it and the proxy.
 *
 * One hop is one request. What the environment decides at a hop (request headers, the upstream's
 * answer, the cookies the browser ends up with) is a free choice, so a theorem about every oracle
 * is a theorem about every browser and every upstream.
 */
module RefreshLoop {
  import opened Strings
  import opened Urls
  import opened Routes
  import opened ProxyHeaders
  import opened AuthProxy
  import opened RoleWalk
  import opened SetCookie
  import LastWriter

  /** The proxy's configuration and the login path the silent-refresh handler was built with. */
  datatype Site = Site(proxy: Config, handlerLogin: Target)

  datatype Upstream =
    | Unreachable
    | OpaqueRedirect
    | Answered(ok: bool, setCookies: seq<string>)

  datatype CookieChange = KeepCookies | ClearCookies | SetCookies(cookies: seq<string>)

  datatype HandlerAnswer = HandlerAnswer(location: Target, change: CookieChange)

  predicate IsCrossSiteRequest(headers: HeaderMap) {
    && "sec-fetch-site" in headers
    && headers["sec-fetch-site"] != "same-origin"
    && headers["sec-fetch-site"] != "none"
  }

  function ResolveSafeDestination(raw: Option<Value>, loginPath: Target): Target {
    match raw
    case Some(Link(to)) =>
      if !StartsWith(to.path, "/") then loginPath
      else if StartsWith(to.path, "//") then loginPath
      else if exists i :: 0 <= i < |to.path| && to.path[i] in "\\\r\n\0" then loginPath
      else to
    case _ => loginPath
  }

  function BuildLoginRedirect(loginPath: Target): Target {
    ToSameOriginPath(WithQueryParam(loginPath, REASON_PARAM, REASON_EXPIRED))
  }

  function SilentRefresh(loginPath: Target, query: seq<Param>, headers: HeaderMap,
    upstream: Upstream): HandlerAnswer
  {
    if IsCrossSiteRequest(headers) then
      HandlerAnswer(BuildLoginRedirect(loginPath), KeepCookies)
    else
      var destination := ResolveSafeDestination(Get(query, REDIRECT_PARAM), loginPath);
      match upstream
      case Unreachable => HandlerAnswer(BuildLoginRedirect(loginPath), ClearCookies)
      case OpaqueRedirect => HandlerAnswer(BuildLoginRedirect(loginPath), ClearCookies)
      case Answered(ok, raw) =>
        if !ok || raw == [] then HandlerAnswer(BuildLoginRedirect(loginPath), ClearCookies)
        else HandlerAnswer(ToSameOriginPath(destination), SetCookies(Dedupe(raw)))
  }

  /**
   * What a silent refresh does to the browser's cookies. A cross-site request leaves them alone;
   * otherwise they rotate exactly when the upstream answered 2xx with cookies, into the jar its own
   * list describes, and are cleared in every other case. Only a rotation leads back to the page.
   */
  lemma CookiesRotateIff(loginPath: Target, query: seq<Param>, headers: HeaderMap, upstream: Upstream,
    jar: map<string, string>)
    ensures var answer := SilentRefresh(loginPath, query, headers, upstream);
      var crossSite := "sec-fetch-site" in headers && headers["sec-fetch-site"] !in {"same-origin", "none"};
      var rotates := !crossSite && upstream.Answered? && upstream.ok && upstream.setCookies != [];
      && (answer.change.KeepCookies? <==> crossSite)
      && (answer.change.SetCookies? <==> rotates)
      && (rotates ==>
            && LastWriter.Replay(Key, jar, answer.change.cookies) == LastWriter.Replay(Key, jar, upstream.setCookies)
            && forall i, j :: 0 <= i < j < |answer.change.cookies| ==>
                 Key(answer.change.cookies[i]) != Key(answer.change.cookies[j]))
      && (!rotates ==> answer.location == BuildLoginRedirect(loginPath))
  {
    hide Key, SetCookie.Dedupe, ResolveSafeDestination;
    if upstream.Answered? {
      DedupePreservesJar(jar, upstream.setCookies);
      forall i, j | 0 <= i < j < |Dedupe(upstream.setCookies)|
        ensures Key(Dedupe(upstream.setCookies)[i]) != Key(Dedupe(upstream.setCookies)[j])
      {
        if Key(Dedupe(upstream.setCookies)[i]) == Key(Dedupe(upstream.setCookies)[j]) {
          OneKeptPerKey(upstream.setCookies, i, j);
        }
      }
    }
  }

  /**
   * Everything outside the two components at one hop. `rotated` is the jar after the browser
   * applied the upstream's cookies; `clearLands` is whether the three deletions matched the cookies
   * they name (they do not when the configured path or domain differs from the planted one).
   */
  datatype Choice = Choice(headers: HeaderMap, upstream: Upstream, rotated: Jar, clearLands: bool)

  datatype Browser = Browser(at: Target, jar: Jar)

  function Apply(change: CookieChange, jar: Jar, choice: Choice): Jar {
    match change
    case KeepCookies => jar
    case ClearCookies => if choice.clearLands then Jar(None, false) else jar
    case SetCookies(_) => choice.rotated
  }

  /** Where one request sends the browser next, or `None` when something is rendered. */
  function Hop(site: Site, b: Browser, choice: Choice): Option<Browser> {
    match RunProxy(site.proxy, Request(b.at, choice.headers, b.jar))
    case Redirect(to) => Some(Browser(to, b.jar))
    case Refuse(_) => None
    case Rewrite(_, _) => None
    case Next(_) =>
      if b.at.path != SILENT_REFRESH_PATH then None
      else
        var answer := SilentRefresh(site.handlerLogin, b.at.query, choice.headers, choice.upstream);
        Some(Browser(answer.location, Apply(answer.change, b.jar, choice)))
  }

  /** The browser after `n` redirects, or `None` when a page was rendered before that. */
  ghost function Follow(site: Site, b: Browser, oracle: nat -> Choice, n: nat): Option<Browser> {
    if n == 0 then Some(b)
    else
      var before := Follow(site, b, oracle, n - 1);
      if before.None? then None else Hop(site, before.value, oracle(n - 1))
  }

  /** A location that no browser reads as another origin. */
  predicate StaysHome(t: Target) {
    && t.path != "" && t.path[0] == '/'
    && (|t.path| == 1 || (t.path[1] != '/' && t.path[1] != '\\'))
    && HasNoControl(t.path)
  }

  lemma HomeIsHome(t: Target)
    ensures StaysHome(ToSameOriginPath(t))
  {
    hide ToSameOriginPath;
    OffOriginGoesHome(t);
  }

  /** Whatever the configuration, the request and the upstream, no redirect leaves the origin. */
  lemma RedirectsStayHome(config: Config, r: Request, loginPath: Target, upstream: Upstream)
    ensures RunProxy(config, r).Redirect? ==> StaysHome(RunProxy(config, r).location)
    ensures StaysHome(SilentRefresh(loginPath, r.target.query, r.headers, upstream).location)
  {
    hide Classify, NormalizePath, Sanitized, ReadRefreshAttemptCounter, BlockedStatus, WithIdentity, ToSameOriginPath,
      IsBackgroundRequest, AnyPublicRoute, Set, Delete, Has, IsReasonExpired, DashboardOf, ForbiddenDestination,
      ResolveSafeDestination, SetCookie.Dedupe, IsCrossSiteRequest, StaysHome, IsAuthenticated, BuildRefreshDestination;
    forall t: Target ensures StaysHome(ToSameOriginPath(t)) {
      HomeIsHome(t);
    }
  }

  // ---- the deployment rules ----

  /** The login page the proxy really uses. */
  function LoginPage(config: Config): Target {
    SafeRelativePath(config.loginPath, Target("/", []))
  }

  /** What every chain needs: a page that the handler can fall back to, and an open login page. */
  predicate IsGrounded(site: Site) {
    && site.proxy.maxRefreshAttempts <= MAX_SAFE_INTEGER
    && IsSafePath(site.handlerLogin.path)
    && site.handlerLogin.path != SILENT_REFRESH_PATH
    && LoginPage(site.proxy).path != SILENT_REFRESH_PATH
    && !KindOf(site.proxy, LoginPage(site.proxy).path).Protected?
  }

  /** No page this role is sent to is the silent-refresh route itself. */
  predicate AvoidsHandler(config: Config, role: string) {
    forall t :: t in Stops(config, role) ==> t.path != SILENT_REFRESH_PATH
  }

  /** The role of a signed-in visitor never takes more than `walk` redirects to come to rest. */
  ghost predicate RoleRests(site: Site, role: string, walk: nat) {
    AvoidsHandler(site.proxy, role) && SettlesWithin(site.proxy, role, walk)
  }

  /** The only thing asked of cookies: the role they carry, if any, comes to rest. */
  ghost predicate JarRests(site: Site, jar: Jar, walk: nat) {
    IsAuthenticated(jar) ==> RoleRests(site, Role(jar.access.value.claims), walk)
  }

  // ---- the measure ----

  function Counter(site: Site, t: Target): nat {
    ReadRefreshAttemptCounter(t.query, site.proxy.maxRefreshAttempts)
  }

  function Left(site: Site, t: Target): (n: nat) {
    var m := site.proxy.maxRefreshAttempts;
    if Counter(site, t) <= m then m - Counter(site, t) else 0
  }

  /** Redirects still possible from a page: two for each attempt left, and the walk of a role. */
  function PageBudget(site: Site, walk: nat, t: Target): nat {
    2 * Left(site, t) + walk
  }

  /** The handler accepts the page's normalised path as a place to come back to. */
  predicate IsOrdinary(site: Site, t: Target) {
    IsSafePath(NormalizePath(t.path, site.proxy.hostParses))
  }

  function FullBudget(site: Site, walk: nat): nat {
    2 * site.proxy.maxRefreshAttempts + walk
  }

  /** Where the handler lands the browser when the refresh succeeds. */
  function Landing(site: Site, raw: Option<Value>): Target {
    ToSameOriginPath(ResolveSafeDestination(raw, site.handlerLogin))
  }

  /**
   * Redirects still possible from a URL, whatever the cookies. A silent-refresh URL adds one to
   * its destination's; a page whose normalised path the handler does not accept (it starts with
   * `//`) is sent to the login page instead, which restarts the count there.
   */
  function Budget(site: Site, walk: nat, t: Target): (n: nat)
    ensures n >= walk
    ensures t.path == SILENT_REFRESH_PATH ==> n > walk
    decreases t
  {
    if t.path == SILENT_REFRESH_PATH then
      var k := Position(t.query, REDIRECT_PARAM);
      if k < |t.query| && t.query[k].value.Link?
         && Landing(site, Some(t.query[k].value)) == t.query[k].value.to
      then 1 + Budget(site, walk, t.query[k].value.to)
      else 1 + FullBudget(site, walk)
    else if !IsOrdinary(site, t) then 2 + FullBudget(site, walk)
    else PageBudget(site, walk, t)
  }

  predicate StopsRefreshing(site: Site, b: Browser) {
    || Counter(site, b.at) >= site.proxy.maxRefreshAttempts
    || IsReasonExpired(b.at.query)
  }

  predicate GivesUp(site: Site, b: Browser) {
    !b.jar.hasSession || StopsRefreshing(site, b)
  }

  function UnauthenticatedRank(site: Site, walk: nat, b: Browser): nat {
    var kind := KindOf(site.proxy, b.at.path);
    if kind.Api? then 0
    else if GivesUp(site, b) then (if kind.Protected? then 1 else 0)
    else Budget(site, walk, b.at)
  }

  predicate IsBlocked(site: Site, claims: Claims) {
    BlockedStatus(claims, site.proxy.blockedUserStatuses).Some?
  }

  function BlockedRank(site: Site, t: Target): nat {
    if KindOf(site.proxy, t.path).Protected? then 1
    else if IsGuestPage(site.proxy, t) then 2
    else 0
  }

  function AuthenticatedRank(site: Site, walk: nat, t: Target, claims: Claims): nat {
    if IsBlocked(site, claims) then BlockedRank(site, t)
    else Length(site.proxy, Role(claims), t, walk)
  }

  /** The termination measure: every redirect lowers it. */
  function Rank(site: Site, walk: nat, b: Browser): nat {
    if b.at.path == SILENT_REFRESH_PATH then Budget(site, walk, b.at)
    else if IsAuthenticated(b.jar) then AuthenticatedRank(site, walk, b.at, b.jar.access.value.claims)
    else UnauthenticatedRank(site, walk, b)
  }

  lemma SilentRefreshIsApi(config: Config)
    ensures KindOf(config, SILENT_REFRESH_PATH).Api?
  {
    var path := SILENT_REFRESH_PATH;
    assert path[1] == 'a' && "//"[1] == '/';
    assert !StartsWith(path, "//");
    assert path == API_PREFIX + "silent-refresh";
  }

  lemma RootIsSafe()
    ensures IsSafePath("/")
  {
    assert !StartsWith("/", "//");
  }

  lemma RankWithinBudget(site: Site, walk: nat, b: Browser)
    requires walk >= 2
    ensures Rank(site, walk, b) <= Budget(site, walk, b.at)
  {
    hide Budget, KindOf, IsGuestPage, IsBlocked;
  }

  /** A login page that is open and reached with a reason renders, whatever the cookies say. */
  lemma LoginWithReasonRests(site: Site, walk: nat, login: Target, reason: string, jar: Jar)
    requires IsSafePath(login.path) && login.path != SILENT_REFRESH_PATH
    requires !KindOf(site.proxy, login.path).Protected?
    requires reason == REASON_EXPIRED || IsAuthenticated(jar)
    ensures var t := WithQueryParam(login, REASON_PARAM, reason);
      ToSameOriginPath(t) == t && Rank(site, walk, Browser(t, jar)) == 0
  {
    hide KindOf, RedirectsAuthenticated, Set, IsBlocked, Counter;
    var t := WithQueryParam(login, REASON_PARAM, reason);
    SafePathIsKept(t);
    GetAfterSet(login.query, REASON_PARAM, Text(reason), REASON_PARAM);
  }

  // ---- the silent-refresh handler ----

  /** The handler answers a failure with a page from which no refresh is tried again. */
  lemma FailureRank(site: Site, walk: nat, jar: Jar)
    requires IsSafePath(site.handlerLogin.path) && site.handlerLogin.path != SILENT_REFRESH_PATH && walk >= 2
    ensures BuildLoginRedirect(site.handlerLogin) == WithQueryParam(site.handlerLogin, REASON_PARAM, REASON_EXPIRED)
    ensures Rank(site, walk, Browser(BuildLoginRedirect(site.handlerLogin), jar)) <= walk
  {
    hide KindOf, IsGuestPage, Set, IsBlocked, Counter;
    var t := WithQueryParam(site.handlerLogin, REASON_PARAM, REASON_EXPIRED);
    SafePathIsKept(t);
    GetAfterSet(site.handlerLogin.query, REASON_PARAM, Text(REASON_EXPIRED), REASON_PARAM);
  }

  lemma HandlerLoginBudget(site: Site, walk: nat)
    requires IsSafePath(site.handlerLogin.path) && site.handlerLogin.path != SILENT_REFRESH_PATH
    ensures ToSameOriginPath(site.handlerLogin) == site.handlerLogin
    ensures Budget(site, walk, site.handlerLogin) <= FullBudget(site, walk)
  {
    hide IsSafePath;
    SafePathIsKept(site.handlerLogin);
    SafePathIsNormal(site.handlerLogin.path, site.proxy.hostParses);
  }

  lemma RootBudget(site: Site, walk: nat)
    ensures Budget(site, walk, Target("/", [])) <= FullBudget(site, walk)
  {
    hide ReadRefreshAttemptCounter, NormalizePath, IsSafePath;
    assert |"/"| != |SILENT_REFRESH_PATH|;
    RootIsSafe();
    SafePathIsNormal("/", site.proxy.hostParses);
  }

  lemma LandingIsOneOfThree(site: Site, raw: Option<Value>)
    requires ToSameOriginPath(site.handlerLogin) == site.handlerLogin
    ensures Landing(site, raw) == Target("/", []) || Landing(site, raw) == site.handlerLogin
      || (raw.Some? && raw.value.Link? && Landing(site, raw) == raw.value.to)
  {
  }

  lemma HandlerBudget(site: Site, walk: nat, t: Target)
    requires IsSafePath(site.handlerLogin.path) && site.handlerLogin.path != SILENT_REFRESH_PATH
    requires t.path == SILENT_REFRESH_PATH
    ensures Budget(site, walk, Landing(site, Get(t.query, REDIRECT_PARAM))) < Budget(site, walk, t)
  {
    hide IsSafePath, ResolveSafeDestination, IsOrdinary, PageBudget, FullBudget, Landing;
    HandlerLoginBudget(site, walk);
    RootBudget(site, walk);
    LandingIsOneOfThree(site, Get(t.query, REDIRECT_PARAM));
  }

  lemma HandlerHopDescends(site: Site, walk: nat, b: Browser, choice: Choice)
    requires IsSafePath(site.handlerLogin.path) && site.handlerLogin.path != SILENT_REFRESH_PATH && walk >= 2
    requires b.at.path == SILENT_REFRESH_PATH
    ensures var next := Hop(site, b, choice);
      next.Some? ==> Rank(site, walk, next.value) < Rank(site, walk, b)
  {
    SilentRefreshIsApi(site.proxy);
    hide Classify, NormalizePath, Budget, IsSafePath, BuildLoginRedirect, ResolveSafeDestination,
      ToSameOriginPath, AuthenticatedRank, UnauthenticatedRank, Apply, SetCookie.Dedupe, Sanitized,
      HandleProtectedRoute, HandlePublicRoute;
    var answer := SilentRefresh(site.handlerLogin, b.at.query, choice.headers, choice.upstream);
    var next := Browser(answer.location, Apply(answer.change, b.jar, choice));
    if answer.change.SetCookies? {
      RankWithinBudget(site, walk, next);
      HandlerBudget(site, walk, b.at);
    } else {
      FailureRank(site, walk, next.jar);
    }
  }

  /** The handler returns the browser to exactly the paths that are safe. */
  lemma LinkKept(site: Site, to: Target)
    requires IsSafePath(site.handlerLogin.path)
    ensures Landing(site, Some(Link(to))) == to <==> IsSafePath(to.path)
  {
    RootIsSafe();
    SafePathIsKept(site.handlerLogin);
    if IsSafePath(to.path) {
      SafePathIsKept(to);
    }
  }

  /**
   * Where a successful refresh lands: on a safe link, at the root for a link whose only fault is a
   * control character that the handler's own check does not name, and at the login page otherwise.
   */
  lemma WhereLinksLand(site: Site, raw: Option<Value>)
    requires IsSafePath(site.handlerLogin.path)
    ensures Landing(site, raw) ==
      match raw
      case Some(Link(to)) =>
        if IsSafePath(to.path) then to
        else if "/" <= to.path && !("//" <= to.path)
                && forall i :: 0 <= i < |to.path| ==> to.path[i] !in {'\\', '\r', '\n', '\0'}
        then Target("/", [])
        else site.handlerLogin
      case _ => site.handlerLogin
  {
    SafePathIsKept(site.handlerLogin);
    if raw.Some? && raw.value.Link? && IsSafePath(raw.value.to.path) {
      SafePathIsKept(raw.value.to);
    }
  }

  /** The cookies after a stop at the handler. */
  lemma CookiesAfterHandler(site: Site, b: Browser, choice: Choice)
    requires b.at.path == SILENT_REFRESH_PATH
    ensures var next := Hop(site, b, choice);
      next.Some? ==>
        next.value.jar ==
          if "sec-fetch-site" in choice.headers && choice.headers["sec-fetch-site"] !in {"same-origin", "none"}
          then b.jar
          else if choice.upstream.Answered? && choice.upstream.ok && choice.upstream.setCookies != []
          then choice.rotated
          else if choice.clearLands then Jar(None, false)
          else b.jar
  {
    hide Classify, NormalizePath, ResolveSafeDestination, ToSameOriginPath, SetCookie.Dedupe, Sanitized,
      HandleProtectedRoute, HandlePublicRoute, IsBackgroundRequest, Set;
    SilentRefreshIsApi(site.proxy);
  }

  // ---- visitors without a valid token ----

  lemma LoginPageIsSafe(config: Config)
    ensures IsSafePath(LoginPage(config).path) && ToSameOriginPath(LoginPage(config)) == LoginPage(config)
  {
    hide IsSafePath;
    RootIsSafe();
    SafePathIsKept(LoginPage(config));
  }

  lemma SignedOutLoginRests(site: Site, walk: nat, login: Target, jar: Jar)
    requires login.path != SILENT_REFRESH_PATH && !KindOf(site.proxy, login.path).Protected?
    requires !IsAuthenticated(jar) && !jar.hasSession
    ensures Rank(site, walk, Browser(login, jar)) == 0
  {
    hide KindOf, Budget;
  }

  function Back(site: Site, b: Browser): Target {
    BuildRefreshDestination(
      NormalizePath(b.at.path, site.proxy.hostParses), b.at.query, Counter(site, b.at) + 1)
  }

  function RefreshUrl(site: Site, b: Browser): Target {
    BuildSilentRefreshPath(Back(site, b))
  }

  lemma SilentRefreshIsSafe()
    ensures IsSafePath(SILENT_REFRESH_PATH)
  {
    var path := SILENT_REFRESH_PATH;
    assert path[0] == '/' && path[1] == 'a' && "//"[1] == '/' && "/"[0] == '/';
    assert "/" <= path;
  }

  lemma RefreshUrlBudget(site: Site, walk: nat, b: Browser)
    ensures ToSameOriginPath(RefreshUrl(site, b)) == RefreshUrl(site, b)
    ensures Budget(site, walk, RefreshUrl(site, b)) ==
      1 + if Landing(site, Some(Link(Back(site, b)))) == Back(site, b) then Budget(site, walk, Back(site, b))
          else FullBudget(site, walk)
  {
    hide IsSafePath, Back, Landing, FullBudget;
    SilentRefreshIsSafe();
    SafePathIsKept(RefreshUrl(site, b));
    assert RefreshUrl(site, b).query == [Param(REDIRECT_PARAM, Link(Back(site, b)))];
  }

  lemma CounterAdvances(site: Site, b: Browser)
    requires Counter(site, b.at) < site.proxy.maxRefreshAttempts <= MAX_SAFE_INTEGER
    ensures Counter(site, Back(site, b)) == Counter(site, b.at) + 1
  {
    hide NormalizePath, ReadRefreshAttemptCounter, BuildRefreshDestination;
    CounterSurvivesTheRoundTrip(NormalizePath(b.at.path, site.proxy.hostParses), b.at.query,
                                Counter(site, b.at) + 1, site.proxy.maxRefreshAttempts);
  }

  lemma NonApiPath(pathname: string)
    requires !StartsWith(pathname, API_PREFIX)
    ensures pathname != SILENT_REFRESH_PATH
  {
    assert SILENT_REFRESH_PATH == API_PREFIX + "silent-refresh";
  }

  lemma BackIsOrdinary(site: Site, b: Browser)
    requires !KindOf(site.proxy, b.at.path).Api? && IsOrdinary(site, b.at)
    ensures Back(site, b).path != SILENT_REFRESH_PATH && IsOrdinary(site, Back(site, b))
  {
    hide NormalizePath, IsSafePath, Set, Delete;
    var pathname := NormalizePath(b.at.path, site.proxy.hostParses);
    SafePathIsNormal(pathname, site.proxy.hostParses);
    NonApiPath(pathname);
  }

  lemma BudgetOfPage(site: Site, walk: nat, t: Target)
    requires t.path != SILENT_REFRESH_PATH && IsOrdinary(site, t)
    ensures Budget(site, walk, t) == PageBudget(site, walk, t)
  {
    hide IsOrdinary, PageBudget, FullBudget, Landing;
  }

  lemma BackBudget(site: Site, walk: nat, b: Browser)
    requires !KindOf(site.proxy, b.at.path).Api? && IsOrdinary(site, b.at)
    requires Counter(site, b.at) < site.proxy.maxRefreshAttempts <= MAX_SAFE_INTEGER
    ensures Budget(site, walk, Back(site, b)) == PageBudget(site, walk, b.at) - 2
  {
    hide Budget, IsOrdinary, ReadRefreshAttemptCounter, NormalizePath, Classify, IsSafePath;
    CounterAdvances(site, b);
    BackIsOrdinary(site, b);
    BudgetOfPage(site, walk, Back(site, b));
  }

  /** Trying a refresh spends one unit of the counter, which pays for the two redirects it costs. */
  lemma RefreshAttemptDescends(site: Site, walk: nat, b: Browser)
    requires site.proxy.maxRefreshAttempts <= MAX_SAFE_INTEGER && IsSafePath(site.handlerLogin.path)
    requires b.at.path != SILENT_REFRESH_PATH
    requires !KindOf(site.proxy, b.at.path).Api? && !GivesUp(site, b)
    ensures ToSameOriginPath(RefreshUrl(site, b)) == RefreshUrl(site, b)
    ensures Budget(site, walk, RefreshUrl(site, b)) < Budget(site, walk, b.at)
  {
    RefreshUrlBudget(site, walk, b);
    LinkKept(site, Back(site, b));
    if IsOrdinary(site, b.at) {
      BackBudget(site, walk, b);
    }
  }

  /** The three places an unauthenticated page request can be sent to. */
  lemma UnauthenticatedHop(site: Site, b: Browser, choice: Choice)
    requires b.at.path != SILENT_REFRESH_PATH && !IsAuthenticated(b.jar)
    ensures var next := Hop(site, b, choice);
      next.Some? ==>
        && !KindOf(site.proxy, b.at.path).Api?
        && next.value.jar == b.jar
        && (next.value.at ==
              if !GivesUp(site, b) then ToSameOriginPath(RefreshUrl(site, b))
              else if !b.jar.hasSession && (b.jar.access.None? || !StopsRefreshing(site, b))
              then ToSameOriginPath(LoginPage(site.proxy))
              else ToSameOriginPath(WithQueryParam(LoginPage(site.proxy), REASON_PARAM, REASON_EXPIRED)))
        && (GivesUp(site, b) ==> KindOf(site.proxy, b.at.path).Protected?)
  {
    hide Classify, NormalizePath, Sanitized, ReadRefreshAttemptCounter, BlockedStatus, WithIdentity,
      IsBackgroundRequest, AnyPublicRoute, Set, Delete, Get, Has, Position, IsReasonExpired;
  }

  lemma UnauthenticatedHopDescends(site: Site, walk: nat, b: Browser, choice: Choice)
    requires IsGrounded(site)
    requires b.at.path != SILENT_REFRESH_PATH && !IsAuthenticated(b.jar)
    ensures var next := Hop(site, b, choice);
      next.Some? ==> Rank(site, walk, next.value) < Rank(site, walk, b)
  {
    hide Hop, KindOf, LoginPage, Budget, Back, ToSameOriginPath, IsSafePath;
    UnauthenticatedHop(site, b, choice);
    var kind := KindOf(site.proxy, b.at.path);
    if !kind.Api? && !GivesUp(site, b) {
      RefreshAttemptDescends(site, walk, b);
    } else if kind.Protected? {
      LoginPageIsSafe(site.proxy);
      LoginWithReasonRests(site, walk, LoginPage(site.proxy), REASON_EXPIRED, b.jar);
      if !b.jar.hasSession {
        SignedOutLoginRests(site, walk, LoginPage(site.proxy), b.jar);
      }
    }
  }

  // ---- signed-in visitors ----

  lemma StopsAreSafe(config: Config, role: string, t: Target)
    requires t in Stops(config, role)
    ensures ToSameOriginPath(t) == t
  {
    hide Set;
    RootIsSafe();
    SafePathIsKept(t);
  }

  /** A signed-in visitor who is not blocked makes exactly the hop of the role, or is refused in the background. */
  lemma SignedInHop(site: Site, b: Browser, choice: Choice)
    requires b.at.path != SILENT_REFRESH_PATH && IsAuthenticated(b.jar)
    requires !IsBlocked(site, b.jar.access.value.claims)
    ensures var next := RoleHop(site.proxy, Role(b.jar.access.value.claims), b.at);
      var there := if next.None? then None else Some(Browser(next.value, b.jar));
      if IsBackgroundRequest(choice.headers) then Hop(site, b, choice) == there || Hop(site, b, choice).None?
      else Hop(site, b, choice) == there
  {
    hide Classify, NormalizePath, Sanitized, ReadRefreshAttemptCounter, BlockedStatus, WithIdentity, Stops,
      IsBackgroundRequest, AnyPublicRoute, Set, Delete, IsReasonExpired, DashboardOf, ForbiddenDestination,
      ToSameOriginPath;
    var role := Role(b.jar.access.value.claims);
    if RoleHop(site.proxy, role, b.at).Some? {
      HopsLeadToStops(site.proxy, role, b.at);
      StopsAreSafe(site.proxy, role, RoleHop(site.proxy, role, b.at).value);
    }
  }

  lemma BlockedReasonIsPresent(claims: Claims, blocked: seq<string>)
    ensures var r := BlockedStatus(claims, blocked);
      r.Some? ==> r.value != ""
  {
    if claims.status.Some? && claims.status.value != "" && blocked != [] {
      if AsciiLower(blocked[0]) == AsciiLower(claims.status.value) {
        assert |AsciiLower(blocked[0])| == |claims.status.value| > 0;
      } else {
        BlockedReasonIsPresent(claims, blocked[1..]);
      }
    }
  }

  /** A blocked visitor is sent to the login page with the status as reason, or on from a guest page. */
  lemma BlockedHop(site: Site, b: Browser, choice: Choice)
    requires b.at.path != SILENT_REFRESH_PATH && IsAuthenticated(b.jar)
    requires IsBlocked(site, b.jar.access.value.claims)
    ensures var claims := b.jar.access.value.claims;
      var reason := BlockedStatus(claims, site.proxy.blockedUserStatuses).value;
      var next := Hop(site, b, choice);
      next.Some? ==>
        && next.value.jar == b.jar
        && if KindOf(site.proxy, b.at.path).Protected?
           then next.value.at == ToSameOriginPath(WithQueryParam(LoginPage(site.proxy), REASON_PARAM, reason))
           else
             && IsGuestPage(site.proxy, b.at)
             && next.value.at == ToSameOriginPath(DashboardOf(site.proxy, Role(claims)))
  {
    hide Classify, NormalizePath, Sanitized, ReadRefreshAttemptCounter, BlockedStatus, WithIdentity,
      IsBackgroundRequest, AnyPublicRoute, Set, Delete, IsReasonExpired, DashboardOf, ForbiddenDestination,
      ToSameOriginPath;
    BlockedReasonIsPresent(b.jar.access.value.claims, site.proxy.blockedUserStatuses);
  }

  lemma OneHop(config: Config, role: string, t: Target)
    ensures Walk(config, role, t, 1) == RoleHop(config, role, t)
  {
    hide RoleHop;
    if RoleHop(config, role, t).Some? {
      assert Walk(config, role, RoleHop(config, role, t).value, 0) == RoleHop(config, role, t);
    }
  }

  /** A dashboard from which the role's walk settles is not a guest page. */
  lemma DashboardIsNoGuestPage(site: Site, role: string, walk: nat)
    requires RoleRests(site, role, walk)
    ensures !IsGuestPage(site.proxy, DashboardOf(site.proxy, role))
  {
    hide Stops, DashboardOf, Walk;
    var d := DashboardOf(site.proxy, role);
    if IsGuestPage(site.proxy, d) {
      GuestPageHop(site.proxy, role, d);
      assert Walk(site.proxy, role, d, 1) == Some(d) by {
        OneHop(site.proxy, role, d);
      }
      assert SettlesBy(site.proxy, role, d, walk);
      CyclesNeverSettle(site.proxy, role, d, 1, walk + 1);
    }
  }

  lemma DashboardIsAStop(config: Config, role: string)
    ensures DashboardOf(config, role) in Stops(config, role)
  {
  }

  lemma BlockedHopDescends(site: Site, walk: nat, b: Browser, choice: Choice)
    requires IsGrounded(site)
    requires b.at.path != SILENT_REFRESH_PATH && IsAuthenticated(b.jar)
    requires IsBlocked(site, b.jar.access.value.claims)
    requires RoleRests(site, Role(b.jar.access.value.claims), walk)
    ensures var next := Hop(site, b, choice);
      next.Some? ==> Rank(site, walk, next.value) < Rank(site, walk, b)
  {
    hide Hop, KindOf, IsGuestPage, LoginPage, DashboardOf, Stops, SettlesWithin, ToSameOriginPath, IsSafePath,
      BlockedStatus;
    var claims := b.jar.access.value.claims;
    var role := Role(claims);
    BlockedHop(site, b, choice);
    if KindOf(site.proxy, b.at.path).Protected? {
      LoginPageIsSafe(site.proxy);
      LoginWithReasonRests(site, walk, LoginPage(site.proxy),
        BlockedStatus(claims, site.proxy.blockedUserStatuses).value, b.jar);
    } else {
      DashboardIsNoGuestPage(site, role, walk);
      DashboardIsAStop(site.proxy, role);
      StopsAreSafe(site.proxy, role, DashboardOf(site.proxy, role));
    }
  }

  lemma AuthenticatedHopDescends(site: Site, walk: nat, b: Browser, choice: Choice)
    requires IsGrounded(site)
    requires b.at.path != SILENT_REFRESH_PATH && IsAuthenticated(b.jar)
    requires RoleRests(site, Role(b.jar.access.value.claims), walk)
    ensures var next := Hop(site, b, choice);
      next.Some? ==> Rank(site, walk, next.value) < Rank(site, walk, b)
  {
    hide Hop, RoleHop, Walk, Stops, Length, IsBlocked, BlockedRank, IsGrounded;
    var role := Role(b.jar.access.value.claims);
    if IsBlocked(site, b.jar.access.value.claims) {
      BlockedHopDescends(site, walk, b, choice);
    } else {
      SignedInHop(site, b, choice);
      if RoleHop(site.proxy, role, b.at).Some? {
        HopsLeadToStops(site.proxy, role, b.at);
        assert SettlesBy(site.proxy, role, b.at, walk);
        LengthFalls(site.proxy, role, b.at, walk);
      }
    }
  }

  // ---- whole chains ----

  lemma HopDescends(site: Site, walk: nat, b: Browser, choice: Choice)
    requires IsGrounded(site) && walk >= 2 && JarRests(site, b.jar, walk)
    ensures var next := Hop(site, b, choice);
      next.Some? ==> Rank(site, walk, next.value) < Rank(site, walk, b)
  {
    hide Hop, Rank, RoleRests;
    if b.at.path == SILENT_REFRESH_PATH {
      HandlerHopDescends(site, walk, b, choice);
    } else if IsAuthenticated(b.jar) {
      AuthenticatedHopDescends(site, walk, b, choice);
    } else {
      UnauthenticatedHopDescends(site, walk, b, choice);
    }
  }

  /** A hop brings no cookies but the old ones, none, or the rotated ones. */
  lemma HopKeepsJar(site: Site, walk: nat, b: Browser, choice: Choice)
    requires JarRests(site, b.jar, walk) && JarRests(site, choice.rotated, walk)
    ensures var next := Hop(site, b, choice);
      next.Some? ==> JarRests(site, next.value.jar, walk)
  {
    hide RunProxy, RoleRests;
  }

  lemma {:induction false} RankFalls(site: Site, walk: nat, b: Browser, oracle: nat -> Choice, n: nat)
    requires IsGrounded(site) && walk >= 2
    requires JarRests(site, b.jar, walk) && forall i: nat :: JarRests(site, oracle(i).rotated, walk)
    ensures var now := Follow(site, b, oracle, n);
      now.Some? ==> JarRests(site, now.value.jar, walk) && Rank(site, walk, now.value) + n <= Rank(site, walk, b)
  {
    hide Hop, Rank, IsGrounded, JarRests;
    if n > 0 {
      RankFalls(site, walk, b, oracle, n - 1);
      var before := Follow(site, b, oracle, n - 1);
      if before.Some? {
        HopDescends(site, walk, before.value, oracle(n - 1));
        HopKeepsJar(site, walk, before.value, oracle(n - 1));
      }
    }
  }

  /**
   * No redirect loop: from any URL and any cookies, whatever the headers and the upstream's
   * answers at each hop, a page is rendered after at most `Budget` redirects. All that is asked
   * of the cookies is that the roles they carry come to rest.
   */
  lemma ChainsTerminate(site: Site, walk: nat, b: Browser, oracle: nat -> Choice, n: nat)
    requires IsGrounded(site) && walk >= 2
    requires JarRests(site, b.jar, walk) && forall i: nat :: JarRests(site, oracle(i).rotated, walk)
    requires n > Budget(site, walk, b.at)
    ensures Follow(site, b, oracle, n) == None
  {
    hide Follow, Rank, Budget, JarRests;
    RankFalls(site, walk, b, oracle, n);
    RankWithinBudget(site, walk, b);
  }

  /** From an ordinary page that is at most `2 * maxRefreshAttempts + walk` redirects. */
  lemma OrdinaryPagesSettle(site: Site, walk: nat, b: Browser, oracle: nat -> Choice, n: nat)
    requires IsGrounded(site) && walk >= 2
    requires JarRests(site, b.jar, walk) && forall i: nat :: JarRests(site, oracle(i).rotated, walk)
    requires b.at.path != SILENT_REFRESH_PATH && IsOrdinary(site, b.at)
    requires n > 2 * site.proxy.maxRefreshAttempts + walk
    ensures Follow(site, b, oracle, n) == None
  {
    hide Follow, JarRests, IsOrdinary;
    BudgetOfPage(site, walk, b.at);
    ChainsTerminate(site, walk, b, oracle, n);
  }

  /** A role under the readable rules, none of whose pages is the silent-refresh route. */
  predicate IsWellRouted(site: Site, role: string) {
    AvoidsHandler(site.proxy, role) && GoodRules(site.proxy, role)
  }

  predicate CarriesWellRouted(site: Site, jar: Jar) {
    IsAuthenticated(jar) ==> IsWellRouted(site, Role(jar.access.value.claims))
  }

  lemma WellRoutedJarRests(site: Site, jar: Jar)
    requires CarriesWellRouted(site, jar)
    ensures JarRests(site, jar, 2)
  {
    hide GoodRules, AvoidsHandler, SettlesWithin;
    if IsAuthenticated(jar) {
      GoodRulesSettle(site.proxy, Role(jar.access.value.claims));
    }
  }

  /** For visitors whose roles keep the readable rules the bound is `2 * maxRefreshAttempts + 2`. */
  lemma WellRoutedVisitorsSettle(site: Site, b: Browser, oracle: nat -> Choice, n: nat)
    requires IsGrounded(site)
    requires CarriesWellRouted(site, b.jar) && forall i: nat :: CarriesWellRouted(site, oracle(i).rotated)
    requires b.at.path != SILENT_REFRESH_PATH && IsOrdinary(site, b.at)
    requires n > 2 * site.proxy.maxRefreshAttempts + 2
    ensures Follow(site, b, oracle, n) == None
  {
    hide Follow, IsOrdinary, IsGrounded, RoleRests, IsWellRouted;
    WellRoutedJarRests(site, b.jar);
    forall i: nat ensures JarRests(site, oracle(i).rotated, 2) {
      WellRoutedJarRests(site, oracle(i).rotated);
    }
    OrdinaryPagesSettle(site, 2, b, oracle, n);
  }

  // ---- the retry counter ----

  /** The upstream keeps answering 2xx with cookies that do not authenticate. */
  predicate IsStubborn(choice: Choice, jar: Jar) {
    && !IsBackgroundRequest(choice.headers)
    && !IsCrossSiteRequest(choice.headers)
    && choice.upstream.Answered? && choice.upstream.ok && choice.upstream.setCookies != []
    && choice.rotated == jar
  }

  predicate IsRetrying(site: Site, b: Browser, jar: Jar, attempts: nat) {
    && b.jar == jar
    && IsSafePath(b.at.path)
    && KindOf(site.proxy, b.at.path).Protected?
    && Counter(site, b.at) == attempts
    && !IsReasonExpired(b.at.query)
  }

  lemma RetryingAgain(site: Site, b: Browser, jar: Jar, attempts: nat)
    requires site.proxy.maxRefreshAttempts <= MAX_SAFE_INTEGER
    requires IsRetrying(site, b, jar, attempts) && attempts < site.proxy.maxRefreshAttempts
    ensures IsRetrying(site, Browser(Back(site, b), jar), jar, attempts + 1)
  {
    hide Classify, ReadRefreshAttemptCounter, Set, Delete, Decimal;
    SafePathIsNormal(b.at.path, site.proxy.hostParses);
    CounterSurvivesTheRoundTrip(b.at.path, b.at.query, attempts + 1, site.proxy.maxRefreshAttempts);
  }

  lemma HandlerReturns(site: Site, b: Browser, jar: Jar, choice: Choice)
    requires IsSafePath(site.handlerLogin.path)
    requires IsStubborn(choice, jar) && IsSafePath(Back(site, b).path)
    ensures Hop(site, Browser(RefreshUrl(site, b), jar), choice) == Some(Browser(Back(site, b), jar))
  {
    SilentRefreshIsApi(site.proxy);
    hide Classify, NormalizePath, IsSafePath, Back, ResolveSafeDestination, ToSameOriginPath, SetCookie.Dedupe,
      Sanitized, HandleProtectedRoute, HandlePublicRoute, IsBackgroundRequest, IsCrossSiteRequest;
    assert RefreshUrl(site, b).query == [Param(REDIRECT_PARAM, Link(Back(site, b)))];
    assert Get(RefreshUrl(site, b).query, REDIRECT_PARAM) == Some(Link(Back(site, b)));
    LinkKept(site, Back(site, b));
  }

  lemma RetryHop(site: Site, b: Browser, jar: Jar, attempts: nat, choice: Choice)
    requires IsRetrying(site, b, jar, attempts) && attempts < site.proxy.maxRefreshAttempts
    requires !IsAuthenticated(jar) && jar.hasSession
    requires IsStubborn(choice, jar)
    ensures Hop(site, b, choice) == Some(Browser(RefreshUrl(site, b), jar))
  {
    hide Classify, NormalizePath, Sanitized, ReadRefreshAttemptCounter, BlockedStatus, WithIdentity,
      IsBackgroundRequest, AnyPublicRoute, Set, Delete, Get, Has, Position, IsReasonExpired;
    SilentRefreshIsApi(site.proxy);
    SilentRefreshIsSafe();
    SafePathIsKept(RefreshUrl(site, b));
  }

  /** One refresh that changes nothing: two redirects later the same page is asked for again. */
  lemma StubbornRound(site: Site, b: Browser, jar: Jar, attempts: nat, first: Choice, second: Choice)
    requires site.proxy.maxRefreshAttempts <= MAX_SAFE_INTEGER && IsSafePath(site.handlerLogin.path)
    requires IsRetrying(site, b, jar, attempts) && attempts < site.proxy.maxRefreshAttempts
    requires !IsAuthenticated(jar) && jar.hasSession
    requires IsStubborn(first, jar) && IsStubborn(second, jar)
    ensures Hop(site, b, first) == Some(Browser(RefreshUrl(site, b), jar))
    ensures Hop(site, Browser(RefreshUrl(site, b), jar), second) == Some(Browser(Back(site, b), jar))
    ensures IsRetrying(site, Browser(Back(site, b), jar), jar, attempts + 1)
  {
    hide Hop;
    RetryHop(site, b, jar, attempts, first);
    RetryingAgain(site, b, jar, attempts);
    HandlerReturns(site, b, jar, second);
  }

  lemma RetryingKeepsJar(site: Site, b: Browser, jar: Jar, attempts: nat)
    requires IsRetrying(site, b, jar, attempts)
    ensures b.jar == jar
  {
  }

  lemma {:induction false} StubbornRounds(site: Site, b: Browser, oracle: nat -> Choice, k: nat)
    requires site.proxy.maxRefreshAttempts <= MAX_SAFE_INTEGER && IsSafePath(site.handlerLogin.path)
    requires IsRetrying(site, b, b.jar, 0)
    requires !IsAuthenticated(b.jar) && b.jar.hasSession
    requires forall i: nat :: IsStubborn(oracle(i), b.jar)
    requires k <= site.proxy.maxRefreshAttempts
    ensures var now := Follow(site, b, oracle, 2 * k);
      now.Some? && IsRetrying(site, now.value, b.jar, k)
  {
    hide Hop, IsRetrying, IsStubborn, IsSafePath;
    if k > 0 {
      StubbornRounds(site, b, oracle, k - 1);
      var before := Follow(site, b, oracle, 2 * (k - 1)).value;
      RetryingKeepsJar(site, before, b.jar, k - 1);
      StubbornRound(site, before, b.jar, k - 1, oracle(2 * k - 2), oracle(2 * k - 1));
      assert Follow(site, b, oracle, 2 * k - 1) == Some(Browser(RefreshUrl(site, before), b.jar));
    }
  }

  lemma CountedOut(site: Site, b: Browser, choice: Choice)
    requires IsGrounded(site)
    requires IsRetrying(site, b, b.jar, site.proxy.maxRefreshAttempts)
    requires !IsAuthenticated(b.jar) && b.jar.hasSession
    requires IsStubborn(choice, b.jar)
    ensures Hop(site, b, choice) ==
      Some(Browser(WithQueryParam(LoginPage(site.proxy), REASON_PARAM, REASON_EXPIRED), b.jar))
  {
    hide Classify, NormalizePath, Sanitized, ReadRefreshAttemptCounter, BlockedStatus, WithIdentity,
      IsBackgroundRequest, AnyPublicRoute, Set, Delete, Get, Has, Position, IsReasonExpired, IsSafePath;
    SilentRefreshIsApi(site.proxy);
    LoginPageIsSafe(site.proxy);
    LoginWithReasonRests(site, 2, LoginPage(site.proxy), REASON_EXPIRED, b.jar);
  }

  lemma ExpiredLoginRenders(site: Site, jar: Jar, choice: Choice)
    requires IsGrounded(site) && !IsAuthenticated(jar)
    ensures Hop(site, Browser(WithQueryParam(LoginPage(site.proxy), REASON_PARAM, REASON_EXPIRED), jar), choice) == None
  {
    hide Hop, KindOf, LoginPage, IsSafePath, Rank;
    var b := Browser(WithQueryParam(LoginPage(site.proxy), REASON_PARAM, REASON_EXPIRED), jar);
    LoginPageIsSafe(site.proxy);
    LoginWithReasonRests(site, 2, LoginPage(site.proxy), REASON_EXPIRED, jar);
    UnauthenticatedHopDescends(site, 2, b, choice);
  }

  /**
   * The counter is what ends a chain whose upstream never admits failure: the visitor is sent to
   * the login page after exactly `2 * maxRefreshAttempts + 1` redirects, and it renders there.
   */
  lemma StubbornUpstreamIsCountedOut(site: Site, b: Browser, oracle: nat -> Choice)
    requires IsGrounded(site)
    requires IsRetrying(site, b, b.jar, 0)
    requires !IsAuthenticated(b.jar) && b.jar.hasSession
    requires forall i: nat :: IsStubborn(oracle(i), b.jar)
    ensures var m := site.proxy.maxRefreshAttempts;
      && Follow(site, b, oracle, 2 * m + 1) ==
           Some(Browser(WithQueryParam(LoginPage(site.proxy), REASON_PARAM, REASON_EXPIRED), b.jar))
      && Follow(site, b, oracle, 2 * m + 2) == None
  {
    hide Hop, IsRetrying, IsStubborn, IsSafePath, KindOf, LoginPage;
    var m := site.proxy.maxRefreshAttempts;
    StubbornRounds(site, b, oracle, m);
    var last := Follow(site, b, oracle, 2 * m).value;
    RetryingKeepsJar(site, last, b.jar, m);
    CountedOut(site, last, oracle(2 * m));
    ExpiredLoginRenders(site, b.jar, oracle(2 * m + 1));
    var login := Browser(WithQueryParam(LoginPage(site.proxy), REASON_PARAM, REASON_EXPIRED), b.jar);
    assert Follow(site, b, oracle, 2 * m + 1) == Some(login);
  }
}
