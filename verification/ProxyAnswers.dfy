/**
 * What the proxy answers, said in terms of the fields of the request and of the configuration
 * alone: every kind of answer, and exactly when it is given.
 */
module ProxyAnswers {
  import opened Strings
  import opened Urls
  import opened Routes
  import opened ProxyHeaders
  import opened AuthProxy

  // ---- what the fields of a request say ----

  predicate HoldsValidToken(r: Request) {
    && r.cookies.access.Some?
    && r.cookies.access.value.isValid
    && r.cookies.access.value.tokenType in {Some("dashboard"), Some("platform")}
  }

  /** A framework prefetch: one of the three headers is there and not empty. */
  predicate IsPrefetch(r: Request) {
    exists name :: name in {"rsc", "next-router-prefetch", "next-router-state-tree"}
      && name in r.headers && r.headers[name] != ""
  }

  /** The status claim equals an entry of the configured list, whatever the case of either. */
  predicate HasBlockedStatus(config: Config, claims: Claims) {
    && claims.status.Some? && claims.status.value != ""
    && exists i :: 0 <= i < |config.blockedUserStatuses|
         && AsciiLower(config.blockedUserStatuses[i]) == AsciiLower(claims.status.value)
  }

  /** Everything a protected page asks of a request. */
  predicate IsLetIn(config: Config, r: Request, route: ProtectedRoute) {
    && HoldsValidToken(r)
    && !HasBlockedStatus(config, r.cookies.access.value.claims)
    && r.cookies.access.value.claims.role.GetOr("") in route.allowedRoles
  }

  /** Nothing yet says that refreshing is pointless. */
  predicate MayTryAgain(config: Config, r: Request) {
    && ReadRefreshAttemptCounter(r.target.query, config.maxRefreshAttempts) < config.maxRefreshAttempts
    && Get(r.target.query, "reason") != Some(Text("expired"))
  }

  predicate MayRefresh(config: Config, r: Request) {
    !HoldsValidToken(r) && r.cookies.hasSession && MayTryAgain(config, r)
  }

  function PathOf(config: Config, r: Request): string {
    NormalizePath(r.target.path, config.hostParses)
  }

  function KindOfPage(config: Config, r: Request): RouteKind {
    Classify(PathOf(config, r), config.routes)
  }

  // ---- where it sends people ----

  function SafeOr(candidate: Target, fallback: Target): Target {
    if IsSafePath(candidate.path) then candidate else fallback
  }

  function Login(config: Config): Target {
    SafeOr(config.loginPath, Target("/", []))
  }

  function Dashboard(config: Config, role: string): Target {
    SafeOr(config.dashboard(role), Target("/", []))
  }

  /** The silent-refresh URL that leads back here with one attempt more on the counter. */
  function RefreshTrip(config: Config, r: Request): Target {
    var attempts := ReadRefreshAttemptCounter(r.target.query, config.maxRefreshAttempts);
    var query := Delete(Delete(r.target.query, "_r"), "reason");
    Target("/api/auth/silent-refresh",
      [Param("redirect", Link(Target(PathOf(config, r), Set(query, "_r", Text(Decimal(attempts + 1))))))])
  }

  lemma RootIsSafePath()
    ensures IsSafePath("/")
  {
    assert !StartsWith("/", "//");
  }

  lemma SafeOrIsKept(candidate: Target)
    ensures ToSameOriginPath(SafeOr(candidate, Target("/", []))) == SafeOr(candidate, Target("/", []))
    ensures IsSafePath(SafeOr(candidate, Target("/", [])).path)
  {
    hide IsSafePath;
    assert IsSafePath("/") by {
      RootIsSafePath();
    }
    SafePathIsKept(SafeOr(candidate, Target("/", [])));
  }

  lemma SilentRefreshPathIsKept(query: seq<Param>)
    ensures ToSameOriginPath(Target("/api/auth/silent-refresh", query)) == Target("/api/auth/silent-refresh", query)
  {
    var path := "/api/auth/silent-refresh";
    assert path[0] == '/' && path[1] == 'a' && "//"[1] == '/' && "/"[0] == '/';
    assert "/" <= path;
    SafePathIsKept(Target(path, query));
  }

  lemma LoginAnswer(config: Config, reason: string)
    ensures RedirectToLogin(config, reason) ==
      Redirect(if reason == "" then Login(config) else WithQueryParam(Login(config), "reason", reason))
  {
    SafeOrIsKept(config.loginPath);
    hide IsSafePath, Set;
    SafePathIsKept(WithQueryParam(Login(config), "reason", reason));
  }

  lemma DashboardAnswer(config: Config, role: string)
    ensures RedirectTo(DashboardOf(config, role)) == Redirect(Dashboard(config, role))
  {
    hide IsSafePath, ToSameOriginPath;
    SafeOrIsKept(config.dashboard(role));
  }

  lemma ForbiddenAnswer(config: Config, route: ProtectedRoute, role: string)
    ensures RedirectTo(ForbiddenDestination(config, route, role)) ==
      Redirect(WithQueryParam(
        if route.redirectPath.Some? then SafeOr(route.redirectPath.value, Dashboard(config, role))
        else Dashboard(config, role), "error", "forbidden"))
  {
    SafeOrIsKept(config.dashboard(role));
    hide IsSafePath, Set;
    SafePathIsKept(ForbiddenDestination(config, route, role));
  }

  lemma RefreshAnswer(config: Config, r: Request)
    ensures var attempts := ReadRefreshAttemptCounter(r.target.query, config.maxRefreshAttempts);
      RedirectTo(BuildSilentRefreshPath(
        BuildRefreshDestination(PathOf(config, r), r.target.query, attempts + 1))) ==
      Redirect(RefreshTrip(config, r))
  {
    hide ReadRefreshAttemptCounter, NormalizePath, Set, Delete;
    SilentRefreshPathIsKept(RefreshTrip(config, r).query);
  }

  // ---- reading the fields as the code does ----

  lemma TokenIsRead(r: Request)
    ensures IsAuthenticated(r.cookies) <==> HoldsValidToken(r)
  {
  }

  lemma PrefetchIsRead(r: Request)
    ensures IsBackgroundRequest(r.headers) <==> IsPrefetch(r)
  {
  }

  /** The reason given is the lowered claim, so it never spells anything the list does not hold. */
  lemma {:induction false} StatusIsRead(claims: Claims, blocked: seq<string>)
    ensures BlockedStatus(claims, blocked) ==
      if claims.status.Some? && claims.status.value != ""
         && (exists i :: 0 <= i < |blocked| && AsciiLower(blocked[i]) == AsciiLower(claims.status.value))
      then Some(AsciiLower(claims.status.value)) else None
  {
    if claims.status.Some? && claims.status.value != "" && blocked != [] {
      StatusIsRead(claims, blocked[1..]);
      assert forall i :: 0 < i < |blocked| ==> blocked[i] == blocked[1..][i - 1];
      assert forall i :: 0 <= i < |blocked[1..]| ==> blocked[1..][i] == blocked[i + 1];
    }
  }

  // ---- the answers ----

  lemma ApiPassesThrough(config: Config, r: Request)
    requires KindOfPage(config, r).Api?
    ensures RunProxy(config, r) == Next(Sanitized(r.headers, config.userHeaders))
  {
  }

  /**
   * A protected page reaches the application exactly for a request that is let in, with the
   * identity of its token; a prefetch that is not let in is refused, and anyone else is sent to
   * refresh, to the login page or to the page for denied roles.
   */
  lemma ProtectedPagesAreGuarded(config: Config, r: Request)
    requires KindOfPage(config, r).Protected?
    ensures var route := KindOfPage(config, r).route;
      var response := RunProxy(config, r);
      && (response.Next? || response.Rewrite? <==> IsLetIn(config, r, route))
      && (response == Refuse(401) <==> !HoldsValidToken(r) && IsPrefetch(r))
      && (response == Refuse(403) <==> HoldsValidToken(r) && IsPrefetch(r) && !IsLetIn(config, r, route))
      && (response.Redirect? <==> !IsPrefetch(r) && !IsLetIn(config, r, route))
  {
    hide IsAuthenticated, IsBackgroundRequest, IsPrefetch, BlockedStatus, Classify, NormalizePath, Sanitized,
      WithIdentity, ToSameOriginPath, ReadRefreshAttemptCounter, Delete, Set, DashboardOf, ForbiddenDestination;
    TokenIsRead(r);
    PrefetchIsRead(r);
    if r.cookies.access.Some? {
      StatusIsRead(r.cookies.access.value.claims, config.blockedUserStatuses);
    }
  }

  /** What a page that is let in is handed: the token's identity, and a URL without the counter. */
  lemma LetInRequestsCarryIdentity(config: Config, r: Request)
    requires KindOfPage(config, r).Protected? && IsLetIn(config, r, KindOfPage(config, r).route)
    ensures var headers := WithIdentity(
        Sanitized(r.headers, config.userHeaders), config.userHeaders, r.cookies.access.value.claims);
      RunProxy(config, r) ==
        if Has(r.target.query, "_r") then Rewrite(Target(r.target.path, Delete(r.target.query, "_r")), headers)
        else Next(headers)
  {
    hide IsAuthenticated, IsBackgroundRequest, IsPrefetch, BlockedStatus, Classify, NormalizePath,
      Sanitized, WithIdentity, RedirectToLogin, RedirectTo, ReadRefreshAttemptCounter, Delete;
    TokenIsRead(r);
    PrefetchIsRead(r);
    StatusIsRead(r.cookies.access.value.claims, config.blockedUserStatuses);
  }

  /** Where a foreground visitor who is not let in is sent. */
  lemma RefusedVisitorsAreSentAway(config: Config, r: Request)
    requires KindOfPage(config, r).Protected? && !IsPrefetch(r)
    requires !IsLetIn(config, r, KindOfPage(config, r).route)
    ensures var route := KindOfPage(config, r).route;
      RunProxy(config, r) == Redirect(
        if MayRefresh(config, r) then RefreshTrip(config, r)
        else if !HoldsValidToken(r) then
          if (r.cookies.access.Some? || r.cookies.hasSession) && !MayTryAgain(config, r)
          then WithQueryParam(Login(config), "reason", "expired") else Login(config)
        else
          var claims := r.cookies.access.value.claims;
          if HasBlockedStatus(config, claims)
          then WithQueryParam(Login(config), "reason", AsciiLower(claims.status.value))
          else WithQueryParam(
            if route.redirectPath.Some?
            then SafeOr(route.redirectPath.value, Dashboard(config, claims.role.GetOr("")))
            else Dashboard(config, claims.role.GetOr("")), "error", "forbidden"))
  {
    hide IsAuthenticated, IsBackgroundRequest, IsPrefetch, BlockedStatus, Classify, NormalizePath,
      Sanitized, WithIdentity, RedirectToLogin, RedirectTo, ReadRefreshAttemptCounter, Delete, Set, RefreshTrip,
      ForbiddenDestination, Login, Dashboard, SafeOr, BuildRefreshDestination, BuildSilentRefreshPath;
    TokenIsRead(r);
    PrefetchIsRead(r);
    RefreshAnswer(config, r);
    LoginAnswer(config, "");
    LoginAnswer(config, "expired");
    if r.cookies.access.Some? {
      var claims := r.cookies.access.value.claims;
      StatusIsRead(claims, config.blockedUserStatuses);
      if claims.status.Some? {
        LoginAnswer(config, AsciiLower(claims.status.value));
      }
      ForbiddenAnswer(config, KindOfPage(config, r).route, claims.role.GetOr(""));
    }
  }

  /**
   * An open page: an unauthenticated prefetch is refused; a visitor whose token may be refreshed is
   * sent to refresh; a signed-in visitor of a guest page that gives no reason is sent to the
   * dashboard; everyone else gets the page, with no identity header at all.
   */
  lemma OpenPagesAnswer(config: Config, r: Request)
    requires KindOfPage(config, r).Public? || KindOfPage(config, r).Unmatched?
    ensures RunProxy(config, r) ==
      if IsPrefetch(r) && !HoldsValidToken(r) then Refuse(401)
      else if MayRefresh(config, r) then Redirect(RefreshTrip(config, r))
      else if HoldsValidToken(r) && AnyPublicRoute(PathOf(config, r), config.redirectIfAuthenticated)
              && Get(r.target.query, "reason").None?
      then Redirect(Dashboard(config, r.cookies.access.value.claims.role.GetOr("")))
      else Next(Sanitized(r.headers, config.userHeaders))
  {
    hide IsAuthenticated, IsBackgroundRequest, IsPrefetch, Classify, NormalizePath, Sanitized,
      RedirectTo, ReadRefreshAttemptCounter, Delete, Set, RefreshTrip, Dashboard, DashboardOf, AnyPublicRoute,
      BuildRefreshDestination, BuildSilentRefreshPath, HandleProtectedRoute;
    TokenIsRead(r);
    PrefetchIsRead(r);
    RefreshAnswer(config, r);
    if r.cookies.access.Some? {
      DashboardAnswer(config, r.cookies.access.value.claims.role.GetOr(""));
    }
  }

  /** An identity header reaches a page only from the token of a request that was let in. */
  lemma IdentityComesFromTheToken(config: Config, r: Request)
    ensures var response := RunProxy(config, r);
      var kind := KindOfPage(config, r);
      if kind.Protected? && IsLetIn(config, r, kind.route) then
        ForwardedHeaders(response) == WithIdentity(
          Sanitized(r.headers, config.userHeaders), config.userHeaders, r.cookies.access.value.claims)
      else
        forall name :: name in IdentityNames(config.userHeaders) ==> name !in ForwardedHeaders(response)
  {
    hide RunProxy, IsLetIn, Classify, NormalizePath, IsPrefetch, HoldsValidToken, MayRefresh, RefreshTrip,
      Dashboard, WithIdentity, IdentityNames;
    var kind := KindOfPage(config, r);
    if kind.Api? {
      ApiPassesThrough(config, r);
    } else if kind.Protected? {
      ProtectedPagesAreGuarded(config, r);
      if IsLetIn(config, r, kind.route) {
        LetInRequestsCarryIdentity(config, r);
      }
    } else {
      OpenPagesAnswer(config, r);
    }
  }
}
