/**
 * Where the proxy sends a signed-in visitor of one role, page after page.
 *
 * From any page there is at most one next page, and every next page is the role's dashboard or
 * the refusal page of some protected route. So the walk settles soon or never.
 */
module RoleWalk {
  import opened Strings
  import opened Urls
  import opened Routes
  import opened AuthProxy

  function KindOf(config: Config, path: string): RouteKind {
    Classify(NormalizePath(path, config.hostParses), config.routes)
  }

  predicate IsOpen(config: Config, path: string) {
    KindOf(config, path).Public? || KindOf(config, path).Unmatched?
  }

  predicate RedirectsAuthenticated(config: Config, path: string) {
    AnyPublicRoute(NormalizePath(path, config.hostParses), config.redirectIfAuthenticated)
  }

  /** A guest page: the proxy sends every signed-in visitor on to a dashboard. */
  predicate IsGuestPage(config: Config, t: Target) {
    IsOpen(config, t.path) && RedirectsAuthenticated(config, t.path) && !Has(t.query, REASON_PARAM)
  }

  /** The next page for a signed-in visitor whose status is not blocked, if this one is refused. */
  function RoleHop(config: Config, role: string, t: Target): Option<Target> {
    match KindOf(config, t.path)
    case Api => None
    case Protected(route) =>
      if role in route.allowedRoles then None else Some(ForbiddenDestination(config, route, role))
    case _ => if IsGuestPage(config, t) then Some(DashboardOf(config, role)) else None
  }

  /** The page after `k` redirects, or `None` when one was rendered before that. */
  function Walk(config: Config, role: string, t: Target, k: nat): Option<Target>
    decreases k
  {
    if k == 0 then Some(t)
    else
      var next := RoleHop(config, role, t);
      if next.None? then None else Walk(config, role, next.value, k - 1)
  }

  /** The number of redirects from `t`, as far as `cap`. */
  function Length(config: Config, role: string, t: Target, cap: nat): (n: nat)
    ensures n <= cap
    decreases cap
  {
    var next := RoleHop(config, role, t);
    if cap == 0 || next.None? then 0 else 1 + Length(config, role, next.value, cap - 1)
  }

  /** A page is rendered after at most `limit` redirects. */
  predicate SettlesBy(config: Config, role: string, t: Target, limit: nat) {
    Walk(config, role, t, limit + 1).None?
  }

  ghost predicate Settles(config: Config, role: string, t: Target) {
    exists n: nat :: SettlesBy(config, role, t, n)
  }

  lemma {:induction false} WalkOn(config: Config, role: string, t: Target, a: nat, b: nat)
    ensures var there := Walk(config, role, t, a);
      Walk(config, role, t, a + b) == if there.None? then None else Walk(config, role, there.value, b)
    decreases a
  {
    hide RoleHop;
    if a > 0 && RoleHop(config, role, t).Some? {
      WalkOn(config, role, RoleHop(config, role, t).value, a - 1, b);
    }
  }

  lemma {:induction false} LengthStable(config: Config, role: string, t: Target, cap: nat)
    requires SettlesBy(config, role, t, cap)
    ensures Length(config, role, t, cap + 1) == Length(config, role, t, cap)
    decreases cap
  {
    hide RoleHop;
    var next := RoleHop(config, role, t);
    if next.Some? {
      assert Walk(config, role, t, cap + 1) == Walk(config, role, next.value, cap);
      assert Walk(config, role, next.value, 0) == next;
      if cap > 0 {
        LengthStable(config, role, next.value, cap - 1);
      }
    }
  }

  /** On a walk that settles within the cap, the length counts down. */
  lemma LengthFalls(config: Config, role: string, t: Target, cap: nat)
    requires SettlesBy(config, role, t, cap) && RoleHop(config, role, t).Some?
    ensures Length(config, role, RoleHop(config, role, t).value, cap) < Length(config, role, t, cap)
  {
    hide RoleHop;
    var next := RoleHop(config, role, t).value;
    assert Walk(config, role, t, cap + 1) == Walk(config, role, next, cap);
    assert Walk(config, role, next, 0) == Some(next);
    if cap > 0 {
      LengthStable(config, role, next, cap - 1);
      assert Length(config, role, t, cap) == 1 + Length(config, role, next, cap - 1);
    }
  }

  // ---- the pages a walk can visit ----

  function Refusals(config: Config, role: string): set<Target> {
    set i | 0 <= i < |config.routes.protectedRoutes| ::
      ForbiddenDestination(config, config.routes.protectedRoutes[i], role)
  }

  /** Every page that a redirect can lead this role to. */
  function Stops(config: Config, role: string): set<Target> {
    {DashboardOf(config, role)} + Refusals(config, role)
  }

  lemma {:induction false} FewRefusals(config: Config, role: string, n: nat)
    requires n <= |config.routes.protectedRoutes|
    ensures var some := set i | 0 <= i < n :: ForbiddenDestination(config, config.routes.protectedRoutes[i], role);
      |some| <= n
  {
    hide ForbiddenDestination;
    if n > 0 {
      FewRefusals(config, role, n - 1);
      var fewer := set i | 0 <= i < n - 1 :: ForbiddenDestination(config, config.routes.protectedRoutes[i], role);
      var last := ForbiddenDestination(config, config.routes.protectedRoutes[n - 1], role);
      var some := set i | 0 <= i < n :: ForbiddenDestination(config, config.routes.protectedRoutes[i], role);
      assert some == fewer + {last};
    }
  }

  lemma FewStops(config: Config, role: string)
    ensures |Stops(config, role)| <= |config.routes.protectedRoutes| + 1
  {
    hide ForbiddenDestination, DashboardOf;
    FewRefusals(config, role, |config.routes.protectedRoutes|);
  }

  lemma HopsLeadToStops(config: Config, role: string, t: Target)
    requires RoleHop(config, role, t).Some?
    ensures RoleHop(config, role, t).value in Stops(config, role)
  {
    hide ForbiddenDestination, DashboardOf, Classify, NormalizePath, IsGuestPage;
    var kind := KindOf(config, t.path);
    if kind.Protected? {
      ClassifiedRouteIsConfigured(NormalizePath(t.path, config.hostParses), config.routes);
      var i :| 0 <= i < |config.routes.protectedRoutes| && config.routes.protectedRoutes[i] == kind.route;
      assert ForbiddenDestination(config, config.routes.protectedRoutes[i], role) in Refusals(config, role);
    }
  }

  /** The pages visited by the first `k` redirects. */
  function Visited(config: Config, role: string, t: Target, k: nat): set<Target>
    decreases k
  {
    var next := RoleHop(config, role, t);
    {t} + if k == 0 || next.None? then {} else Visited(config, role, next.value, k - 1)
  }

  lemma {:induction false} VisitedOnWalk(config: Config, role: string, t: Target, k: nat, page: Target) returns (j: nat)
    requires page in Visited(config, role, t, k)
    ensures j <= k && Walk(config, role, t, j) == Some(page)
    decreases k
  {
    hide RoleHop;
    if page == t {
      j := 0;
    } else {
      var before := VisitedOnWalk(config, role, RoleHop(config, role, t).value, k - 1, page);
      j := before + 1;
    }
  }

  lemma {:induction false} VisitedAreStops(config: Config, role: string, t: Target, k: nat)
    requires t in Stops(config, role)
    ensures Visited(config, role, t, k) <= Stops(config, role)
    decreases k
  {
    hide RoleHop, Stops;
    if k > 0 && RoleHop(config, role, t).Some? {
      HopsLeadToStops(config, role, t);
      VisitedAreStops(config, role, RoleHop(config, role, t).value, k - 1);
    }
  }

  /** A page that leads back to itself leads on for ever. */
  lemma {:induction false} CyclesNeverSettle(config: Config, role: string, t: Target, period: nat, n: nat)
    requires period > 0 && Walk(config, role, t, period) == Some(t)
    ensures Walk(config, role, t, n).Some?
    decreases n
  {
    hide Walk;
    if n >= period {
      WalkOn(config, role, t, period, n - period);
      CyclesNeverSettle(config, role, t, period, n - period);
    } else {
      WalkOn(config, role, t, n, period - n);
    }
  }

  /** A walk that settles never visits a page twice. */
  lemma {:induction false} NoRevisit(config: Config, role: string, t: Target, k: nat)
    requires Settles(config, role, t) && Walk(config, role, t, k).Some?
    ensures |Visited(config, role, t, k)| == k + 1
    decreases k
  {
    hide RoleHop;
    if k > 0 {
      var next := RoleHop(config, role, t).value;
      var n: nat :| SettlesBy(config, role, t, n);
      assert Walk(config, role, t, n + 1) == Walk(config, role, next, n);
      assert Walk(config, role, next, 0) == Some(next);
      assert n > 0 && SettlesBy(config, role, next, n - 1);
      NoRevisit(config, role, next, k - 1);
      if t in Visited(config, role, next, k - 1) {
        var j := VisitedOnWalk(config, role, next, k - 1, t);
        CyclesNeverSettle(config, role, t, j + 1, n + 1);
      }
    }
  }

  lemma Smaller<T>(a: set<T>, b: set<T>)
    requires a <= b
    ensures |a| <= |b|
  {
    assert b == a + (b - a);
  }

  lemma StopsSettleSoon(config: Config, role: string, t: Target)
    requires t in Stops(config, role) && Settles(config, role, t)
    ensures SettlesBy(config, role, t, |config.routes.protectedRoutes|)
  {
    hide Stops, Walk, Visited, Settles;
    var k := |config.routes.protectedRoutes| + 1;
    if Walk(config, role, t, k).Some? {
      NoRevisit(config, role, t, k);
      VisitedAreStops(config, role, t, k);
      FewStops(config, role);
      Smaller(Visited(config, role, t, k), Stops(config, role));
    }
  }

  /** A walk from one of the stops settles exactly when it has done so after one redirect a route. */
  lemma StopSettlesIff(config: Config, role: string, t: Target)
    requires t in Stops(config, role)
    ensures Settles(config, role, t) <==> SettlesBy(config, role, t, |config.routes.protectedRoutes|)
  {
    hide Stops, Walk;
    if Settles(config, role, t) {
      StopsSettleSoon(config, role, t);
    }
  }

  /** From any page at all it may take one redirect more. */
  lemma PageSettlesIff(config: Config, role: string, t: Target)
    ensures Settles(config, role, t) <==> SettlesBy(config, role, t, |config.routes.protectedRoutes| + 1)
  {
    hide Stops, RoleHop;
    var bound := |config.routes.protectedRoutes| + 1;
    var next := RoleHop(config, role, t);
    if next.Some? {
      HopsLeadToStops(config, role, t);
      StopSettlesIff(config, role, next.value);
      assert Walk(config, role, t, bound + 1) == Walk(config, role, next.value, bound);
      if Settles(config, role, t) {
        var n: nat :| SettlesBy(config, role, t, n);
        assert Walk(config, role, t, n + 1) == Walk(config, role, next.value, n);
        assert Walk(config, role, next.value, 0) == next;
        assert n > 0 && SettlesBy(config, role, next.value, n - 1);
      }
    }
  }

  /** Every walk of the role settles after at most `limit` redirects. */
  ghost predicate SettlesWithin(config: Config, role: string, limit: nat) {
    forall t :: SettlesBy(config, role, t, limit)
  }

  /** The finite check: every stop has settled after one redirect a route. */
  predicate StopsSettle(config: Config, role: string) {
    forall t :: t in Stops(config, role) ==> SettlesBy(config, role, t, |config.routes.protectedRoutes|)
  }

  lemma StopsSettleThenPage(config: Config, role: string, t: Target)
    requires StopsSettle(config, role)
    ensures SettlesBy(config, role, t, |config.routes.protectedRoutes| + 1)
  {
    hide Stops, RoleHop;
    if RoleHop(config, role, t).Some? {
      HopsLeadToStops(config, role, t);
    }
  }

  /** Looking at the stops alone decides about every page there is. */
  lemma EveryPageSettlesIff(config: Config, role: string)
    ensures (forall t :: Settles(config, role, t)) <==> StopsSettle(config, role)
    ensures StopsSettle(config, role) ==> SettlesWithin(config, role, |config.routes.protectedRoutes| + 1)
  {
    hide Stops, Walk, Settles;
    var limit := |config.routes.protectedRoutes| + 1;
    if StopsSettle(config, role) {
      forall t ensures SettlesBy(config, role, t, limit) {
        StopsSettleThenPage(config, role, t);
      }
      forall t ensures Settles(config, role, t) {
        PageSettlesIff(config, role, t);
      }
    }
    if forall t :: Settles(config, role, t) {
      forall t | t in Stops(config, role)
        ensures SettlesBy(config, role, t, |config.routes.protectedRoutes|)
      {
        StopSettlesIff(config, role, t);
      }
    }
  }

  // ---- readable rules that are enough ----

  /** A visitor of this role is not turned away from the page by the role. */
  predicate Admits(config: Config, path: string, role: string) {
    var kind := KindOf(config, path);
    kind.Protected? ==> role in kind.route.allowedRoles
  }

  predicate GoodDashboard(config: Config, role: string) {
    var d := DashboardOf(config, role);
    Admits(config, d.path, role) && !IsGuestPage(config, d)
  }

  predicate GoodRedirect(config: Config, route: ProtectedRoute, role: string) {
    route.redirectPath.Some? && role !in route.allowedRoles ==>
      IsSafePath(route.redirectPath.value.path) && Admits(config, route.redirectPath.value.path, role)
  }

  predicate GoodRules(config: Config, role: string) {
    && GoodDashboard(config, role)
    && forall i :: 0 <= i < |config.routes.protectedRoutes| ==>
         GoodRedirect(config, config.routes.protectedRoutes[i], role)
  }

  lemma DashboardReceives(config: Config, role: string)
    requires GoodRules(config, role)
    ensures RoleHop(config, role, DashboardOf(config, role)).None?
  {
    hide Classify, NormalizePath, DashboardOf, GoodRedirect;
  }

  lemma OneRefusal(config: Config, role: string, t: Target)
    requires GoodRules(config, role) && RoleHop(config, role, t).Some?
    ensures var next := RoleHop(config, role, t).value;
      RoleHop(config, role, next).None? || RoleHop(config, role, next) == Some(DashboardOf(config, role))
  {
    hide Classify, NormalizePath, DashboardOf, AnyPublicRoute, Set;
    var kind := KindOf(config, t.path);
    if kind.Protected? {
      ClassifiedRouteIsConfigured(NormalizePath(t.path, config.hostParses), config.routes);
      var i :| 0 <= i < |config.routes.protectedRoutes| && config.routes.protectedRoutes[i] == kind.route;
      assert GoodRedirect(config, config.routes.protectedRoutes[i], role);
      assert RoleHop(config, role, t) == Some(ForbiddenDestination(config, kind.route, role));
    }
  }

  lemma GoodWalk(config: Config, role: string, t: Target)
    requires GoodRules(config, role)
    ensures SettlesBy(config, role, t, 2)
  {
    hide RoleHop, GoodRules;
    var next := RoleHop(config, role, t);
    DashboardReceives(config, role);
    if next.Some? {
      OneRefusal(config, role, t);
      var second := RoleHop(config, role, next.value);
      assert Walk(config, role, t, 3) == Walk(config, role, next.value, 2);
    }
  }

  /**
   * When the role's dashboard receives it and every route's own redirect receives the roles it
   * denies, no walk takes more than two redirects.
   */
  lemma GoodRulesSettle(config: Config, role: string)
    requires GoodRules(config, role)
    ensures SettlesWithin(config, role, 2)
  {
    hide Walk;
    forall t ensures SettlesBy(config, role, t, 2) {
      GoodWalk(config, role, t);
    }
  }

  // ---- how the rules break ----

  /** A route whose own redirect lies under it sends those it denies to the same page for ever. */
  lemma RedirectUnderItselfLoops(config: Config, role: string, route: ProtectedRoute, n: nat)
    requires role !in route.allowedRoles
    requires var t := ForbiddenDestination(config, route, role); KindOf(config, t.path) == Protected(route)
    ensures var t := ForbiddenDestination(config, route, role);
      Walk(config, role, t, n) == Some(t)
  {
    hide Classify, NormalizePath, ForbiddenDestination;
    if n > 0 {
      RedirectUnderItselfLoops(config, role, route, n - 1);
    }
  }

  lemma GuestPageHop(config: Config, role: string, t: Target)
    requires IsGuestPage(config, t)
    ensures RoleHop(config, role, t) == Some(DashboardOf(config, role))
  {
  }

  /**
   * A route that sends those it denies to a guest page, when that is their dashboard's route too,
   * bounces them between the two for ever.
   */
  lemma GuestPageBounce(config: Config, role: string, n: nat)
    requires var d := DashboardOf(config, role);
      && KindOf(config, d.path).Protected?
      && role !in KindOf(config, d.path).route.allowedRoles
      && IsGuestPage(config, ForbiddenDestination(config, KindOf(config, d.path).route, role))
    ensures Walk(config, role, DashboardOf(config, role), n).Some?
  {
    hide Classify, NormalizePath, ForbiddenDestination, DashboardOf, IsOpen, RedirectsAuthenticated;
    var d := DashboardOf(config, role);
    var refusal := ForbiddenDestination(config, KindOf(config, d.path).route, role);
    GuestPageHop(config, role, refusal);
    assert Walk(config, role, d, 2) == Walk(config, role, refusal, 1) == Some(d);
    CyclesNeverSettle(config, role, d, 2, n);
  }

  // ---- a documented deployment ----

  const ADMIN_ROUTE := ProtectedRoute("/admin/:path*", ["ADMIN"], Some(Target("/app/dashboard", [])))
  const APP_ROUTE := ProtectedRoute("/app/:path*", ["USER", "ADMIN"], Some(Target("/auth/login", [])))

  /** The routing that the technical specification gives as its example. */
  ghost predicate HasDocumentedRouting(config: Config) {
    && config.routes == RouteTable(["/", "/welcome", "/auth", "/privacy"], [ADMIN_ROUTE, APP_ROUTE])
    && config.redirectIfAuthenticated == ["/welcome", "/auth/login", "/auth/register", "/auth/forgot-password",
         "/auth/reset-password", "/auth/verify-otp"]
    && forall role :: config.dashboard(role) ==
         Target(if role == "ADMIN" then "/admin/dashboard" else "/app/dashboard", [])
  }

  lemma DropEmptyFirst(a: string, b: string)
    requires a != "" && b != ""
    ensures NonEmpty(["", a, b]) == [a, b]
  {
    assert [b][1..] == [] && NonEmpty([b]) == [b];
    assert [a, b][1..] == [b] && NonEmpty([a, b]) == [a] + [b];
    assert ["", a, b][1..] == [a, b];
  }

  lemma TwoSegments(a: string, b: string)
    requires a != "" && b != "" && '/' !in a && '/' !in b
    ensures Segments("/" + a + "/" + b) == [a, b]
  {
    hide IndexOf, NonEmpty;
    assert "/" + a + "/" + b == ("" + ['/'] + a) + ['/'] + b;
    SplitConcat("" + ['/'] + a, '/', b);
    SplitConcat("", '/', a);
    OnePiece("", '/');
    OnePiece(a, '/');
    OnePiece(b, '/');
    assert [""] + [a] + [b] == ["", a, b];
    DropEmptyFirst(a, b);
  }

  /** A path of two segments matches a pattern of a name and a glob exactly when the names agree. */
  lemma TwoSegmentMatch(a: string, b: string, name: string, glob: string)
    requires a != "" && b != "" && name != "" && glob != ""
    requires '/' !in a && '/' !in b && '/' !in name && '/' !in glob
    requires IsGlob(glob) && !StartsWith(name, ":")
    ensures Matches("/" + a + "/" + b, "/" + name + "/" + glob) <==> a == name
  {
    hide Segments;
    TwoSegments(a, b);
    TwoSegments(name, glob);
    var pattern := [name, glob];
    assert pattern[..1] == [name];
    assert Fixed(pattern) == [name];
    assert Fixed(pattern)[0] == name && [a, b][0] == a;
  }

  lemma IsPagePath(path: string, hostParses: string -> bool)
    requires |path| > 2 && path[0] == '/' && path[1] == 'a' && path[2] != 'p'
    ensures NormalizePath(path, hostParses) == path && !StartsWith(path, API_PREFIX)
  {
    assert "/" <= path;
    assert "//"[1] == '/' && !("//" <= path);
    assert API_PREFIX[2] == 'p';
  }

  lemma AppIsAPagePath(path: string, hostParses: string -> bool)
    requires |path| > 3 && path[0] == '/' && path[1] == 'a' && path[3] == 'p'
    ensures NormalizePath(path, hostParses) == path && !StartsWith(path, API_PREFIX)
  {
    assert "/" <= path;
    assert "//"[1] == '/' && !("//" <= path);
    assert API_PREFIX[3] == 'i';
  }

  lemma PatternParts()
    ensures IsGlob(":path*") && '/' !in ":path*"
    ensures '/' !in "app" && '/' !in "admin" && '/' !in "auth" && '/' !in "dashboard" && '/' !in "login"
    ensures !StartsWith("app", ":") && !StartsWith("admin", ":")
  {
    assert ":path*"[5..] == "*";
    assert ":"[0] == ':' && "app"[0] == 'a' && "admin"[0] == 'a';
  }

  lemma DocumentedDashboard(config: Config)
    requires HasDocumentedRouting(config)
    ensures KindOf(config, "/app/dashboard") == Protected(APP_ROUTE)
  {
    hide Matches, NormalizePath;
    assert "/app/dashboard" == "/" + "app" + "/" + "dashboard";
    assert ADMIN_ROUTE.pattern == "/" + "admin" + "/" + ":path*" && APP_ROUTE.pattern == "/" + "app" + "/" + ":path*";
    assert |"app"| != |"admin"|;
    PatternParts();
    TwoSegmentMatch("app", "dashboard", "admin", ":path*");
    TwoSegmentMatch("app", "dashboard", "app", ":path*");
    AppIsAPagePath("/app/dashboard", config.hostParses);
    var routes := config.routes.protectedRoutes;
    assert FirstMatch("/app/dashboard", routes) == 1;
  }

  lemma PublicRouteItself(route: string)
    ensures MatchesPublicRoute(route, route)
  {
  }

  lemma DocumentedLogin(config: Config, query: seq<Param>)
    requires HasDocumentedRouting(config) && !Has(query, REASON_PARAM)
    ensures IsGuestPage(config, Target("/auth/login", query))
  {
    hide Matches, NormalizePath, MatchesPublicRoute;
    var path := "/auth/login";
    assert path == "/" + "auth" + "/" + "login";
    assert ADMIN_ROUTE.pattern == "/" + "admin" + "/" + ":path*" && APP_ROUTE.pattern == "/" + "app" + "/" + ":path*";
    assert |"auth"| != |"admin"| && |"auth"| != |"app"|;
    PatternParts();
    TwoSegmentMatch("auth", "login", "admin", ":path*");
    TwoSegmentMatch("auth", "login", "app", ":path*");
    IsPagePath(path, config.hostParses);
    assert config.redirectIfAuthenticated[1] == path;
    assert MatchesPublicRoute(path, path) by {
      PublicRouteItself(path);
    }
  }

  lemma DocumentedSafePaths()
    ensures IsSafePath("/app/dashboard") && IsSafePath("/auth/login")
  {
    assert "//"[1] == '/' && "/app/dashboard"[1] == 'a' && "/auth/login"[1] == 'a';
    assert "/" <= "/app/dashboard" && "/" <= "/auth/login";
  }

  /** In it every role but the two it names bounces between its dashboard and the login page for ever. */
  lemma DocumentedRoutingBounces(config: Config, role: string, n: nat)
    requires HasDocumentedRouting(config)
    requires role != "USER" && role != "ADMIN"
    ensures Walk(config, role, Target("/app/dashboard", []), n).Some?
  {
    hide KindOf, IsGuestPage, Walk;
    DocumentedDashboard(config);
    DocumentedSafePaths();
    var d := DashboardOf(config, role);
    assert d == Target("/app/dashboard", []);
    var refusal := ForbiddenDestination(config, APP_ROUTE, role);
    GetAfterSet([], "error", Text("forbidden"), REASON_PARAM);
    NothingToGet(REASON_PARAM);
    DocumentedLogin(config, refusal.query);
    GuestPageBounce(config, role, n);
  }
}
