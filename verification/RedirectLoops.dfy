/** Exactly which deployments have no endless redirect chain. */
module RedirectLoops {
  import opened Strings
  import opened Urls
  import opened Routes
  import opened ProxyHeaders
  import opened AuthProxy
  import opened RoleWalk
  import opened RefreshLoop
  import SetCookie

  ghost predicate Ends(site: Site, b: Browser, oracle: nat -> Choice) {
    exists n: nat :: Follow(site, b, oracle, n) == None
  }

  ghost predicate InForeground(oracle: nat -> Choice) {
    forall i: nat :: !IsBackgroundRequest(oracle(i).headers)
  }

  predicate IsUnblockedUser(site: Site, jar: Jar, role: string) {
    && IsAuthenticated(jar)
    && Role(jar.access.value.claims) == role
    && !IsBlocked(site, jar.access.value.claims)
  }

  // ---- signed-in visitors ----

  lemma StartOfWalk(config: Config, role: string, t: Target)
    ensures Walk(config, role, t, 0) == Some(t)
  {
  }

  /** What a browser does for a signed-in, unblocked visitor is the walk of the role, hop for hop. */
  lemma {:induction false} ChainIsTheWalk(site: Site, role: string, jar: Jar, t: Target, oracle: nat -> Choice, n: nat)
    requires IsUnblockedUser(site, jar, role) && InForeground(oracle)
    requires AvoidsHandler(site.proxy, role) && t.path != SILENT_REFRESH_PATH
    ensures var there := Walk(site.proxy, role, t, n);
      && Follow(site, Browser(t, jar), oracle, n) ==
           (if there.None? then None else Some(Browser(there.value, jar)))
      && (there.Some? ==> there.value == t || there.value in Stops(site.proxy, role))
  {
    hide Hop, RoleHop, Stops, Walk, IsBackgroundRequest, IsAuthenticated, IsBlocked;
    if n == 0 {
      WalkOn(site.proxy, role, t, 0, 0);
      StartOfWalk(site.proxy, role, t);
    } else {
      ChainIsTheWalk(site, role, jar, t, oracle, n - 1);
      WalkOn(site.proxy, role, t, n - 1, 1);
      var before := Walk(site.proxy, role, t, n - 1);
      if before.Some? {
        OneHop(site.proxy, role, before.value);
        SignedInHop(site, Browser(before.value, jar), oracle(n - 1));
        if RoleHop(site.proxy, role, before.value).Some? {
          HopsLeadToStops(site.proxy, role, before.value);
        }
      }
    }
  }

  lemma EndsIffSettles(site: Site, role: string, jar: Jar, t: Target, oracle: nat -> Choice)
    requires IsUnblockedUser(site, jar, role) && InForeground(oracle)
    requires AvoidsHandler(site.proxy, role) && t.path != SILENT_REFRESH_PATH
    ensures Ends(site, Browser(t, jar), oracle) <==> Settles(site.proxy, role, t)
  {
    hide Follow, Walk, IsUnblockedUser, InForeground, AvoidsHandler, Stops;
    StartOfWalk(site.proxy, role, t);
    if Ends(site, Browser(t, jar), oracle) {
      var n: nat :| Follow(site, Browser(t, jar), oracle, n) == None;
      ChainIsTheWalk(site, role, jar, t, oracle, n);
      assert n > 0 && SettlesBy(site.proxy, role, t, n - 1);
    }
    if Settles(site.proxy, role, t) {
      var n: nat :| SettlesBy(site.proxy, role, t, n);
      ChainIsTheWalk(site, role, jar, t, oracle, n + 1);
    }
  }

  /**
   * A signed-in, unblocked visitor reaches a page from `t` if and only if the walk of the role has
   * settled after one redirect more than there are protected routes.
   */
  lemma SignedInVisitorSettlesIff(site: Site, role: string, jar: Jar, t: Target, oracle: nat -> Choice)
    requires IsUnblockedUser(site, jar, role) && InForeground(oracle)
    requires AvoidsHandler(site.proxy, role) && t.path != SILENT_REFRESH_PATH
    ensures Ends(site, Browser(t, jar), oracle) <==>
      SettlesBy(site.proxy, role, t, |site.proxy.routes.protectedRoutes| + 1)
  {
    hide Ends, Settles, SettlesBy, IsUnblockedUser, InForeground, AvoidsHandler;
    EndsIffSettles(site, role, jar, t, oracle);
    PageSettlesIff(site.proxy, role, t);
  }

  /** From the role's dashboard, and from every refusal page, one redirect fewer decides. */
  lemma StopRendersIff(site: Site, role: string, jar: Jar, t: Target, oracle: nat -> Choice)
    requires IsUnblockedUser(site, jar, role) && InForeground(oracle)
    requires AvoidsHandler(site.proxy, role) && t in Stops(site.proxy, role)
    ensures Ends(site, Browser(t, jar), oracle) <==>
      SettlesBy(site.proxy, role, t, |site.proxy.routes.protectedRoutes|)
  {
    hide Ends, Settles, SettlesBy, IsUnblockedUser, InForeground, Stops;
    EndsIffSettles(site, role, jar, t, oracle);
    StopSettlesIff(site.proxy, role, t);
  }

  lemma SafeFallback(config: Config, role: string, d: Target)
    requires d == DashboardOf(config, role)
    ensures IsSafePath(d.path)
  {
    hide IsSafePath;
    RootIsSafe();
  }

  lemma DashboardSettlesIff(config: Config, role: string)
    requires var kind := KindOf(config, DashboardOf(config, role).path);
      kind.Protected? ==> kind.route.redirectPath.None?
    ensures Settles(config, role, DashboardOf(config, role)) <==> GoodDashboard(config, role)
  {
    hide Classify, NormalizePath, DashboardOf, RedirectsAuthenticated, Walk;
    var d := DashboardOf(config, role);
    OneHop(config, role, d);
    if GoodDashboard(config, role) {
      assert RoleHop(config, role, d).None?;
      assert SettlesBy(config, role, d, 0);
    } else {
      var next := RoleHop(config, role, d).value;
      OneHop(config, role, next);
      SafeFallback(config, role, d);
      assert RoleHop(config, role, next) == Some(next) by {
        SetIdempotent(d.query, "error", Text("forbidden"));
      }
      forall n: nat ensures !SettlesBy(config, role, d, n) {
        CyclesNeverSettle(config, role, next, 1, n);
        WalkOn(config, role, d, 1, n);
      }
    }
  }

  /** The dashboard rule is exact where a refused dashboard has no redirect of its own. */
  lemma DashboardRendersIff(site: Site, role: string, jar: Jar, oracle: nat -> Choice)
    requires IsUnblockedUser(site, jar, role) && InForeground(oracle)
    requires AvoidsHandler(site.proxy, role)
    requires var kind := KindOf(site.proxy, DashboardOf(site.proxy, role).path);
      kind.Protected? ==> kind.route.redirectPath.None?
    ensures Ends(site, Browser(DashboardOf(site.proxy, role), jar), oracle) <==> GoodDashboard(site.proxy, role)
  {
    hide Ends, Settles, IsUnblockedUser, InForeground, Stops;
    var d := DashboardOf(site.proxy, role);
    DashboardIsAStop(site.proxy, role);
    EndsIffSettles(site, role, jar, d, oracle);
    DashboardSettlesIff(site.proxy, role);
  }

  // ---- signed-out visitors ----

  const SIGNED_OUT := Jar(None, false)

  lemma KindIs(config: Config, path: string)
    ensures KindOf(config, path) == Classify(NormalizePath(path, config.hostParses), config.routes)
  {
  }

  lemma LoginIsWhereSignedOutGo(config: Config)
    ensures RedirectToLogin(config, "") == Redirect(ToSameOriginPath(LoginPage(config)))
  {
  }

  lemma ProtectedLoginHop(site: Site, choice: Choice)
    requires KindOf(site.proxy, LoginPage(site.proxy).path).Protected?
    requires !IsBackgroundRequest(choice.headers)
    ensures Hop(site, Browser(LoginPage(site.proxy), SIGNED_OUT), choice) ==
      Some(Browser(LoginPage(site.proxy), SIGNED_OUT))
  {
    LoginPageIsSafe(site.proxy);
    hide KindOf, IsBackgroundRequest, LoginPage, ToSameOriginPath, Sanitized;
    LoginIsWhereSignedOutGo(site.proxy);
    assert KindOf(site.proxy, LoginPage(site.proxy).path) ==
      Classify(NormalizePath(LoginPage(site.proxy).path, site.proxy.hostParses), site.proxy.routes) by {
      KindIs(site.proxy, LoginPage(site.proxy).path);
    }
  }

  /** Why the login page must be open: a protected one sends a signed-out visitor to itself for ever. */
  lemma {:induction false} ProtectedLoginLoops(site: Site, oracle: nat -> Choice, n: nat)
    requires KindOf(site.proxy, LoginPage(site.proxy).path).Protected? && InForeground(oracle)
    ensures var b := Browser(LoginPage(site.proxy), SIGNED_OUT);
      Follow(site, b, oracle, n) == Some(b)
  {
    hide Hop, IsBackgroundRequest, KindOf;
    if n > 0 {
      ProtectedLoginLoops(site, oracle, n - 1);
      ProtectedLoginHop(site, oracle(n - 1));
    }
  }

  /** A signed-out visitor of the login page sees a page exactly when it is not protected. */
  lemma SignedOutLoginRendersIff(site: Site, oracle: nat -> Choice)
    requires InForeground(oracle) && LoginPage(site.proxy).path != SILENT_REFRESH_PATH
    ensures Ends(site, Browser(LoginPage(site.proxy), SIGNED_OUT), oracle) <==>
      !KindOf(site.proxy, LoginPage(site.proxy).path).Protected?
  {
    hide Hop, KindOf, LoginPage, InForeground;
    var b := Browser(LoginPage(site.proxy), SIGNED_OUT);
    if KindOf(site.proxy, b.at.path).Protected? {
      forall n: nat ensures Follow(site, b, oracle, n) != None {
        ProtectedLoginLoops(site, oracle, n);
      }
    } else {
      UnauthenticatedHop(site, b, oracle(0));
      assert Follow(site, b, oracle, 0) == Some(b);
      assert Follow(site, b, oracle, 1) == None;
    }
  }

  /** Where a login page that is the silent-refresh route leads when refreshing succeeds. */
  function LoginLanding(site: Site): Target {
    Landing(site, Get(LoginPage(site.proxy).query, REDIRECT_PARAM))
  }

  lemma LoginThroughHandlerHops(site: Site, choice: Choice)
    requires LoginPage(site.proxy).path == SILENT_REFRESH_PATH && IsStubborn(choice, SIGNED_OUT)
    ensures Hop(site, Browser(LoginPage(site.proxy), SIGNED_OUT), choice) ==
      Some(Browser(LoginLanding(site), SIGNED_OUT))
  {
    hide KindOf, IsBackgroundRequest, IsCrossSiteRequest, LoginPage, ToSameOriginPath, ResolveSafeDestination,
      Sanitized, SetCookie.Dedupe, HandleProtectedRoute, HandlePublicRoute;
    SilentRefreshIsApi(site.proxy);
    KindIs(site.proxy, SILENT_REFRESH_PATH);
  }

  lemma SignedOutAtProtected(site: Site, t: Target, choice: Choice)
    requires KindOf(site.proxy, t.path).Protected? && t.path != SILENT_REFRESH_PATH
    requires !IsBackgroundRequest(choice.headers)
    ensures Hop(site, Browser(t, SIGNED_OUT), choice) == Some(Browser(LoginPage(site.proxy), SIGNED_OUT))
  {
    hide KindOf, IsBackgroundRequest, LoginPage, ToSameOriginPath, Sanitized;
    LoginPageIsSafe(site.proxy);
    LoginIsWhereSignedOutGo(site.proxy);
    KindIs(site.proxy, t.path);
  }

  lemma {:induction false} LoginThroughHandlerLoops(site: Site, oracle: nat -> Choice, n: nat)
    requires LoginPage(site.proxy).path == SILENT_REFRESH_PATH
    requires forall i: nat :: IsStubborn(oracle(i), SIGNED_OUT)
    requires LoginLanding(site).path != SILENT_REFRESH_PATH && KindOf(site.proxy, LoginLanding(site).path).Protected?
    ensures Follow(site, Browser(LoginPage(site.proxy), SIGNED_OUT), oracle, n) ==
      Some(Browser(if n % 2 == 0 then LoginPage(site.proxy) else LoginLanding(site), SIGNED_OUT))
  {
    hide Hop, KindOf, LoginPage, LoginLanding;
    if n > 0 {
      LoginThroughHandlerLoops(site, oracle, n - 1);
      assert IsStubborn(oracle(n - 1), SIGNED_OUT);
      if n % 2 == 1 {
        LoginThroughHandlerHops(site, oracle(n - 1));
      } else {
        SignedOutAtProtected(site, LoginLanding(site), oracle(n - 1));
      }
    }
  }

  /**
   * When the proxy's login page is the silent-refresh route and the upstream always answers 2xx
   * without signing anyone in, a signed-out visitor sees a page exactly when the page the handler
   * lands on, its own login page unless the configured path names another, is not protected.
   */
  lemma LoginThroughHandlerIff(site: Site, oracle: nat -> Choice)
    requires LoginPage(site.proxy).path == SILENT_REFRESH_PATH
    requires LoginLanding(site).path != SILENT_REFRESH_PATH
    requires forall i: nat :: IsStubborn(oracle(i), SIGNED_OUT)
    ensures Ends(site, Browser(LoginPage(site.proxy), SIGNED_OUT), oracle) <==>
      !KindOf(site.proxy, LoginLanding(site).path).Protected?
  {
    hide Hop, KindOf, LoginPage, LoginLanding, IsStubborn;
    var b := Browser(LoginPage(site.proxy), SIGNED_OUT);
    if KindOf(site.proxy, LoginLanding(site).path).Protected? {
      forall n: nat ensures Follow(site, b, oracle, n) != None {
        LoginThroughHandlerLoops(site, oracle, n);
      }
    } else {
      assert Follow(site, b, oracle, 0) == Some(b);
      LoginThroughHandlerHops(site, oracle(0));
      assert Follow(site, b, oracle, 1) == Some(Browser(LoginLanding(site), SIGNED_OUT));
      UnauthenticatedHop(site, Browser(LoginLanding(site), SIGNED_OUT), oracle(1));
      assert Follow(site, b, oracle, 2) == None;
    }
  }

  // ---- every chain ----

  /** What the factories check, and that the proxy sends nobody to the silent-refresh route as a page. */
  ghost predicate IsRouted(site: Site, roles: iset<string>) {
    && site.proxy.maxRefreshAttempts <= MAX_SAFE_INTEGER
    && IsSafePath(site.handlerLogin.path)
    && LoginPage(site.proxy).path != SILENT_REFRESH_PATH
    && forall role :: role in roles ==> AvoidsHandler(site.proxy, role)
  }

  predicate Carries(roles: iset<string>, jar: Jar) {
    IsAuthenticated(jar) ==> Role(jar.access.value.claims) in roles
  }

  /** From every URL and with every cookies of these roles, whatever the upstream answers. */
  ghost predicate EveryChainEnds(site: Site, roles: iset<string>) {
    forall b: Browser, oracle: nat -> Choice ::
      Carries(roles, b.jar) && (forall i: nat :: Carries(roles, oracle(i).rotated)) ==> Ends(site, b, oracle)
  }

  /** The check a deployment can make beforehand: finitely many pages, finitely many redirects. */
  ghost predicate HasNoLoop(site: Site, roles: iset<string>) {
    && site.handlerLogin.path != SILENT_REFRESH_PATH
    && !KindOf(site.proxy, LoginPage(site.proxy).path).Protected?
    && forall role :: role in roles ==> StopsSettle(site.proxy, role)
  }

  function WalkBound(site: Site): (w: nat)
    ensures w >= 2 && w > |site.proxy.routes.protectedRoutes|
  {
    |site.proxy.routes.protectedRoutes| + 2
  }

  lemma LongerWalk(config: Config, role: string, limit: nat)
    requires SettlesWithin(config, role, limit)
    ensures SettlesWithin(config, role, limit + 1)
  {
    hide Walk;
    var longer := limit + 1;
    forall t ensures SettlesBy(config, role, t, longer) {
      assert SettlesBy(config, role, t, limit);
      WalkOn(config, role, t, limit + 1, 1);
    }
  }

  lemma RolesRest(site: Site, roles: iset<string>, jar: Jar)
    requires IsRouted(site, roles) && HasNoLoop(site, roles) && Carries(roles, jar)
    ensures JarRests(site, jar, WalkBound(site))
  {
    hide KindOf, AvoidsHandler, StopsSettle, Walk, IsSafePath, LoginPage;
    if IsAuthenticated(jar) {
      var role := Role(jar.access.value.claims);
      EveryPageSettlesIff(site.proxy, role);
      LongerWalk(site.proxy, role, |site.proxy.routes.protectedRoutes| + 1);
    }
  }

  lemma NoLoopMeansEnd(site: Site, roles: iset<string>, b: Browser, oracle: nat -> Choice)
    requires IsRouted(site, roles) && HasNoLoop(site, roles)
    requires Carries(roles, b.jar) && forall i: nat :: Carries(roles, oracle(i).rotated)
    ensures Ends(site, b, oracle)
  {
    hide KindOf, StopsSettle, Follow, JarRests, Budget, Carries, AvoidsHandler, IsSafePath, LoginPage;
    var walk := WalkBound(site);
    RolesRest(site, roles, b.jar);
    forall i: nat ensures JarRests(site, oracle(i).rotated, walk) {
      RolesRest(site, roles, oracle(i).rotated);
    }
    ChainsTerminate(site, walk, b, oracle, Budget(site, walk, b.at) + 1);
  }

  /** A foreground browser whose cookies stay what they are. */
  function Steady(jar: Jar): Choice {
    Choice(map[], Unreachable, jar, true)
  }

  /** A handler whose login page is itself answers every failure with itself. */
  lemma HandlerHop(site: Site, query: seq<Param>, choice: Choice)
    requires IsSafePath(site.handlerLogin.path) && site.handlerLogin.path == SILENT_REFRESH_PATH
    requires choice.upstream.Unreachable?
    ensures var next := Hop(site, Browser(Target(SILENT_REFRESH_PATH, query), SIGNED_OUT), choice);
      next.Some? && next.value.at.path == SILENT_REFRESH_PATH && next.value.jar == SIGNED_OUT
  {
    hide Classify, NormalizePath, IsSafePath, ToSameOriginPath, Sanitized, HandleProtectedRoute, HandlePublicRoute,
      IsBackgroundRequest, IsCrossSiteRequest, Set, ResolveSafeDestination;
    SilentRefreshIsApi(site.proxy);
    SafePathIsKept(WithQueryParam(site.handlerLogin, REASON_PARAM, REASON_EXPIRED));
  }

  lemma {:induction false} HandlerLoops(site: Site, oracle: nat -> Choice, n: nat)
    requires IsSafePath(site.handlerLogin.path) && site.handlerLogin.path == SILENT_REFRESH_PATH
    requires forall i: nat :: oracle(i).upstream.Unreachable?
    ensures var now := Follow(site, Browser(Target(SILENT_REFRESH_PATH, []), SIGNED_OUT), oracle, n);
      now.Some? && now.value.at.path == SILENT_REFRESH_PATH && now.value.jar == SIGNED_OUT
  {
    hide Hop, IsSafePath;
    if n > 0 {
      HandlerLoops(site, oracle, n - 1);
      var before := Follow(site, Browser(Target(SILENT_REFRESH_PATH, []), SIGNED_OUT), oracle, n - 1).value;
      assert before == Browser(Target(SILENT_REFRESH_PATH, before.at.query), SIGNED_OUT);
      HandlerHop(site, before.at.query, oracle(n - 1));
    }
  }

  lemma HandlerMustNotLoop(site: Site, roles: iset<string>)
    requires IsRouted(site, roles) && EveryChainEnds(site, roles)
    ensures site.handlerLogin.path != SILENT_REFRESH_PATH
  {
    hide KindOf, LoginPage, AvoidsHandler, Follow, IsSafePath;
    var oracle: nat -> Choice := (i: nat) => Steady(SIGNED_OUT);
    var b := Browser(Target(SILENT_REFRESH_PATH, []), SIGNED_OUT);
    assert Ends(site, b, oracle);
    var n: nat :| Follow(site, b, oracle, n) == None;
    if site.handlerLogin.path == SILENT_REFRESH_PATH {
      HandlerLoops(site, oracle, n);
    }
  }

  lemma LoginMustBeOpen(site: Site, roles: iset<string>)
    requires IsRouted(site, roles) && EveryChainEnds(site, roles)
    ensures !KindOf(site.proxy, LoginPage(site.proxy).path).Protected?
  {
    hide KindOf, Ends, LoginPage, AvoidsHandler;
    var oracle: nat -> Choice := (i: nat) => Steady(SIGNED_OUT);
    assert Ends(site, Browser(LoginPage(site.proxy), SIGNED_OUT), oracle);
    SignedOutLoginRendersIff(site, oracle);
  }

  /** Cookies of an unblocked user with this role. */
  function UserOf(role: string): Jar {
    Jar(Some(Token(true, Some("dashboard"), Claims(None, Some(role), None, None, None))), false)
  }

  lemma StopsMustSettle(site: Site, roles: iset<string>, role: string)
    requires IsRouted(site, roles) && EveryChainEnds(site, roles) && role in roles
    ensures StopsSettle(site.proxy, role)
  {
    hide KindOf, Ends, Stops, SettlesBy, IsSafePath;
    var jar := UserOf(role);
    var oracle: nat -> Choice := (i: nat) => Steady(jar);
    forall t | t in Stops(site.proxy, role)
      ensures SettlesBy(site.proxy, role, t, |site.proxy.routes.protectedRoutes|)
    {
      assert Ends(site, Browser(t, jar), oracle);
      StopRendersIff(site, role, jar, t, oracle);
    }
  }

  /**
   * The redirects of a deployment always end exactly when the handler's login page is not the
   * handler, the proxy's is not protected and, for each role, the dashboard and the refusal page of
   * every protected route lead to a page within as many redirects as there are protected routes.
   */
  lemma EveryChainEndsIff(site: Site, roles: iset<string>)
    requires IsRouted(site, roles)
    ensures EveryChainEnds(site, roles) <==> HasNoLoop(site, roles)
  {
    hide KindOf, IsRouted, Ends, StopsSettle;
    if HasNoLoop(site, roles) {
      forall b: Browser, oracle: nat -> Choice |
        Carries(roles, b.jar) && (forall i: nat :: Carries(roles, oracle(i).rotated))
        ensures Ends(site, b, oracle)
      {
        NoLoopMeansEnd(site, roles, b, oracle);
      }
    }
    if EveryChainEnds(site, roles) {
      HandlerMustNotLoop(site, roles);
      LoginMustBeOpen(site, roles);
      forall role | role in roles ensures StopsSettle(site.proxy, role) {
        StopsMustSettle(site, roles, role);
      }
    }
  }

  /** And then soon: the bound is one for the configuration, not one for each chain. */
  lemma LoopFreePagesSettle(site: Site, roles: iset<string>, b: Browser, oracle: nat -> Choice, n: nat)
    requires IsRouted(site, roles) && HasNoLoop(site, roles)
    requires Carries(roles, b.jar) && forall i: nat :: Carries(roles, oracle(i).rotated)
    requires b.at.path != SILENT_REFRESH_PATH && IsOrdinary(site, b.at)
    requires n > 2 * site.proxy.maxRefreshAttempts + |site.proxy.routes.protectedRoutes| + 2
    ensures Follow(site, b, oracle, n) == None
  {
    hide KindOf, StopsSettle, Follow, JarRests, Carries, AvoidsHandler, IsSafePath, LoginPage, IsOrdinary;
    RolesRest(site, roles, b.jar);
    forall i: nat ensures JarRests(site, oracle(i).rotated, WalkBound(site)) {
      RolesRest(site, roles, oracle(i).rotated);
    }
    OrdinaryPagesSettle(site, WalkBound(site), b, oracle, n);
  }
}
