# Verification of the authentication library

This project models the parts of the library whose correctness depends on state, loops or
arithmetic, and proves what they promise: the edge proxy and its silent-refresh redirects, the
single-flight refresh of the browser fetch wrapper, the React session provider and the logout it
shares with the logout handler, `Set-Cookie` deduplication and splitting, Base32/HOTP/TOTP, the
route matcher, and the key encodings and start-up checks of the server.

`dafny verify dfyconfig.toml` checks everything.

## How the model is laid out

| file | component | main results |
|---|---|---|
| `RefreshLoop.dfy` | browser, proxy and silent-refresh handler exchanging redirects | every redirect lowers one measure; the length of the worst chains |
| `RoleWalk.dfy` | where a signed-in role is sent, page after page | a walk settles soon or never, and which rules are enough |
| `RedirectLoops.dfy` | the same, over a whole deployment | exactly which deployments have no endless chain |
| `AuthProxy.dfy`, `ProxyAnswers.dfy` | one request through the proxy | every answer in terms of the request's fields; identity headers do not interfere; the retry counter survives the round trip |
| `ProxyHeaders.dfy` | stripping and injecting identity headers on a mutable `Headers` | each slot comes from the token alone |
| `Routes.dfy` | pattern validation, matching, classification | the loops equal the declarative relation |
| `Urls.dfy` | parsed same-origin URLs and `URLSearchParams` | what `get` answers after `set` and `delete` |
| `SingleFlight.dfy` | concurrent calls of the fetch wrapper | one refresh at a time, and the contract of every call, in every interleaving |
| `SessionProvider.dfy` | the provider under interleaved getMe, login, register and logout | truthful status, one notice per lost session, no stale resurrection |
| `Logout.dfy`, `LogoutRuns.dfy` | the logout handler composed with the provider | cookies and session go together, under every interleaving |
| `LastWriter.dfy`, `SetCookie.dfy` | deduplication of `Set-Cookie` lines | the jar is preserved; exactly when a browser's jar is |
| `LegacySplit.dfy` | splitting a comma-joined `Set-Cookie` | it inverts the join, exactly when it can |
| `Words.dfy`, `Base32.dfy` | 32-bit words, the Base32 codec | round trips both ways despite the wrapping accumulator |
| `Otp.dfy` | HOTP and TOTP | the code's arithmetic, the window, the replay memory |
| `UserSubject.dfy` | the length-prefixed user subject | injectivity, on strings and on the hashed bytes |
| `ApiKey.dfy` | the API key grammar | formatting and parsing are inverse; one prefix per key |
| `ScryptConfig.dfy` | the scrypt parameter checks | exactly which configurations start |
| `Lifetime.dfy` | time spans, the access lifetime, the logout marker | amounts read back; bounds, and the values that escape them |

The protocols (`SingleFlight`, `SessionProvider`) have one class method per stretch of code that
runs between two awaits. Each method is proved to perform one step of a transition function, and
the theorems are about every sequence of steps, so about every interleaving. In `RefreshLoop` the
headers, the upstream's answer and the cookies the browser ends up with are free at every hop; the
only thing asked of the cookies is that the role they carry, if any, is one whose walk settles.

## Where the code and its documentation differ

The model follows the code. The lemmas named here state the difference, or the exact condition the
documentation relies on.

- The retry counter is documented as clamping every crafted huge value. A numeral of about
  1.8 * 10^308 or more parses to `Infinity` and reads as 0 (`AuthProxy.HugeCounterReadsAsZero`).
- Deduplication ignores the path on purpose, because the upstream is said never to use one name and
  domain under two paths. That assumption is exactly what is needed: a browser's jar, which tells
  paths apart, is preserved if and only if it holds (`SetCookie.BrowserJarPreservedIff`).
- Inside the key builder a comment says that an absent `Domain` stays distinct from an empty one.
  They share a bucket, as its doc comment says (`SetCookie.KeyIsTheNameDomainPair`). The key is the
  pair only while neither part holds a `|` (`SetCookie.OwnKeyIff`).
- The TOTP format check is described as an optimisation. For the boolean result it is
  (`Otp.FormatCheckIsRedundant`), but with an unusable secret it decides between `false` and an
  error (`Otp.VerifyTotp`).
- The Base32 decoder documents that characters outside the alphabet throw. The check runs after
  `toUpperCase`: besides lower-case letters, ten characters are read as letters
  (`Base32.DecodeFailsIff`, `Base32.AcceptedOutsiders`).
- The duration reader documents that it accepts what `ms` accepts. It reads the documented spans, and
  besides them every text with digits or points between amount and unit
  (`Lifetime.DurationIff`, `Lifetime.DocumentedSpanIff`; `1 2h` and `5.h` are examples). The units
  `constructor` and `__proto__` are found on the object prototype, pass every bound as `NaN` and
  leave the logout marker without a lifetime (`Lifetime.AcceptedLifetimeIsBoundedIff`,
  `Lifetime.InheritedUnitsAreAccepted`).
- The logout marker is documented to outlive the access token. An explicit `undefined` is validated
  as the default of fifteen minutes, then erases that default, and the marker lives five
  (`Lifetime.MarkerOutlivesTheTokenIff`).
- The proxy documents its guards against redirect loops. Every chain ends exactly when the login page
  and the pages that roles are sent to meet a finite condition, which the factory does not check
  (`RedirectLoops.EveryChainEndsIff`). The example in `docs/technical_specification.md` (lines
  4212-4239) has a loop for roles other than its two (`RoleWalk.DocumentedRoutingBounces`).
- The provider treats any final answer as proof that the proxy cleared the cookies. For a refused
  method or a cross-site refusal it did not (`Logout.AgreementIff`).
- Redirects are documented as 302 by the logout and silent-refresh handlers; they are 307, as in the
  model.

## Model

| member | source | states |
|---|---|---|
| RefreshLoop.ChainsTerminate | src/nextjs/internal/proxyHandlers.ts:50-264 | with an open login page, from any URL and any cookies whose roles come to rest, whatever headers and upstream answers occur at each hop, a page is rendered after at most the URL's budget of redirects |
| RefreshLoop.OrdinaryPagesSettle | src/nextjs/createSilentRefreshHandler.ts:223-286 | from any page other than the silent-refresh route that bound is twice `maxRefreshAttempts` plus the longest walk of the roles carried |
| RefreshLoop.WellRoutedVisitorsSettle | src/nextjs/internal/proxyHandlers.ts:50-264 | for roles that their dashboard and the redirects of their denials receive, it is `2 * maxRefreshAttempts + 2` |
| RefreshLoop.StubbornUpstreamIsCountedOut | src/nextjs/internal/proxyHandlers.ts:220-264 | an upstream that keeps answering 2xx without a usable token is cut off after exactly `2 * maxRefreshAttempts + 1` redirects, at the login page with `reason=expired`, which renders |
| RefreshLoop.HopDescends | src/nextjs/createAuthProxy.ts:251-301 | every single redirect of proxy or handler lowers one explicit measure over URL and cookies |
| RefreshLoop.HopKeepsJar | src/nextjs/createSilentRefreshHandler.ts:223-286 | no hop brings a role that neither the old nor the rotated cookies carry |
| RefreshLoop.RankFalls | src/nextjs/createAuthProxy.ts:251-301 | after n redirects the measure has dropped by at least n |
| RefreshLoop.HandlerHopDescends | src/nextjs/createSilentRefreshHandler.ts:223-286 | every answer of the silent-refresh handler (success, failure, opaque redirect, no cookies, cross-site) lowers the measure, even when the deletions do not land in the browser |
| RefreshLoop.RefreshAttemptDescends | src/nextjs/internal/proxyUtils.ts:72-88 | the counter carried by a refresh destination pays for the two redirects an attempt costs |
| RefreshLoop.AuthenticatedHopDescends | src/nextjs/internal/proxyHandlers.ts:116-207 | blocked users, denied roles and signed-in visitors of guest pages are sent only to places closer to rest, given the walk of their own role |
| RefreshLoop.SignedInHop | src/nextjs/internal/proxyHandlers.ts:116-207 | the browser of an unblocked signed-in visitor makes exactly the hop of the role, or none when refused in the background |
| RefreshLoop.BlockedHop | src/nextjs/internal/proxyHandlers.ts:170-188 | a blocked visitor of a protected page goes to the login page with the status as reason |
| RefreshLoop.UnauthenticatedHopDescends | src/nextjs/internal/proxyHandlers.ts:220-264 | so are visitors without a valid token |
| RefreshLoop.CookiesRotateIff | src/nextjs/createSilentRefreshHandler.ts:223-286 | a cross-site call changes no cookie; otherwise cookies rotate exactly on a 2xx with cookies, into the jar the upstream's list describes, and are cleared in every other case, which leads to the login page |
| RefreshLoop.LinkKept | src/nextjs/createSilentRefreshHandler.ts:317-341 | the handler returns the browser to the requested destination exactly when its path is safe |
| RefreshLoop.WhereLinksLand | src/nextjs/createSilentRefreshHandler.ts:317-341 | where every `redirect` leads: to a safe link, to the root for a link with another control character, to the login page otherwise |
| RefreshLoop.CookiesAfterHandler | src/nextjs/createSilentRefreshHandler.ts:223-286 | what the browser holds after the handler: unchanged cookies for a cross-site call, the rotated ones for a 2xx with cookies, the old ones cleared otherwise |
| RefreshLoop.RedirectsStayHome | src/nextjs/internal/redirectToPath.ts:39-104 | whatever the configuration, the request and the upstream, no redirect of proxy or handler leaves the origin |
| RefreshLoop.LoginWithReasonRests | src/nextjs/internal/proxyHandlers.ts:350-367 | an open login page reached with a reason renders for every visitor |
| RedirectLoops.EveryChainEndsIff | src/nextjs/internal/proxyHandlers.ts:50-264 | for any set of roles: every chain from every URL with every cookies of these roles ends if and only if the handler's login page is not the handler, the proxy's is not protected, and each role's dashboard and refusal pages come to rest within as many redirects as there are protected routes |
| RedirectLoops.LoopFreePagesSettle | src/nextjs/internal/proxyHandlers.ts:50-264 | then every ordinary page settles within `2 * maxRefreshAttempts` plus the number of protected routes plus two redirects |
| RedirectLoops.ChainIsTheWalk | src/nextjs/internal/proxyHandlers.ts:116-207 | the browser of an unblocked signed-in visitor follows the walk of the role hop for hop, for ever if the walk does |
| RedirectLoops.SignedInVisitorSettlesIff | src/nextjs/internal/proxyHandlers.ts:116-207 | such a visitor reaches a page from a given URL if and only if the walk has settled after one redirect more than there are protected routes |
| RedirectLoops.StopRendersIff | src/nextjs/internal/proxyHandlers.ts:116-207 | from a dashboard or a refusal page, with whatever `redirectPath`s, one redirect fewer decides |
| RedirectLoops.DashboardRendersIff | src/nextjs/internal/proxyHandlers.ts:116-207 | a dashboard that is refused without a redirect of its own renders if and only if it admits its role and is no guest page |
| RedirectLoops.SignedOutLoginRendersIff | src/nextjs/internal/proxyHandlers.ts:220-264 | a signed-out visitor of the login page sees a page if and only if it is not protected |
| RedirectLoops.LoginThroughHandlerIff | src/nextjs/createSilentRefreshHandler.ts:223-286 | when the proxy's login page is the silent-refresh route and the upstream keeps answering 2xx without signing in, a signed-out visitor sees a page exactly when the page the handler lands on is not protected |
| RoleWalk.PageSettlesIff | src/nextjs/internal/proxyHandlers.ts:116-207 | the walk of a role from any page settles within the number of protected routes plus one redirects or never |
| RoleWalk.EveryPageSettlesIff | src/nextjs/internal/proxyHandlers.ts:116-207 | looking at the dashboard and the refusal pages alone decides about every page |
| RoleWalk.GoodRulesSettle | src/nextjs/internal/proxyHandlers.ts:116-207 | a role that its dashboard receives, and that every route's own redirect receives when denied, is redirected at most twice |
| RoleWalk.RedirectUnderItselfLoops | src/nextjs/internal/proxyHandlers.ts:190-203 | a route whose `redirectPath` lies under it sends those it denies to the same page for ever |
| RoleWalk.GuestPageBounce | src/nextjs/internal/proxyHandlers.ts:116-207 | a denied dashboard that redirects to a guest page bounces its role between the two for ever |
| RoleWalk.DocumentedRoutingBounces | docs/technical_specification.md:4212-4239 | under the documented routing every role but USER and ADMIN bounces between its dashboard and the login page for ever |
| RedirectLoops.ProtectedLoginLoops | src/nextjs/internal/proxyHandlers.ts:220-264 | a protected login page sends a signed-out visitor to itself for ever |
| AuthProxy.IdentityHeadersDoNotInterfere | src/nextjs/createAuthProxy.ts:251-301 | two requests differing only in identity headers get the same response and forwarded headers on every path |
| AuthProxy.NonInterferenceIff | src/nextjs/createAuthProxy.ts:251-301 | which configurations that holds for: exactly those whose identity names include no background-request header |
| ProxyAnswers.IdentityComesFromTheToken | src/nextjs/internal/proxyHandlers.ts:282-311 | identity headers reach a page only from the token of a request that is let in (a valid access token of the two types, no blocked status, an allowed role); every other response forwards none |
| ProxyAnswers.ProtectedPagesAreGuarded | src/nextjs/internal/proxyHandlers.ts:155-207 | a protected page reaches the application exactly for a request that is let in, by the fields of its token; a prefetch that is not is refused with 401 or 403, anyone else is redirected |
| ProxyAnswers.LetInRequestsCarryIdentity | src/nextjs/internal/proxyHandlers.ts:282-311 | a request that is let in is handed the stripped headers with its token's identity, rewritten exactly to drop a counter |
| ProxyAnswers.RefusedVisitorsAreSentAway | src/nextjs/internal/proxyHandlers.ts:155-264 | where each foreground visitor who is not let in is sent: to refresh, to the login page with or without a reason, or to the page for denied roles |
| ProxyAnswers.OpenPagesAnswer | src/nextjs/internal/proxyHandlers.ts:50-140 | an open page refuses unauthenticated prefetches, sends visitors whose token may be refreshed to refresh and signed-in visitors of guest pages to their dashboard, and lets everyone else through without identity |
| ProxyAnswers.ApiPassesThrough | src/nextjs/createAuthProxy.ts:251-301 | API paths get the stripped headers and nothing else happens |
| ProxyAnswers.StatusIsRead | src/nextjs/internal/proxyHandlers.ts:170-188 | a status blocks exactly when it equals an entry of the list in any case, and the reason is the lowered status |
| ProxyAnswers.PrefetchIsRead | src/nextjs/helpers/isBackgroundRequest.ts:72-83 | a request is in the background exactly when one of the three headers is there and not empty |
| AuthProxy.CounterSurvivesTheRoundTrip | src/nextjs/internal/proxyUtils.ts:33-88 | the counter written on the destination is the one read on return, and the destination carries no reason |
| AuthProxy.ParseIntReadsDecimal | src/nextjs/internal/proxyUtils.ts:33-40 | reading the counter inverts printing it |
| AuthProxy.CounterGuardFires | src/nextjs/internal/proxyUtils.ts:33-40 | the guard fires exactly for counters from the maximum up to the first numeral that parses to Infinity |
| AuthProxy.CounterOfNumeral | src/nextjs/internal/proxyUtils.ts:33-40 | what every text stands for as a counter: white space, a sign, digits and anything behind them, clamped to the maximum, negative and infinite ones zero |
| AuthProxy.HugeCounterReadsAsZero | src/nextjs/internal/proxyUtils.ts:33-40 | from there on every numeral reads as 0, against the comment |
| ProxyHeaders.BuildSanitizedRequestHeaders | src/nextjs/internal/proxyUtils.ts:105-118 | the copy holds the request's headers minus every default and configured identity name, in any spelling |
| ProxyHeaders.BuildForwardedHeaders | src/nextjs/internal/proxyHandlers.ts:282-311 | the forwarded copy is the stripped set with the four slots filled from the claims in order, and the stripped set is not touched |
| ProxyHeaders.Headers.SetOrDelete | src/nextjs/internal/proxyUtils.ts:135-141 | a missing or empty value removes the header, any other is stored without CR, LF and NUL |
| ProxyHeaders.SanitizedCharByChar | src/nextjs/internal/proxyUtils.ts:152-154 | CR, LF and NUL are dropped wherever they stand, every other character is kept in place |
| ProxyHeaders.IdentitySlots | src/nextjs/internal/proxyHandlers.ts:282-311 | each configured slot is a function of the token alone, the last claim winning where names coincide; unconfigured default names stay empty and every other header passes unchanged |
| ProxyHeaders.DistinctSlots | src/nextjs/internal/proxyHandlers.ts:282-311 | with four different names each slot holds its own claim |
| ProxyHeaders.SanitizedIgnoresIdentity | src/nextjs/internal/proxyUtils.ts:105-118 | header sets equal outside the identity names are stripped to the same set |
| ProxyHeaders.StrippedNames | src/nextjs/internal/proxyUtils.ts:105-118 | the names that are stripped: four defaults by name and the four configured ones in lower case |
| Routes.MatchesRoutePattern | src/nextjs/internal/routeClassifier.ts:89-134 | the early-exit loop, its equality shortcut included, decides the segment-wise relation with wildcards and a trailing glob |
| Routes.PlainMatchesIff | src/nextjs/internal/routeClassifier.ts:89-134 | a pattern without a glob matches the paths of as many segments, each equal or under a wildcard |
| Routes.GlobMatchesIff | src/nextjs/internal/routeClassifier.ts:89-134 | a pattern with a last glob matches the paths that begin with segments matching the ones before it |
| Routes.ClassifyRoute | src/nextjs/internal/routeClassifier.ts:40-58 | API routes first, then the first matching protected pattern, then the public routes |
| Routes.FirstMatch | src/nextjs/internal/routeClassifier.ts:46-49 | the chosen route matches and no earlier one does |
| Routes.ValidateProtectedRoutePattern | src/nextjs/internal/configValidation.ts:57-82 | accepts exactly the patterns whose wildcard is last and not first, and names the leading catch-all error exactly for a lone wildcard |
| Routes.ValidPatternIff | src/nextjs/internal/configValidation.ts:57-82 | accepted are exactly the patterns with no wildcard before the last segment and none as the only one |
| Routes.ValidPatternSparesRoot | src/nextjs/internal/configValidation.ts:57-82 | an accepted pattern matches `/` only when it is the root pattern |
| Routes.LeadingGlobMatchesEverything | src/nextjs/internal/configValidation.ts:57-82 | a pattern the validator refuses for that reason would match every path |
| Routes.GlobCoversSubpaths | src/nextjs/internal/routeClassifier.ts:89-134 | whatever is appended below a path a glob protects stays protected |
| Routes.ClassifiedRouteIsConfigured | src/nextjs/internal/routeClassifier.ts:40-58 | a request is never guarded by a route that is not configured or does not match |
| Routes.ClassifiedAs | src/nextjs/internal/routeClassifier.ts:40-58 | what a path is classified as: API by its prefix, protected by the first pattern that matches and no earlier one, public by the list when no pattern does |
| Routes.PublicRouteCovers | src/nextjs/internal/routeClassifier.ts:68-72 | a public route covers itself and everything below it, with or without its last slash, and no bare name prefix |
| Urls.AuthorityIsDropped | src/nextjs/internal/routeClassifier.ts:144-150 | two or more leading slashes start an authority, which is dropped with them; nothing behind it, or one that does not parse, leaves the root |
| Urls.SafePathIsNormal | src/nextjs/internal/routeClassifier.ts:144-150 | a path the safe-path check accepts is already normal |
| Urls.GetAfterSet | src/nextjs/internal/redirectToPath.ts:124-131 | setting a parameter changes what that name answers and no other, whatever duplicates the query held |
| Urls.GetAfterDelete | src/nextjs/internal/proxyUtils.ts:72-88 | deleting removes every occurrence of the name and no other |
| Urls.DeletedParamByParam | src/nextjs/internal/proxyUtils.ts:72-88 | deleting drops exactly the parameters of that name and keeps the others in order |
| Urls.SetIdempotent | src/nextjs/internal/redirectToPath.ts:124-131 | adding the same reason twice is adding it once |
| Urls.SafePathIsKept | src/nextjs/internal/redirectToPath.ts:39-44 | the last check before `Location` changes no path that the safe-path check accepted |
| Urls.SafePathIff | src/nextjs/helpers/routeHandlerUtils.ts:102-112 | a path is safe exactly when it begins with one slash and holds neither a backslash nor a control character |
| Urls.OffOriginGoesHome | src/nextjs/internal/redirectToPath.ts:39-44 | the last check keeps exactly the paths that begin with one slash, no backslash behind it, and hold no control character; every other becomes the root |
| SingleFlight.AuthFetch.GetOrStartRefresh | src/client/createAuthFetch.ts:596-605 | joins the refresh in the slot without sending anything, or sends exactly one and leaves it there |
| SingleFlight.AuthFetch.OnBodyRead | src/client/createAuthFetch.ts:643-649 | a call whose 401 is about another credential returns untouched; the others join or start a refresh |
| SingleFlight.AuthFetch.OnRefreshFinally | src/client/createAuthFetch.ts:600-602 | the settled refresh empties the slot |
| SingleFlight.AuthFetch.OnResume | src/client/createAuthFetch.ts:649-703 | reports the failure, then the expiry when the refresh was rejected, or sends the retry |
| SingleFlight.InvAlways | src/client/createAuthFetch.ts:594-704 | the protocol invariant holds after every interleaving |
| SingleFlight.AtMostOneRefreshOutstanding | src/client/createAuthFetch.ts:594-605 | never two refresh requests in flight |
| SingleFlight.WaitersShare | src/client/createAuthFetch.ts:596-605 | all calls waiting for an unfinished refresh wait for the same one |
| SingleFlight.JoinedRefreshIsLive | src/client/createAuthFetch.ts:596-605 | a call never joins a finished refresh, and a new one is sent exactly when none is running |
| SingleFlight.StartersDiffer | src/client/createAuthFetch.ts:596-605 | every refresh was started by a call of its own |
| SingleFlight.CallContract | src/client/createAuthFetch.ts:607-704 | a call sends once, twice exactly when its refresh renewed the session; each failure is reported once with its outcome, each rejection once as expiry |
| SingleFlight.JoinedIff | src/client/createAuthFetch.ts:634-650 | a call ever joins a refresh exactly when its first answer was a 401 and the code in its body was absent or that of an invalid access token |
| SingleFlight.FirstAnswerDecides | src/client/createAuthFetch.ts:634-650 | from every reachable state: a 401 with such a code leaves the call waiting for a live refresh; any other code, any other answer and a throw leave it returned |
| SingleFlight.OutcomeIsTheAnswers | src/client/createAuthFetch.ts:487-541 | a call is retried exactly for a 2xx refresh, and each failure is reported once with the reason its status and code stand for |
| SingleFlight.RefusalsSpelledOut | src/client/createAuthFetch.ts:426-431 | the refusals that end a session: 401, or 403 with one of four account codes |
| SingleFlight.ExpiryFollowsItsReason | src/client/createAuthFetch.ts:658-691 | an expiry notice directly follows the same call's failure notice |
| SingleFlight.ExpiryNeedsARefusal | src/client/createAuthFetch.ts:487-541 | a session is called expired exactly when the call's own refresh was answered 401, or 403 with a terminal account code |
| SingleFlight.WaitersConclude | src/client/createAuthFetch.ts:594-704 | from every reachable state, whatever the answer, at most three steps bring a waiting call to the conclusion its refresh's answer calls for, and no other call moves |
| SessionProvider.Provider.SyncedDispatch | src/react/AuthProvider.tsx:246-261 | the mirror takes the status the reducer will give the action |
| SessionProvider.Provider.OnGetMe | src/react/AuthProvider.tsx:271-303 | an answer of an older generation changes nothing; a 401 fires the notice only for an authenticated background check and clears the session; other failures set the error state |
| SessionProvider.Provider.OnLogin | src/react/AuthProvider.tsx:324-377 | success and the MFA gate start a new generation, a failure does not |
| SessionProvider.Provider.OnRegister | src/react/AuthProvider.tsx:379-395 | the same for registration |
| SessionProvider.Provider.ClearLocalSession | src/react/AuthProvider.tsx:399-402 | new generation, then cleared session |
| SessionProvider.Provider.OnLogout | src/react/AuthProvider.tsx:404-424 | clears on success or a final answer, otherwise leaves everything as it was |
| SessionProvider.InvAlways | src/react/AuthProvider.tsx:141-303 | the provider invariant holds after every interleaving |
| SessionProvider.StatusIsTruthful | src/react/AuthProvider.tsx:141-261 | the mirror equals the reducer folded over every dispatched action; authenticated means a user, unauthenticated means none |
| SessionProvider.ShownUserIsTheLast | src/react/AuthProvider.tsx:141-156 | in every run a signed-in page shows the user and time of the last action there was, which set them |
| SessionProvider.AnswersShow | src/react/AuthProvider.tsx:141-424 | the page after every step, by its answer: exactly the new user and time, no user, or the page before |
| SessionProvider.AnswersLandOnce | src/react/AuthProvider.tsx:271-424 | every call is answered once, and an answer touches no other call |
| SessionProvider.NoticeFiresIff | src/react/AuthProvider.tsx:283-299 | the expiry notice fires exactly on the 401 of a current background check of a signed-in page, right before the session is cleared |
| SessionProvider.OneNoticePerSession | src/react/AuthProvider.tsx:283-299 | between two expiry notices a user was set |
| SessionProvider.NoNoticeWithoutASession | src/react/AuthProvider.tsx:283-299 | before the first notice a user was set |
| SessionProvider.StaleAnswersAreInert | src/react/AuthProvider.tsx:271-303 | a getMe issued before a sign-in, an MFA gate or a settled logout never changes state or fires a callback afterwards |
| SessionProvider.NoStaleResurrection | src/react/AuthProvider.tsx:399-424 | after a settled logout or an MFA gate the status is authenticated again only through a later sign-in or a getMe issued after it |
| Logout.CookiesClearedIff | src/nextjs/createLogoutHandler.ts:162-278 | in both modes cookies are deleted exactly for a same-site POST the upstream settled; only then is there a redirect, and `Retry-After` is passed on but never invented |
| Logout.AnswersByStatus | src/nextjs/createLogoutHandler.ts:162-278 | the status every request is answered with |
| Logout.ResolvesIff | src/client/createAuthClient.ts:279-336 | the client's logout resolves for a 2xx and otherwise rejects with the status it was answered with |
| Logout.SettledLogoutDeletesTheThree | src/nextjs/createLogoutHandler.ts:289-302 | a settled logout writes three deletions that, read back, name the access, refresh and session cookies with their own paths and the domain |
| Logout.AgreementIff | src/nextjs/createLogoutHandler.ts:162-212 | one attempt deletes the cookies exactly when the provider clears its session, for every upstream answer, if and only if it was a same-site POST or its response was lost |
| Logout.LogoutAgreement | src/react/AuthProvider.tsx:404-424 | over any sequence of attempts, cookies and session are both intact until the first settled one and both gone from then on |
| LogoutRuns.OneAnswerAgrees | src/nextjs/createLogoutHandler.ts:196-212 | whatever else is in flight, a settled logout takes cookies and session together, any other answer leaves both as they were |
| LogoutRuns.SignedInHoldsCookies | src/react/AuthProvider.tsx:271-424 | in every interleaving of getMe, login, register and logouts answered by the handler, a user is shown as signed in only while the browser holds cookies |
| LogoutRuns.LogoutRule | src/react/AuthProvider.tsx:404-424 | over any such run without a new sign-in, cookies are intact exactly until a logout is settled, and from then on nobody is shown as signed in |
| Logout.ClearCookieNamesItsTarget | src/nextjs/helpers/routeHandlerUtils.ts:78-81 | for every name, domain and path the factory accepts, parsing a deletion gives back the name, the domain and the path up to spaces at its end |
| LastWriter.DedupePreservesReplay | src/nextjs/helpers/dedupeSetCookieHeaders.ts:283-309 | replaying the short list into any jar equals replaying the whole list |
| LastWriter.DedupeIsOnePerId | src/nextjs/helpers/dedupeSetCookieHeaders.ts:283-309 | one survivor per identity, all from the input |
| LastWriter.DedupeInStages | src/nextjs/helpers/dedupeSetCookieHeaders.ts:283-309 | deduplicating in stages is deduplicating once |
| LastWriter.TrackedPickIsDedupe | src/nextjs/helpers/dedupeSetCookieHeaders.ts:283-309 | sorting the last index of every key and reading there keeps the last occurrences in order |
| SetCookie.DedupeSetCookieHeaders | src/nextjs/helpers/dedupeSetCookieHeaders.ts:283-309 | the map-and-sort algorithm keeps exactly the cookies no later one overwrites, in order, dropping unusable entries |
| SetCookie.KeptInOrder | src/nextjs/helpers/dedupeSetCookieHeaders.ts:283-309 | where no domain holds a pipe, what is kept is, in order, the usable cookies that no later usable cookie of the same name and domain follows |
| SetCookie.PairJarPreserved | src/nextjs/helpers/dedupeSetCookieHeaders.ts:283-309 | and a jar keyed by name and domain cannot tell the two lists apart |
| SetCookie.DedupePreservesJar | src/nextjs/helpers/dedupeSetCookieHeaders.ts:283-309 | a jar keyed by name and domain cannot tell the two lists apart |
| SetCookie.OneKeptPerKey | src/nextjs/helpers/dedupeSetCookieHeaders.ts:283-309 | no key survives twice |
| SetCookie.BrowserJarPreservedIff | src/nextjs/helpers/dedupeSetCookieHeaders.ts:349-355 | a jar that also tells paths apart is preserved exactly when no key appears under two paths |
| SetCookie.KeysAgreeIff | src/nextjs/helpers/dedupeSetCookieHeaders.ts:349-355 | exactly which pairs share a key: equal ones, and those that cut the same text at two pipes |
| SetCookie.OwnKeyIff | src/nextjs/helpers/dedupeSetCookieHeaders.ts:349-355 | a pair shares its key with no other if and only if neither its name nor its domain holds a pipe |
| SetCookie.KeyIsTheNameDomainPair | src/nextjs/helpers/dedupeSetCookieHeaders.ts:349-355 | among domains without a pipe, equal keys mean equal name and domain, whatever the names |
| SetCookie.ParseCookieAttributes | src/nextjs/helpers/dedupeSetCookieHeaders.ts:182-228 | the last Domain (lowered) and the last Path win |
| SetCookie.NameReads | src/nextjs/helpers/dedupeSetCookieHeaders.ts:139-162 | the name is what stands before the first equals sign of the first piece, without its padding |
| SetCookie.NamelessIsDropped | src/nextjs/helpers/dedupeSetCookieHeaders.ts:139-162 | a line whose first piece has no equals sign has no name and is dropped |
| SetCookie.AttributeReads | src/nextjs/helpers/dedupeSetCookieHeaders.ts:235-243 | attribute names are read in any case and both parts without their padding |
| SetCookie.LastOfItsName | src/nextjs/helpers/dedupeSetCookieHeaders.ts:182-228 | of several attributes of a name the last is read |
| SetCookie.ContainsHeaderSmugglingBytes | src/nextjs/helpers/dedupeSetCookieHeaders.ts:357-368 | finds exactly the lines with CR or LF |
| LegacySplit.LooksLikeCookieStart | src/nextjs/helpers/dedupeSetCookieHeaders.ts:421-441 | the two scanning loops decide "white space, token, equals sign" |
| LegacySplit.SplitLegacySetCookie | src/nextjs/helpers/dedupeSetCookieHeaders.ts:403-419 | cuts at exactly the commas that precede a cookie, trims and drops empties, refuses oversized input |
| LegacySplit.SplitInvertsJoinIff | src/nextjs/helpers/dedupeSetCookieHeaders.ts:403-419 | for any list of cookies, splitting the join gives the list back exactly when none holds a separator comma itself and the joined value keeps to the size limit |
| LegacySplit.LookaheadStopsAtComma | src/nextjs/helpers/dedupeSetCookieHeaders.ts:421-470 | the look-ahead never reads past a comma |
| LegacySplit.CutsWhereCookiesBegin | src/nextjs/helpers/dedupeSetCookieHeaders.ts:403-470 | the splitter cuts at exactly the commas behind which white space, a token of letters, digits and fifteen marks, and an equals sign follow |
| LegacySplit.DateCommaNeverSplits | src/nextjs/helpers/dedupeSetCookieHeaders.ts:403-441 | the comma of an IMF-fixdate is never a separator |
| LegacySplit.CookiesWithDatesRoundTrip | src/nextjs/helpers/dedupeSetCookieHeaders.ts:403-419 | cookies whose only commas are in dates come back unchanged |
| Words.BitwiseAnd | src/server/crypto/totp.ts:68-76 | `&` works on each bit by itself |
| Words.BitwiseOr | src/server/crypto/totp.ts:64-107 | so does the or operator |
| Base32.ToBase32 | src/server/crypto/totp.ts:59-80 | the wrapping 32-bit accumulator spells the input's bits in groups of five |
| Base32.FromBase32 | src/server/crypto/totp.ts:93-117 | it collects whole bytes of the spelled bits, or reports the first character outside the alphabet |
| Base32.DecodeInvertsEncode | src/server/crypto/totp.ts:59-117 | every byte sequence of any length survives the round trip |
| Base32.EncodeInvertsDecodeIff | src/server/crypto/totp.ts:59-117 | re-encoding reproduces exactly the canonical spellings |
| Base32.EncodedLength | src/server/crypto/totp.ts:59-80 | one character per five bits begun |
| Base32.SeparatorsAreIgnored | src/server/crypto/totp.ts:93-96 | white space, hyphens and padding anywhere do not change the result |
| Base32.CaseIsIgnored | src/server/crypto/totp.ts:93-96 | nor does letter case |
| Base32.DecodeFailsIff | src/server/crypto/totp.ts:93-103 | decoding fails exactly when some character is neither a separator nor upper-cased into the alphabet |
| Base32.AcceptedOutsiders | src/server/crypto/totp.ts:93-103 | beyond the alphabet, separators and lower-case letters exactly ten characters are accepted |
| Base32.CharactersReadAsUpperCase | src/server/crypto/totp.ts:93-96 | each character reads as its upper case, one letter or several, wherever it stands |
| Otp.CounterBuffer | src/server/crypto/totp.ts:242-246 | the two 32-bit halves are the eight big-endian bytes of the counter |
| Otp.CounterBytesDetermine | src/server/crypto/totp.ts:236-246 | different safe counters hash different messages |
| Otp.Truncate | src/server/crypto/totp.ts:250-258 | masks, shifts and ors compute the 31-bit number at the offset, always within the digest |
| Otp.TruncatedIsTheStandards | src/server/crypto/totp.ts:250-258 | the number is that of the four bytes at the offset the last byte's low half names, without the sign bit |
| Otp.StandardExample | src/server/crypto/totp.ts:250-261 | the example of section 5.4 of RFC 4226 |
| Otp.ShiftsAreArithmetic | src/server/crypto/totp.ts:253-258 | four shifted bytes joined by or are their positional value |
| Otp.CodeIsSixDigits | src/server/crypto/totp.ts:260-261 | every code is six digits that read back to the value modulo a million |
| Otp.GenerateHotp | src/server/crypto/totp.ts:222-262 | the code of the counter, or the error of the first failing check |
| Otp.CodesAreTheStandards | src/server/crypto/totp.ts:222-262 | end to end: the six digits read as that number of the hash of the decoded secret and the counter's eight bytes, modulo a million |
| Otp.HotpIsOkIff | src/server/crypto/totp.ts:222-240 | there is a code exactly for a decodable secret of 20 bytes or more and a safe counter, and otherwise the error of the first failing check |
| Otp.VerifyTotp | src/server/crypto/totp.ts:322-350 | accepts exactly when some step within the clamped window has the code |
| Otp.FormatCheckIsRedundant | src/server/crypto/totp.ts:323-324 | nothing else than six digits is ever a step's code |
| Otp.EnumeratedDuring | src/server/crypto/totp.ts:326-337 | a step is compared during an interval of exactly `(2e + 1) * 30` seconds |
| Otp.ReplayMemoryIsExact | src/server/crypto/totp.ts:311-315 | remembering a used code for that long is enough, and for less is not |
| UserSubject.SubjectIsInjective | src/server/constants/user-subject.ts:46-83 | two accounts share a subject exactly when plane, user and interpolated tenant agree, whatever colons, digits or lone surrogates they hold |
| UserSubject.SubjectBytesAreInjective | src/server/constants/user-subject.ts:46-83 | on the UTF-8 bytes that are hashed, exactly when the ids have equal bytes |
| UserSubject.LoneSurrogatesMerge | src/server/constants/user-subject.ts:46-83 | tenants that are different lone surrogates have different subjects with the same bytes |
| UserSubject.SubjectLayout | src/server/constants/user-subject.ts:46-83 | the layout letter for letter; an absent tenant is spelled `undefined` |
| UserSubject.PairsAreSpelled | src/server/constants/user-subject.ts:46-83 | a surrogate pair is encoded as the four shortest UTF-8 bytes of its code point |
| UserSubject.UnitsAreSpelled | src/server/constants/user-subject.ts:46-83 | any other unit as its one to three bytes, a lone surrogate as the replacement character |
| ApiKey.ParseInvertsFormat | src/server/crypto/api-key.ts:77-101 | a key parses to an id and secret exactly when it is their formatting and both are well formed, underscores in the secret included |
| ApiKey.FormattedKeyParses | src/server/crypto/api-key.ts:26-101 | every key of a prefix, five hexadecimal groups and 43 URL-safe characters parses, underscores included |
| ApiKey.OnePrefix | src/server/crypto/api-key.ts:91-101 | no key parses under two prefixes |
| ScryptConfig.AcceptedIff | src/server/config/resolved-options.ts:1016-1167 | a configuration starts exactly when N is a true power of two from 2^14 to 2^19, r is whole and at least 8, p is whole and at least 1, and `128 * N * r` is at most 2^29 |
| ScryptConfig.AcceptedSpelledOut | src/server/config/resolved-options.ts:1016-1167 | the accepted configurations by value: six cost factors, whole block sizes from 8, whole parallelizations from 1, within 512 MiB with the defaults for absent values |
| ScryptConfig.ErrorsNameTheirOption | src/server/config/resolved-options.ts:980-1132 | which error is reported, with the option it names |
| ScryptConfig.BitTestIff | src/server/config/resolved-options.ts:1030-1034 | the bit test sees the low 32 bits: it passes powers of two there, and zero |
| ScryptConfig.BitTestAloneIsNotEnough | src/server/config/resolved-options.ts:1030-1034 | it passes every number above 1 whose low 32 bits are 1, none of them a power of two |
| Lifetime.ReadsAmountTimesUnit | src/server/config/resolved-options.ts:1655-1667 | every printed amount with a listed unit in any case, spaced in any way, reads back as amount times unit, and zero is refused |
| Lifetime.UnitsOnTexts | src/server/config/resolved-options.ts:1594-1626 | what each listed unit is worth, on whole amounts written before it in any case |
| Lifetime.FractionIsDecimal | src/server/config/resolved-options.ts:1655-1667 | the digits behind the point are worth their numeral over the power of ten |
| Lifetime.WholeDaysAcceptedIff | src/server/config/resolved-options.ts:1687-1707 | whole days are accepted from one to thirty |
| Lifetime.DurationIff | src/server/config/resolved-options.ts:1636-1667 | exactly which texts are read and as what: a positive amount, a run that does not carry it on, and a unit that is listed (so many seconds) or inherited (NaN) |
| Lifetime.DocumentedSpanIff | src/server/config/resolved-options.ts:1636-1667 | the documented spans (amount, spaces, listed unit) are exactly the texts read as a number with nothing but spaces between amount and unit |
| Lifetime.UndocumentedSpansAreRead | src/server/config/resolved-options.ts:1636-1667 | `1 2h` and `5.h` are read as one and five hours and are no documented spans |
| Lifetime.AcceptedLifetimeIsBoundedIff | src/server/config/resolved-options.ts:1687-1707 | an accepted lifetime lies in (0, 2592000] seconds exactly when its unit is not an inherited property name |
| Lifetime.InheritedUnitsAreAccepted | src/server/config/resolved-options.ts:1655-1707 | any whole amount of `constructor` or `__proto__` is accepted, and its logout marker has no numeric lifetime |
| Lifetime.MarkerOutlivesTheTokenIff | src/server/constants/logout-pending.ts:48-51 | for every accepted option, given or not, the marker is numeric and no shorter than the validated lifetime if and only if the option is given and its unit is not inherited |
| Lifetime.MarkerLifetime | src/server/constants/logout-pending.ts:48-51 | it is five minutes without the option, NaN for an inherited unit, and otherwise the least whole number of seconds not shorter than the lifetime or five minutes, never longer than the retention window |
| Lifetime.DefaultIsFifteenMinutes | src/server/config/resolved-options.ts:1687-1689 | the default an absent option is validated as is 900 seconds |

## Left out

- RefreshLoop.ChainsTerminate: assumes that a token valid at one hop stays valid until the cookies are written again, that `maxRefreshAttempts` is a safe integer, and that a `redirect` parameter is either a parsed same-origin URL or text that does not parse as one; the dashboard is a function of the role.
- RedirectLoops.EveryChainEndsIff: deployments in which the proxy's login page, a dashboard or a `redirectPath` is the silent-refresh route itself are not decided in general; `RedirectLoops.LoginThroughHandlerIff` decides the signed-out visitor of such a login page.
- RefreshLoop.LinkKept: dot segments of the raw `redirect` text are taken as resolved; for a raw `/.//x` the code resolves to `//x` and ends at `/`, where the model, given the resolved path, answers the login page.
- RefreshLoop.HopDescends: percent-encoding, dot segments, fragments and the rest of WHATWG URL parsing; URLs are a path and a list of query pairs.
- Urls.AuthorityIsDropped: whether a URL parser accepts the authority after leading slashes is a free predicate; the function is not idempotent and nothing claims it is.
- AuthProxy.IdentityHeadersDoNotInterfere: the cookies are taken apart from the `cookie` header, so the identity names are assumed not to include it.
- ProxyAnswers.ProtectedPagesAreGuarded: signature, expiry and claim decoding of the token are an input.
- Non-ASCII case folding: statuses, domains and header names are lowered as ASCII.
- SingleFlight.CallContract: URL resolution, header merging, timeouts, a throwing first request beyond its step, the body-read timeout and the skip list (its verdict is part of the first answer); callbacks do not call back into the wrapper.
- SingleFlight.WaitersConclude: says that the steps can be taken, not that the network takes them.
- SessionProvider.NoStaleResurrection: the generation object is a counter, since only its identity is compared; `Date` values are integers; React rendering, effects and timers appear only as steps that start a revalidation.
- LogoutRuns.SignedInHoldsCookies: an answer's cookies and the provider's reaction to it are one step; other tabs and a failed silent refresh, which clear cookies behind the provider's back, are not part of the run, and every deletion reaches the cookie it names.
- Logout.LogoutAgreement: statuses outside the range a `Response` accepts are not excluded.
- SetCookie.DedupeSetCookieHeaders: sizes are counted in characters of the model where the code counts UTF-16 units; SameSite, Max-Age, Expires, HttpOnly and Secure do not take part in identity and are not parsed; sorting the indexes is a function.
- SetCookie.BrowserJarPreservedIff: a browser's jar is keyed by name, domain and path as written, without default paths or host-only cookies.
- Base32.FromBase32: `toUpperCase` is modelled for the characters whose upper case holds alphabet letters.
- Otp.VerifyTotp: HMAC-SHA1 is any function to twenty bytes, the clock is a parameter, the window is an integer, and constant time is not modelled.
- ScryptConfig.AcceptedIff: products are exact reals where the code rounds doubles; the accepted range is exact in both.
- Lifetime.ReadsAmountTimesUnit: amounts are exact reals, so overflow to Infinity (refused as too long), underflow to zero and rounding are not modelled.
- The Next.js middleware matcher, the refusal's body and cache headers, and the factory checks that are one branch each.
- NestJS modules, controllers and DTOs, token rotation and revocation, sessions, brute-force locks and the cryptographic primitives.
