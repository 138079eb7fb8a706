/** Route patterns: validation when the proxy is built, matching and classification per request. */
module Routes {
  import opened Strings
  import opened Urls

  datatype ProtectedRoute = ProtectedRoute(
    pattern: string,
    allowedRoles: seq<string>,
    redirectPath: Option<Target>)

  datatype RouteTable = RouteTable(publicRoutes: seq<string>, protectedRoutes: seq<ProtectedRoute>)

  datatype RouteKind = Api | Protected(route: ProtectedRoute) | Public | Unmatched

  datatype PatternError = WildcardNotLast | LeadingCatchAll

  const API_PREFIX := "/api/auth/"

  function Segments(path: string): (segments: seq<string>)
    ensures forall i :: 0 <= i < |segments| ==> segments[i] != ""
  {
    NonEmpty(Split(path, '/'))
  }

  predicate IsGlob(segment: string) {
    EndsWith(segment, "*")
  }

  predicate IsGlobPattern(pattern: seq<string>) {
    pattern != [] && IsGlob(pattern[|pattern| - 1])
  }

  predicate SegmentMatches(pattern: string, segment: string) {
    StartsWith(pattern, ":") || pattern == segment
  }

  /** The segments a pattern compares one by one: all of them, except a trailing glob. */
  function Fixed(pattern: seq<string>): seq<string> {
    if IsGlobPattern(pattern) then pattern[..|pattern| - 1] else pattern
  }

  /**
   * The meaning of a pattern: its fixed segments match the path's leading segments one to one,
   * and the path has no others unless a trailing glob absorbs them.
   */
  predicate SegmentsMatch(path: seq<string>, pattern: seq<string>) {
    && |Fixed(pattern)| <= |path|
    && (IsGlobPattern(pattern) || |path| == |pattern|)
    && forall i :: 0 <= i < |Fixed(pattern)| ==> SegmentMatches(Fixed(pattern)[i], path[i])
  }

  predicate Matches(pathname: string, pattern: string) {
    SegmentsMatch(Segments(pathname), Segments(pattern))
  }

  /** A pattern without a glob: as many segments as the path, each a wildcard or equal. */
  lemma PlainMatchesIff(path: seq<string>, pattern: seq<string>)
    requires pattern == [] || !EndsWith(pattern[|pattern| - 1], "*")
    ensures SegmentsMatch(path, pattern) <==>
      && |path| == |pattern|
      && forall i :: 0 <= i < |pattern| ==> ":" <= pattern[i] || pattern[i] == path[i]
  {
  }

  /** A pattern that ends in a glob: the path has at least the segments before it, and any behind. */
  lemma GlobMatchesIff(path: seq<string>, before: seq<string>, glob: string)
    requires EndsWith(glob, "*")
    ensures SegmentsMatch(path, before + [glob]) <==>
      && |path| >= |before|
      && forall i :: 0 <= i < |before| ==> ":" <= before[i] || before[i] == path[i]
  {
    var pattern := before + [glob];
    assert pattern[|pattern| - 1] == glob && pattern[..|pattern| - 1] == before;
    assert Fixed(pattern) == before;
  }

  method MatchesRoutePattern(pathname: string, pattern: string) returns (matched: bool)
    ensures matched == Matches(pathname, pattern)
  {
    if pattern == pathname {
      return true;
    }
    var patternSegments := Segments(pattern);
    var pathSegments := Segments(pathname);
    for i := 0 to |patternSegments|
      invariant i <= |pathSegments|
      invariant i < |patternSegments| || !IsGlobPattern(patternSegments)
      invariant forall j :: 0 <= j < i ==> SegmentMatches(patternSegments[j], pathSegments[j])
    {
      var patternSegment := patternSegments[i];
      if i == |patternSegments| - 1 && (patternSegment == "*" || EndsWith(patternSegment, "*")) {
        return true;
      }
      if i >= |pathSegments| {
        return false;
      }
      if StartsWith(patternSegment, ":") {
        continue;
      }
      if patternSegment != pathSegments[i] {
        assert !SegmentMatches(Fixed(patternSegments)[i], pathSegments[i]);
        return false;
      }
    }
    return |pathSegments| == |patternSegments|;
  }

  /** A pattern the factory accepts: a wildcard only in the last segment, and never in the first. */
  predicate ValidPattern(pattern: string) {
    var segments := Segments(pattern);
    forall i :: 0 <= i < |segments| && IsGlob(segments[i]) ==> i == |segments| - 1 && i != 0
  }

  /** Which patterns are accepted: no wildcard before the last segment, and none as the only one. */
  lemma ValidPatternIff(pattern: string)
    ensures var segments := Segments(pattern);
      ValidPattern(pattern) <==>
        && (forall i :: 0 <= i < |segments| && i + 1 < |segments| ==> !EndsWith(segments[i], "*"))
        && (|segments| == 1 ==> !EndsWith(segments[0], "*"))
  {
    hide Segments, EndsWith;
    var segments := Segments(pattern);
    if |segments| > 0 && IsGlob(segments[|segments| - 1]) {
      assert |segments| == 1 || !(|segments| - 1 == 0);
    }
  }

  method ValidateProtectedRoutePattern(pattern: string) returns (r: Result<(), PatternError>)
    ensures r.Ok? <==> ValidPattern(pattern)
    ensures r == Err(LeadingCatchAll) <==> |Segments(pattern)| == 1 && IsGlob(Segments(pattern)[0])
  {
    var segments := Segments(pattern);
    for i := 0 to |segments|
      invariant forall j :: 0 <= j < i ==> !IsGlob(segments[j]) || (j == |segments| - 1 && j != 0)
    {
      var segment := segments[i];
      if !(segment == "*" || EndsWith(segment, "*")) {
        continue;
      }
      if i != |segments| - 1 {
        return Err(WildcardNotLast);
      }
      if i == 0 {
        return Err(LeadingCatchAll);
      }
    }
    return Ok(());
  }

  lemma RootHasNoSegments()
    ensures Segments("/") == []
  {
    assert "/"[..0] == "" && "/"[1..] == "";
    assert Split("/", '/') == ["", ""];
    assert NonEmpty([""]) == [];
    assert ["", ""][1..] == [""];
  }

  /** An accepted pattern leaves the site root alone unless it is the root pattern itself. */
  lemma ValidPatternSparesRoot(pattern: string)
    requires ValidPattern(pattern)
    ensures Matches("/", pattern) <==> Segments(pattern) == []
  {
    RootHasNoSegments();
    var segments := Segments(pattern);
    if IsGlobPattern(segments) {
      assert IsGlob(segments[|segments| - 1]);
    }
  }

  /** Without validation a single leading glob takes the root, and with it every path there is. */
  lemma LeadingGlobMatchesEverything(pattern: string, pathname: string)
    requires |Segments(pattern)| == 1 && IsGlob(Segments(pattern)[0])
    ensures Matches(pathname, pattern)
  {
  }

  lemma {:induction false} NonEmptyConcat(a: seq<string>, b: seq<string>)
    ensures NonEmpty(a + b) == NonEmpty(a) + NonEmpty(b)
  {
    if a == [] {
      assert a + b == b;
    } else {
      assert (a + b)[1..] == a[1..] + b;
      NonEmptyConcat(a[1..], b);
    }
  }

  lemma SplitLater(head: string, sep: char, tail: string, b: string)
    requires sep !in head
    requires Split(tail + [sep] + b, sep) == Split(tail, sep) + Split(b, sep)
    ensures Split(head + [sep] + tail + [sep] + b, sep) == Split(head + [sep] + tail, sep) + Split(b, sep)
  {
    hide IndexOf, Split;
    SplitFirst(head, sep, tail);
    SplitFirst(head, sep, tail + [sep] + b);
    assert head + [sep] + tail + [sep] + b == head + [sep] + (tail + [sep] + b);
    assert [head] + (Split(tail, sep) + Split(b, sep)) == [head] + Split(tail, sep) + Split(b, sep);
  }

  lemma {:induction false} SplitConcat(a: string, sep: char, b: string)
    ensures Split(a + [sep] + b, sep) == Split(a, sep) + Split(b, sep)
    decreases |a|
  {
    hide IndexOf, Split;
    var k := IndexOf(a, sep);
    assert a[..|a|] == a;
    if k == |a| {
      SplitFirst(a, sep, b);
      OnePiece(a, sep);
    } else {
      assert a == a[..k] + [sep] + a[k + 1..];
      SplitConcat(a[k + 1..], sep, b);
      SplitLater(a[..k], sep, a[k + 1..], b);
    }
  }

  /** A path a trailing-glob pattern protects stays protected with anything appended below it. */
  lemma GlobCoversSubpaths(pathname: string, below: string, pattern: string)
    requires IsGlobPattern(Segments(pattern)) && Matches(pathname, pattern)
    ensures Matches(pathname + "/" + below, pattern)
  {
    SplitConcat(pathname, '/', below);
    NonEmptyConcat(Split(pathname, '/'), Split(below, '/'));
  }

  /** A public route string matches itself and everything below it, never a bare name prefix. */
  predicate MatchesPublicRoute(pathname: string, route: string) {
    pathname == route ||
    if EndsWith(route, "/") then StartsWith(pathname, route) else StartsWith(pathname, route + "/")
  }

  predicate AnyPublicRoute(pathname: string, routes: seq<string>) {
    exists i :: 0 <= i < |routes| && MatchesPublicRoute(pathname, routes[i])
  }

  /** Index of the first protected route whose pattern matches, or the length when none does. */
  function FirstMatch(pathname: string, routes: seq<ProtectedRoute>): (k: nat)
    ensures k <= |routes|
    ensures k < |routes| ==> Matches(pathname, routes[k].pattern)
    ensures forall i :: 0 <= i < k ==> !Matches(pathname, routes[i].pattern)
  {
    if routes == [] || Matches(pathname, routes[0].pattern) then 0
    else 1 + FirstMatch(pathname, routes[1..])
  }

  function Classify(pathname: string, table: RouteTable): RouteKind {
    if StartsWith(pathname, API_PREFIX) then Api
    else
      var k := FirstMatch(pathname, table.protectedRoutes);
      if k < |table.protectedRoutes| then Protected(table.protectedRoutes[k])
      else if AnyPublicRoute(pathname, table.publicRoutes) then Public
      else Unmatched
  }

  /** The page is guarded by the first configured route that matches it, and never by an API path's. */
  predicate IsGuardedBy(pathname: string, table: RouteTable, k: nat) {
    && k < |table.protectedRoutes|
    && Matches(pathname, table.protectedRoutes[k].pattern)
    && forall j :: 0 <= j < k ==> !Matches(pathname, table.protectedRoutes[j].pattern)
  }

  predicate HasGuard(pathname: string, table: RouteTable) {
    exists j :: 0 <= j < |table.protectedRoutes| && Matches(pathname, table.protectedRoutes[j].pattern)
  }

  lemma FirstMatchIff(pathname: string, table: RouteTable)
    ensures var k := FirstMatch(pathname, table.protectedRoutes);
      && (k < |table.protectedRoutes| <==> HasGuard(pathname, table))
      && (k < |table.protectedRoutes| ==> IsGuardedBy(pathname, table, k))
  {
    hide Matches, FirstMatch;
    var k := FirstMatch(pathname, table.protectedRoutes);
    assert k < |table.protectedRoutes| ==> Matches(pathname, table.protectedRoutes[k].pattern);
  }

  /** What a path is classified as, kind by kind. */
  lemma ClassifiedAs(pathname: string, table: RouteTable)
    ensures var kind := Classify(pathname, table);
      var isApi := "/api/auth/" <= pathname;
      && (kind.Api? <==> isApi)
      && (kind.Protected? <==> !isApi && HasGuard(pathname, table))
      && (kind.Protected? ==>
            exists k: nat :: IsGuardedBy(pathname, table, k) && kind.route == table.protectedRoutes[k])
      && (kind.Public? <==>
            && !isApi && !HasGuard(pathname, table)
            && exists j :: 0 <= j < |table.publicRoutes| && MatchesPublicRoute(pathname, table.publicRoutes[j]))
  {
    hide FirstMatch, HasGuard, IsGuardedBy, MatchesPublicRoute;
    FirstMatchIff(pathname, table);
    var k := FirstMatch(pathname, table.protectedRoutes);
    assert k < |table.protectedRoutes| ==> IsGuardedBy(pathname, table, k);
  }

  lemma ClassifiedRouteIsConfigured(pathname: string, table: RouteTable)
    ensures var kind := Classify(pathname, table);
      kind.Protected? ==> kind.route in table.protectedRoutes && Matches(pathname, kind.route.pattern)
  {
  }

  /** A public route covers itself and everything below it, with or without its own last slash. */
  lemma PublicRouteCovers(pathname: string, stem: string)
    requires stem == "" || stem[|stem| - 1] != '/'
    ensures MatchesPublicRoute(pathname, stem + "/") <==> exists below :: pathname == stem + "/" + below
    ensures MatchesPublicRoute(pathname, stem) <==>
      pathname == stem || exists below :: pathname == stem + "/" + below
  {
    var slashed := stem + "/";
    assert slashed[|stem|..] == "/";
    assert !EndsWith(stem, "/");
    if slashed <= pathname {
      assert pathname == slashed + pathname[|slashed|..];
    }
    assert forall below :: pathname == slashed + below ==> slashed <= pathname;
  }

  method ClassifyRoute(pathname: string, table: RouteTable) returns (kind: RouteKind)
    ensures kind == Classify(pathname, table)
  {
    hide Matches, MatchesPublicRoute;
    if StartsWith(pathname, API_PREFIX) {
      return Api;
    }
    for i := 0 to |table.protectedRoutes|
      invariant forall j :: 0 <= j < i ==> !Matches(pathname, table.protectedRoutes[j].pattern)
    {
      var matched := MatchesRoutePattern(pathname, table.protectedRoutes[i].pattern);
      if matched {
        return Protected(table.protectedRoutes[i]);
      }
    }
    for i := 0 to |table.publicRoutes|
      invariant forall j :: 0 <= j < i ==> !MatchesPublicRoute(pathname, table.publicRoutes[j])
    {
      if MatchesPublicRoute(pathname, table.publicRoutes[i]) {
        return Public;
      }
    }
    return Unmatched;
  }
}
