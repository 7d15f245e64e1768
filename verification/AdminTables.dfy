/** The management UI's own path tables, and the two bypass patterns compiled from them. */
module AdminTables {
  import opened Basics
  import opened Text
  import opened Regex
  import opened Tokens
  import opened GuardMeaning
  import opened AdminPaths

  datatype Tables = Tables(exact: seq<string>, prefixes: seq<string>, segments: seq<string>, login: seq<string>)

  const SEGMENT_PREFIXES: seq<string> := [
    "/dashboard", "/sites", "/services", "/anti-ddos", "/tls", "/requests", "/revisions", "/events", "/bans",
    "/jobs", "/administration", "/activity", "/settings", "/about", "/profile", "/healthcheck", "/onboarding"]

  const EXACT_PATHS: seq<string> := [
    "/", "/auth", "/auth/verify", "/api/app", "/api/auth", "/api/dashboard", "/api/reports", "/api/sites",
    "/api/upstreams", "/api/certificates", "/api/tls-configs", "/api/easy-site-profiles", "/api/access-policies",
    "/api/requests", "/api/revisions", "/api/events", "/api/bans", "/api/jobs", "/api/settings",
    "/api/administration", "/api/management-hosts"]

  const PREFIX_PATHS: seq<string> := [
    "/api/", "/static/", "/api/app/", "/api/auth/", "/api/dashboard/", "/api/reports/", "/api/sites/",
    "/api/upstreams/", "/api/certificates/", "/api/tls-configs/", "/api/easy-site-profiles/",
    "/api/access-policies/", "/api/requests/", "/api/revisions/", "/api/events/", "/api/bans/", "/api/jobs/",
    "/api/settings/", "/api/administration/", "/api/management-hosts/"]

  const LOGIN_PATHS: seq<string> := ["/login", "/login/2fa"]

  const TABLES := Tables(EXACT_PATHS, PREFIX_PATHS, SEGMENT_PREFIXES, LOGIN_PATHS)

  // ---- Operations ----------------------------------------------------------------------------------

  function Keep(paths: seq<string>, excluded: seq<string>): (kept: seq<string>)
    ensures forall path :: path in kept <==> path in paths && path !in excluded
  {
    if paths == [] then []
    else
      var last := |paths| - 1;
      Keep(paths[..last], excluded) + (if paths[last] in excluded then [] else [paths[last]])
  }

  /** filterAdminPaths */
  method FilterAdminPaths(paths: seq<string>, excluded: seq<string>) returns (result: seq<string>)
    ensures result == Keep(paths, excluded)
  {
    result := [];
    for i := 0 to |paths|
      invariant result == Keep(paths[..i], excluded)
    {
      assert paths[..i + 1][..i] == paths[..i];
      if paths[i] !in excluded { result := result + [paths[i]]; }
    }
    assert paths[..|paths|] == paths;
  }

  function ProtectedPaths(t: Tables): seq<string> {
    t.exact + t.prefixes + t.segments + t.login
  }

  function InspectionBypassPaths(t: Tables): seq<string> {
    Keep(t.exact, ["/api/auth"]) + Keep(t.prefixes, ["/api/", "/api/auth/"]) + t.segments + t.login
  }

  /** easyAdminBypassPathPatternForSite */
  method AdminBypassPattern(management: bool) returns (pattern: string)
    ensures management ==> forall uri | '\n' !in uri :: Matches(false, pattern, uri) <==> Listed(TABLES, uri) || LoginOrAuth(uri)
    ensures !management ==> forall uri | '\n' !in uri :: Matches(false, pattern, uri) <==> uri == ""
  {
    if !management {
      forall uri | '\n' !in uri ensures Matches(false, "^$", uri) <==> uri == "" { OnlyEmptyMatches(uri); }
      return "^$";
    }
    pattern := AdminPathPattern(ProtectedPaths(TABLES));
    forall uri | '\n' !in uri ensures Matches(false, pattern, uri) <==> Listed(TABLES, uri) || LoginOrAuth(uri) {
      BypassCoversReserved(uri);
    }
  }

  /** easyModSecurityBypassPathPatternForSite */
  method ModSecurityBypassPattern(management: bool) returns (pattern: string)
    ensures management ==> forall ci, uri | '\n' !in uri && UnderAuthAPI(ci, uri) :: !Matches(ci, pattern, uri)
    ensures management ==> forall ci, uri | '\n' !in uri ::
              Matches(ci, pattern, uri) <==> exists path <- InspectionBypassPaths(TABLES) :: Reserves(ci, path, uri)
    ensures pattern == "" <==> !management
  {
    if !management { return ""; }
    var exact := FilterAdminPaths(TABLES.exact, ["/api/auth"]);
    var prefix := FilterAdminPaths(TABLES.prefixes, ["/api/", "/api/auth/"]);
    pattern := AdminPathPattern(exact + prefix + TABLES.segments + TABLES.login);
    forall ci, uri | '\n' !in uri
      ensures Matches(ci, pattern, uri) <==> exists path <- InspectionBypassPaths(TABLES) :: Reserves(ci, path, uri)
      ensures UnderAuthAPI(ci, uri) ==> !Matches(ci, pattern, uri)
    {
      InspectionMeans(ci, uri);
      if UnderAuthAPI(ci, uri) { AuthIsInspected(ci, uri); }
    }
  }

  /** "^$", emitted for every other site, lets nothing through but the empty URI. */
  lemma OnlyEmptyMatches(uri: string)
    requires '\n' !in uri
    ensures Matches(false, "^$", uri) <==> uri == ""
  {
    TailParses(true);
    CaretParses("$");
    var tree := Cat(Begin, Cat(End, Empty));
    assert Parse("^" + "$") == Some(tree) && "^" + "$" == "^$";
    if i: nat, j: nat :| i <= j <= |uri| && Fits(false, tree, uri, i, j) {
      var k := CatSplits(false, Begin, Cat(End, Empty), uri, i, j);
      EndFits(false, uri, k, j);
    }
    if uri == "" {
      EndFits(false, uri, 0, 0);
      CatJoins(false, Begin, Cat(End, Empty), uri, 0, 0, 0);
    }
  }

  lemma InspectionMeans(ci: bool, uri: string)
    requires '\n' !in uri
    ensures Matches(ci, PatternOf(InspectionBypassPaths(TABLES)), uri)
            <==> exists path <- InspectionBypassPaths(TABLES) :: Reserves(ci, path, uri)
  {
    TablesAreShaped();
    ShapedIsRooted(TABLES);
    PatternPreservesMeaning(ci, InspectionBypassPaths(TABLES), uri);
  }

  /** What isReservedAdminAppPath looks for, on a trimmed path. */
  ghost predicate Listed(t: Tables, uri: string) {
    || uri in t.exact
    || (exists p <- t.prefixes :: p <= uri)
    || (exists p <- t.segments :: uri == p || p + "/" <= uri)
  }

  /** The three table scans of isReservedAdminAppPath. */
  method Scan(t: Tables, canonical: string) returns (found: bool)
    ensures found <==> Listed(t, canonical)
  {
    for i := 0 to |t.exact|
      invariant canonical !in t.exact[..i]
    {
      if canonical == t.exact[i] { return true; }
    }
    for i := 0 to |t.prefixes|
      invariant forall k :: 0 <= k < i ==> !(t.prefixes[k] <= canonical)
    {
      if HasPrefix(canonical, t.prefixes[i]) {
        assert t.prefixes[i] in t.prefixes;
        return true;
      }
    }
    for i := 0 to |t.segments|
      invariant forall k :: 0 <= k < i ==> t.segments[k] != canonical && !(t.segments[k] + "/" <= canonical)
    {
      if canonical == t.segments[i] || HasPrefix(canonical, t.segments[i] + "/") { return true; }
    }
    return false;
  }

  /** isReservedAdminAppPath */
  method IsReservedAdminAppPath(path: string) returns (reserved: bool)
    ensures reserved <==> !Blank(path) && Listed(TABLES, Trim(path))
  {
    var canonical := Trim(path);
    if canonical == "" { return false; }
    reserved := Scan(TABLES, canonical);
  }

  // ---- The shape of the tables ---------------------------------------------------------------------

  predicate EndsInSlash(path: string) {
    path != "" && path[|path| - 1] == '/'
  }

  predicate Plain(path: string) {
    path != "" && path[0] == '/' && !EndsInSlash(path)
  }

  /** What the two theorems below need to know of the tables. */
  ghost predicate Shaped(t: Tables) {
    && (forall p <- t.exact :: p == "/" || Plain(p))
    && (forall p <- t.exact :: p in ["/", "/auth", "/auth/verify"] || "/api/" <= p)
    && (forall p <- t.prefixes :: |p| > 1 && p[0] == '/' && EndsInSlash(p))
    && (forall p <- t.segments :: Plain(p))
    && t.login == ["/login", "/login/2fa"]
    && "/auth" in t.exact && "/api/" in t.prefixes
  }

  lemma ExactShapes()
    ensures forall p <- EXACT_PATHS :: p == "/" || Plain(p)
  {
  }

  lemma ExactKinds()
    ensures forall p <- EXACT_PATHS :: p in ["/", "/auth", "/auth/verify"] || "/api/" <= p
  {
  }

  lemma PrefixStarts()
    ensures forall p <- PREFIX_PATHS :: |p| > 1 && p[0] == '/'
  {
  }

  lemma PrefixEnds()
    ensures forall p <- PREFIX_PATHS :: EndsInSlash(p)
  {
  }

  lemma SegmentShapes()
    ensures forall p <- SEGMENT_PREFIXES :: Plain(p)
  {
  }

  lemma KnownPaths()
    ensures "/auth" in EXACT_PATHS && "/api/" in PREFIX_PATHS
  {
    assert EXACT_PATHS[1] == "/auth" && PREFIX_PATHS[0] == "/api/";
  }

  lemma ShapedFrom(t: Tables)
    requires forall p <- t.exact :: p == "/" || Plain(p)
    requires forall p <- t.exact :: p in ["/", "/auth", "/auth/verify"] || "/api/" <= p
    requires forall p <- t.prefixes :: |p| > 1 && p[0] == '/'
    requires forall p <- t.prefixes :: EndsInSlash(p)
    requires forall p <- t.segments :: Plain(p)
    requires t.login == ["/login", "/login/2fa"]
    requires "/auth" in t.exact && "/api/" in t.prefixes
    ensures Shaped(t)
  {
  }

  lemma TablesAreShaped()
    ensures Shaped(TABLES)
  {
    ExactShapes();
    ExactKinds();
    PrefixStarts();
    PrefixEnds();
    SegmentShapes();
    KnownPaths();
    ShapedFrom(TABLES);
  }

  lemma RootedTogether(a: seq<string>, b: seq<string>, c: seq<string>, d: seq<string>)
    requires Rooted(a) && Rooted(b) && Rooted(c) && Rooted(d) && d != []
    ensures Rooted(a + b + c + d) && a + b + c + d != []
  {
  }

  lemma ShapedIsRooted(t: Tables)
    requires Shaped(t)
    ensures Rooted(ProtectedPaths(t)) && ProtectedPaths(t) != []
    ensures Rooted(InspectionBypassPaths(t)) && InspectionBypassPaths(t) != []
  {
    assert Rooted(t.login) by { assert forall p <- t.login :: p == "/login" || p == "/login/2fa"; }
    assert Rooted(t.exact) && Rooted(t.prefixes) && Rooted(t.segments);
    RootedTogether(t.exact, t.prefixes, t.segments, t.login);
    RootedTogether(Keep(t.exact, ["/api/auth"]), Keep(t.prefixes, ["/api/", "/api/auth/"]), t.segments, t.login);
  }

  // ---- What the bypass pattern covers --------------------------------------------------------------

  lemma ExactlySame(a: string, b: string)
    ensures Same(false, a, b) <==> a == b
    ensures StartsWith(false, a, b) <==> a <= b
  {
    if |a| <= |b| && Same(false, a, b[..|a|]) {
      assert forall i :: 0 <= i < |a| ==> Fold(false, a[i]) == Fold(false, b[..|a|][i]);
    }
    if Same(false, a, b) { assert forall i :: 0 <= i < |a| ==> Fold(false, a[i]) == Fold(false, b[i]); }
  }

  lemma ExactReserves(path: string, uri: string)
    requires path != ""
    ensures Reserves(false, path, uri)
            <==> if path == "/" then uri == path
                 else if EndsInSlash(path) then path <= uri
                 else uri == path || path + "/" <= uri
  {
    ExactlySame(path, uri);
    ExactlySame(path + "/", uri);
    assert HasSuffix(path, "/") <==> EndsInSlash(path);
  }

  /** What the bypass adds to isReservedAdminAppPath. */
  predicate LoginOrAuth(uri: string) {
    "/auth/" <= uri || uri == "/login" || "/login/" <= uri
  }

  lemma ListedIsCovered(t: Tables, uri: string)
    requires Shaped(t) && (Listed(t, uri) || LoginOrAuth(uri))
    ensures exists path <- ProtectedPaths(t) :: Reserves(false, path, uri)
  {
    var path: string;
    if uri in t.exact {
      path := uri;
    } else if p :| p in t.prefixes && p <= uri {
      path := p;
    } else if p :| p in t.segments && (uri == p || p + "/" <= uri) {
      path := p;
    } else {
      path := if "/auth/" <= uri then "/auth" else "/login";
      assert "/auth" + "/" == "/auth/" && "/login" + "/" == "/login/";
      assert t.login[0] == "/login" && "/login" in t.login;
    }
    assert path in ProtectedPaths(t);
    ExactReserves(path, uri);
  }

  lemma CoveredIsListed(t: Tables, path: string, uri: string)
    requires Shaped(t) && path in ProtectedPaths(t) && Reserves(false, path, uri)
    ensures Listed(t, uri) || LoginOrAuth(uri)
  {
    ExactReserves(path, uri);
    if path in t.exact && uri != path {
      if "/api/" <= path {
        assert uri[..5] == (path + "/")[..5] == "/api/";
        assert "/api/" in t.prefixes && "/api/" <= uri;
      } else {
        UnderAuth(path, uri);
      }
    } else if path in t.login {
      UnderLogin(path, uri);
    }
  }

  lemma UnderAuth(path: string, uri: string)
    requires path in ["/auth", "/auth/verify"] && path + "/" <= uri
    ensures "/auth/" <= uri
  {
    assert (path + "/")[..6] == "/auth/" && uri[..6] == (path + "/")[..6];
  }

  lemma UnderLogin(path: string, uri: string)
    requires path in ["/login", "/login/2fa"] && (uri == path || path + "/" <= uri)
    ensures LoginOrAuth(uri)
  {
    if uri != path {
      assert (path + "/")[..7] == "/login/" && uri[..7] == (path + "/")[..7];
    } else if path == "/login/2fa" {
      assert path[..7] == "/login/";
    }
  }

  lemma CoverageOf(t: Tables, uri: string)
    requires Shaped(t) && '\n' !in uri
    ensures Matches(false, PatternOf(ProtectedPaths(t)), uri) <==> Listed(t, uri) || LoginOrAuth(uri)
  {
    ShapedIsRooted(t);
    PatternPreservesMeaning(false, ProtectedPaths(t), uri);
    if Listed(t, uri) || LoginOrAuth(uri) { ListedIsCovered(t, uri); }
    if path :| path in ProtectedPaths(t) && Reserves(false, path, uri) { CoveredIsListed(t, path, uri); }
  }

  /** The bypass pattern matches every URI isReservedAdminAppPath accepts, and of the others exactly the
      login pages and what lies under /auth/. */
  lemma BypassCoversReserved(uri: string)
    requires '\n' !in uri
    ensures Matches(false, PatternOf(ProtectedPaths(TABLES)), uri) <==> Listed(TABLES, uri) || LoginOrAuth(uri)
  {
    TablesAreShaped();
    CoverageOf(TABLES, uri);
  }

  // ---- Authentication stays inspected --------------------------------------------------------------

  const AUTH := "/api/auth"

  predicate UnderAuthAPI(ci: bool, uri: string) {
    Same(ci, AUTH, uri) || StartsWith(ci, AUTH + "/", uri)
  }

  /** The path parts from /api/auth at some position, whatever the case. */
  predicate Diverges(path: string) {
    exists i :: 0 <= i < |path| && i < |AUTH| && Fold(true, path[i]) != Fold(true, AUTH[i])
  }

  predicate DivergesEarly(path: string) {
    || (|path| > 1 && path[1] !in "aA")
    || (|path| > 2 && path[2] !in "pP")
    || (|path| > 5 && path[5] !in "aA")
    || (|path| > 6 && path[6] !in "uU")
  }

  lemma EarlyIsDivergence(path: string)
    requires DivergesEarly(path)
    ensures Diverges(path)
  {
    var i := if |path| > 1 && path[1] !in "aA" then 1
             else if |path| > 2 && path[2] !in "pP" then 2
             else if |path| > 5 && path[5] !in "aA" then 5 else 6;
    assert AUTH[1] == 'a' && AUTH[2] == 'p' && AUTH[5] == 'a' && AUTH[6] == 'u';
    assert Fold(true, path[i]) != Fold(true, AUTH[i]);
  }

  lemma ExactDiverge()
    ensures forall p <- EXACT_PATHS :: p in ["/", "/api/auth"] || DivergesEarly(p)
  {
  }

  lemma PrefixesDiverge()
    ensures forall p <- PREFIX_PATHS :: p in ["/api/", "/api/auth/"] || DivergesEarly(p)
  {
  }

  lemma SegmentsDiverge()
    ensures forall p <- SEGMENT_PREFIXES + LOGIN_PATHS :: DivergesEarly(p)
  {
  }

  /** A covering path agrees with the URI as far as it goes. */
  lemma ReservesAgrees(ci: bool, path: string, uri: string, i: nat)
    requires Reserves(ci, path, uri) && i < |path|
    ensures i < |uri| && Fold(ci, path[i]) == Fold(ci, uri[i])
  {
    if StartsWith(ci, path + "/", uri) {
      assert Fold(ci, (path + "/")[i]) == Fold(ci, uri[..|path| + 1][i]);
    } else if StartsWith(ci, path, uri) {
      assert Fold(ci, path[i]) == Fold(ci, uri[..|path|][i]);
    }
  }

  lemma DivergentMisses(ci: bool, path: string, uri: string)
    requires path == "/" || Diverges(path)
    requires UnderAuthAPI(ci, uri)
    ensures !Reserves(ci, path, uri)
  {
    assert forall i :: 0 <= i < |AUTH| ==> Fold(ci, AUTH[i]) == Fold(ci, uri[i]) by {
      if StartsWith(ci, AUTH + "/", uri) {
        forall i | 0 <= i < |AUTH| ensures Fold(ci, AUTH[i]) == Fold(ci, uri[i]) {
          assert Fold(ci, (AUTH + "/")[i]) == Fold(ci, uri[..|AUTH| + 1][i]);
        }
      }
    }
    if path != "/" && Reserves(ci, path, uri) {
      var i :| 0 <= i < |path| && i < |AUTH| && Fold(true, path[i]) != Fold(true, AUTH[i]);
      ReservesAgrees(ci, path, uri, i);
    }
  }

  /** No URI equal to /api/auth or under /api/auth/, in any case, escapes inspection. */
  lemma AuthIsInspected(ci: bool, uri: string)
    requires '\n' !in uri && UnderAuthAPI(ci, uri)
    ensures !Matches(ci, PatternOf(InspectionBypassPaths(TABLES)), uri)
  {
    TablesAreShaped();
    ShapedIsRooted(TABLES);
    PatternPreservesMeaning(ci, InspectionBypassPaths(TABLES), uri);
    forall path | path in InspectionBypassPaths(TABLES) ensures !Reserves(ci, path, uri) {
      BypassDiverges(path);
      DivergentMisses(ci, path, uri);
    }
  }

  lemma BypassDiverges(path: string)
    requires path in InspectionBypassPaths(TABLES)
    ensures path == "/" || Diverges(path)
  {
    ExactDiverge();
    PrefixesDiverge();
    SegmentsDiverge();
    if path != "/" { EarlyIsDivergence(path); }
  }
}
