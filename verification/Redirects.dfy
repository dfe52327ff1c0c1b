/**
 The web middleware's redirect decisions and what a browser that follows them meets: which chains
 end, how soon, and on which page.
 */
module Redirects {
  import opened Options

  const RESIDENT_ROUTES: seq<string> := [
    "/dashboard", "/offers", "/orders", "/contractors", "/building", "/profile", "/chat", "/architecture",
    "/payments", "/checkout", "/change-password"]
  const CONTRACTOR_ROUTES: seq<string> := ["/contractor"]
  const ADMIN_ROUTES: seq<string> := ["/admin"]
  const MANAGER_ROUTES: seq<string> := ["/buildings-manager"]
  const AUTH_ROUTES: seq<string> := ["/login", "/signup"]
  const EXCLUDED: seq<string> := [
    "/_next/static", "/_next/image", "/favicon.ico", "/manifest.webmanifest", "/public", "/api"]

  predicate Matches(path: string, route: string) { path == route || route + "/" <= path }

  predicate Any(path: string, routes: seq<string>) { exists i | 0 <= i < |routes| :: Matches(path, routes[i]) }

  predicate Protected(path: string) {
    Any(path, RESIDENT_ROUTES) || Any(path, CONTRACTOR_ROUTES) || Any(path, ADMIN_ROUTES) || Any(path, MANAGER_ROUTES)
  }

  /** Paths for which the middleware is not run at all. */
  predicate Excluded(path: string) { exists i | 0 <= i < |EXCLUDED| :: EXCLUDED[i] <= path }

  // ---- who is asking ----

  /** The client-writable cookie: absent, not decodable, or with a role and a flag. */
  datatype Cookie = Missing | Unreadable | Parsed(role: Option<string>, isAuthenticated: bool)

  datatype User = User(authenticated: bool, role: Option<string>)

  /** An empty role counts as none. */
  function Truthy(role: Option<string>): Option<string> { if role == Some("") then None else role }

  function UserOf(hasRefreshCookie: bool, cookie: Cookie): User {
    if !cookie.Parsed? then User(hasRefreshCookie, None)
    else if hasRefreshCookie || cookie.isAuthenticated then User(true, Truthy(cookie.role))
    else User(false, None)
  }

  const ROLES: set<string> := {"resident", "contractor", "buildings_manager", "admin", "super_admin"}

  predicate Administrator(role: string) { role == "admin" || role == "super_admin" }

  function DefaultRoute(role: string): Option<string> {
    if role == "resident" then Some("/dashboard")
    else if role == "contractor" then Some("/contractor/dashboard")
    else if role == "buildings_manager" then Some("/buildings-manager/dashboard")
    else if Administrator(role) then Some("/admin/dashboard")
    else None
  }

  function DefaultOr(role: string, other: string): string {
    if DefaultRoute(role).Some? then DefaultRoute(role).value else other
  }

  // ---- one decision ----

  datatype Decision =
    | Next
    | Redirect(path: string, param: Option<string>)
    | AdminApplication

  /** The gates a role passes; the checks come in the order middleware makes them. */
  function Gate(role: string, path: string): Option<string> {
    if Any(path, RESIDENT_ROUTES) && role != "resident" && !Administrator(role) then Some(DefaultOr(role, "/login"))
    else if Any(path, CONTRACTOR_ROUTES) && role != "contractor" && !Administrator(role)
      then Some(DefaultOr(role, "/dashboard"))
    else if Any(path, ADMIN_ROUTES) && !Administrator(role) then Some(DefaultOr(role, "/dashboard"))
    else if Any(path, MANAGER_ROUTES) && role != "buildings_manager" && !Administrator(role)
      then Some(DefaultOr(role, "/dashboard"))
    else None
  }

  predicate Given(param: Option<string>) { param.Some? && param.value != "" }

  /** Assigning to url.pathname rewrites the text; norm is whatever that rewriting does. */
  function Decide(norm: string -> string, user: User, path: string, param: Option<string>): Decision {
    if Protected(path) && !user.authenticated then Redirect("/login", Some(path))
    else if Any(path, AUTH_ROUTES) && user.authenticated then
      if Given(param) then Redirect(norm(param.value), None)
      else if user.role.Some? && Administrator(user.role.value) then AdminApplication
      else Redirect(DefaultOr(if user.role.Some? then user.role.value else "resident", "/dashboard"), None)
    else if user.role.None? then Next
    else if Gate(user.role.value, path).Some? then Redirect(Gate(user.role.value, path).value, param)
    else if path == "/admin/buildings" && Administrator(user.role.value)
      then Redirect("/buildings-manager/buildings", param)
    else Next
  }

  /** The middleware as written: cookies into variables, then one early return after another. */
  method Middleware(norm: string -> string, hasRefreshCookie: bool, cookie: Cookie, path: string, param: Option<string>)
    returns (d: Decision)
    ensures d == Decide(norm, UserOf(hasRefreshCookie, cookie), path, param)
  {
    var isAuthenticated := hasRefreshCookie;
    var userRole := "";
    if cookie.Parsed? {
      userRole := if cookie.role.Some? then cookie.role.value else "";
      if !hasRefreshCookie && cookie.isAuthenticated {
        isAuthenticated := true;
      } else if !hasRefreshCookie {
        isAuthenticated := false;
        userRole := "";
      }
    }
    if Protected(path) && !isAuthenticated {
      return Redirect("/login", Some(path));
    }
    if Any(path, AUTH_ROUTES) && isAuthenticated {
      if Given(param) {
        return Redirect(norm(param.value), None);
      } else if Administrator(userRole) {
        return AdminApplication;
      }
      return Redirect(DefaultOr(if userRole == "" then "resident" else userRole, "/dashboard"), None);
    }
    if userRole == "" {
      return Next;
    }
    if Any(path, RESIDENT_ROUTES) && userRole != "resident" && !Administrator(userRole) {
      return Redirect(DefaultOr(userRole, "/login"), param);
    }
    if Any(path, CONTRACTOR_ROUTES) && userRole != "contractor" && !Administrator(userRole) {
      return Redirect(DefaultOr(userRole, "/dashboard"), param);
    }
    if Any(path, ADMIN_ROUTES) && !Administrator(userRole) {
      return Redirect(DefaultOr(userRole, "/dashboard"), param);
    }
    if Any(path, MANAGER_ROUTES) && userRole != "buildings_manager" && !Administrator(userRole) {
      return Redirect(DefaultOr(userRole, "/dashboard"), param);
    }
    if path == "/admin/buildings" && Administrator(userRole) {
      return Redirect("/buildings-manager/buildings", param);
    }
    return Next;
  }

  /**
   The refresh cookie authenticates, and without it the other cookie's flag does. A role hint is
   only ever kept for an authenticated user, and is the cookie's, unless that is empty.
   */
  lemma RoleImpliesAuthenticated(hasRefreshCookie: bool, cookie: Cookie)
    ensures var user := UserOf(hasRefreshCookie, cookie);
      && (user.authenticated <==> hasRefreshCookie || (cookie.Parsed? && cookie.isAuthenticated))
      && (user.role.Some? ==> user.authenticated && user.role.value != "")
      && (forall r | r != "" :: user.role == Some(r) <==>
            user.authenticated && cookie.Parsed? && cookie.role == Some(r))
  {
  }

  // ---- the areas of the site, written out ----

  /** The page itself or anything below it. */
  predicate Under(path: string, page: string) {
    path == page || (|path| > |page| && path[..|page|] == page && path[|page|] == '/')
  }

  predicate ResidentArea(path: string) {
    || Under(path, "/dashboard") || Under(path, "/offers") || Under(path, "/orders") || Under(path, "/contractors")
    || Under(path, "/building") || Under(path, "/profile") || Under(path, "/chat") || Under(path, "/architecture")
    || Under(path, "/payments") || Under(path, "/checkout") || Under(path, "/change-password")
  }

  predicate SignInArea(path: string) { Under(path, "/login") || Under(path, "/signup") }

  predicate GuardedArea(path: string) {
    ResidentArea(path) || Under(path, "/contractor") || Under(path, "/admin") || Under(path, "/buildings-manager")
  }

  /** Static files and the API, by the start of their paths. */
  predicate UnguardedPath(path: string) {
    || "/_next/static" <= path || "/_next/image" <= path || "/favicon.ico" <= path
    || "/manifest.webmanifest" <= path || "/public" <= path || "/api" <= path
  }

  lemma MatchesUnder(path: string, page: string)
    ensures Matches(path, page) <==> Under(path, page)
  {
    if Under(path, page) && path != page { assert page + "/" == path[..|page| + 1]; }
    if page + "/" <= path { assert path[..|page|] == (page + "/")[..|page|] == page; }
  }

  lemma ResidentRoutesAre(path: string)
    ensures Any(path, RESIDENT_ROUTES) <==> ResidentArea(path)
  {
    var r := RESIDENT_ROUTES;
    assert r[0] == "/dashboard" && r[1] == "/offers" && r[2] == "/orders" && r[3] == "/contractors";
    assert r[4] == "/building" && r[5] == "/profile" && r[6] == "/chat" && r[7] == "/architecture";
    assert r[8] == "/payments" && r[9] == "/checkout" && r[10] == "/change-password" && |r| == 11;
    forall i | 0 <= i < |r| ensures Matches(path, r[i]) <==> Under(path, r[i]) { MatchesUnder(path, r[i]); }
  }

  lemma OtherRoutesAre(path: string)
    ensures Any(path, CONTRACTOR_ROUTES) <==> Under(path, "/contractor")
    ensures Any(path, ADMIN_ROUTES) <==> Under(path, "/admin")
    ensures Any(path, MANAGER_ROUTES) <==> Under(path, "/buildings-manager")
    ensures Any(path, AUTH_ROUTES) <==> SignInArea(path)
  {
    MatchesUnder(path, CONTRACTOR_ROUTES[0]);
    MatchesUnder(path, ADMIN_ROUTES[0]);
    MatchesUnder(path, MANAGER_ROUTES[0]);
    MatchesUnder(path, AUTH_ROUTES[0]);
    MatchesUnder(path, AUTH_ROUTES[1]);
  }

  lemma ExcludedAre(path: string)
    ensures Excluded(path) <==> UnguardedPath(path)
  {
    var e := EXCLUDED;
    assert e[0] == "/_next/static" && e[1] == "/_next/image" && e[2] == "/favicon.ico";
    assert e[3] == "/manifest.webmanifest" && e[4] == "/public" && e[5] == "/api" && |e| == 6;
  }

  /** Which roles each area is for. */
  predicate Allowed(role: string, path: string) {
    && (ResidentArea(path) ==> role in {"resident", "admin", "super_admin"})
    && (Under(path, "/contractor") ==> role in {"contractor", "admin", "super_admin"})
    && (Under(path, "/admin") ==> role in {"admin", "super_admin"})
    && (Under(path, "/buildings-manager") ==> role in {"buildings_manager", "admin", "super_admin"})
  }

  /** A gate sends away exactly the roles that one of the path's areas is not for. */
  lemma GateIffNotAllowed(role: string, path: string)
    ensures Gate(role, path).None? <==> Allowed(role, path)
  {
    ResidentRoutesAre(path);
    OtherRoutesAre(path);
  }

  /** And it sends them home. */
  lemma GateSendsHome(role: string, path: string)
    requires Gate(role, path).Some?
    ensures role == "resident" ==> Gate(role, path) == Some("/dashboard")
    ensures role == "contractor" ==> Gate(role, path) == Some("/contractor/dashboard")
    ensures role == "buildings_manager" ==> Gate(role, path) == Some("/buildings-manager/dashboard")
    ensures role !in {"admin", "super_admin"}
  {
  }

  // ---- following redirects ----

  datatype Place =
    | At(path: string, param: Option<string>)
    | Served(path: string)
    | Unguarded(path: string)
    | AdminApp

  function Visit(norm: string -> string, user: User, p: Place): Place {
    if !p.At? then p
    else if Excluded(p.path) then Unguarded(p.path)
    else match Decide(norm, user, p.path, p.param)
      case Next => Served(p.path)
      case Redirect(path, param) => At(path, param)
      case AdminApplication => AdminApp
  }

  function Follow(norm: string -> string, user: User, p: Place, n: nat): Place {
    if n == 0 then p else Visit(norm, user, Follow(norm, user, p, n - 1))
  }

  /** The page asks for no role the user lacks, and for no login the user has not made. */
  predicate GatesPassed(user: User, path: string) {
    && (GuardedArea(path) ==> user.authenticated)
    && (user.role.Some? ==> Allowed(user.role.value, path))
  }

  lemma ServedPassesGates(norm: string -> string, user: User, p: Place)
    requires p.At? && Visit(norm, user, p).Served?
    ensures Visit(norm, user, p).path == p.path && GatesPassed(user, p.path)
  {
    ResidentRoutesAre(p.path);
    OtherRoutesAre(p.path);
    if user.role.Some? { GateIffNotAllowed(user.role.value, p.path); }
  }

  predicate AdminShortcut(user: User, path: string) {
    user.role.Some? && user.role.value in {"admin", "super_admin"} && path == "/admin/buildings"
  }

  /**
   Main result: a page is served if and only if it is guarded at all, the user passes its gates, it is
   no sign-in page for somebody signed in, and it is not the administrators' shortcut.
   */
  lemma ServedIff(norm: string -> string, user: User, path: string, param: Option<string>)
    requires user.role.Some? ==> user.authenticated
    ensures Visit(norm, user, At(path, param)) == Served(path) <==>
      && !UnguardedPath(path) && GatesPassed(user, path)
      && !(SignInArea(path) && user.authenticated) && !AdminShortcut(user, path)
  {
    ExcludedAre(path);
    ResidentRoutesAre(path);
    OtherRoutesAre(path);
    if user.role.Some? { GateIffNotAllowed(user.role.value, path); }
  }

  /** Where a known role is at home; somebody without a role hint counts as a resident. */
  function Home(role: Option<string>): string {
    if role == Some("contractor") then "/contractor/dashboard"
    else if role == Some("buildings_manager") then "/buildings-manager/dashboard"
    else "/dashboard"
  }

  /** A visitor who is not signed in is asked to, and comes back to the page afterwards. */
  lemma AskedToSignIn(norm: string -> string, user: User, path: string, param: Option<string>)
    requires !UnguardedPath(path) && GuardedArea(path) && !user.authenticated
    ensures Visit(norm, user, At(path, param)) == At("/login", Some(path))
  {
    ExcludedAre(path);
    ResidentRoutesAre(path);
    OtherRoutesAre(path);
  }

  /** Somebody signed in leaves the sign-in pages for the redirect parameter, or for home. */
  lemma SignedInMovesOn(norm: string -> string, user: User, path: string, param: Option<string>)
    requires !UnguardedPath(path) && SignInArea(path) && user.authenticated
    requires user.role.Some? ==> user.role.value in ROLES
    ensures var next := Visit(norm, user, At(path, param));
      if param.Some? && param.value != "" then next == At(norm(param.value), None)
      else if user.role in {Some("admin"), Some("super_admin")} then next == AdminApp
      else next == At(Home(user.role), None)
  {
    ExcludedAre(path);
    OtherRoutesAre(path);
  }

  /** Main result: a known role is sent home from every area that is not for it. */
  lemma SentHome(norm: string -> string, user: User, path: string, param: Option<string>)
    requires user.authenticated && user.role.Some? && user.role.value in ROLES
    requires !UnguardedPath(path) && !SignInArea(path) && !Allowed(user.role.value, path)
    ensures Visit(norm, user, At(path, param)) == At(Home(user.role), param)
  {
    ExcludedAre(path);
    OtherRoutesAre(path);
    GateIffNotAllowed(user.role.value, path);
    GateSendsHome(user.role.value, path);
  }

  lemma ShortcutTaken(norm: string -> string, user: User, param: Option<string>)
    requires user.authenticated && AdminShortcut(user, "/admin/buildings")
    ensures Visit(norm, user, At("/admin/buildings", param)) == At("/buildings-manager/buildings", param)
  {
    ExcludedAre("/admin/buildings");
    OtherRoutesAre("/admin/buildings");
    GateIffNotAllowed(user.role.value, "/admin/buildings");
    assert !("/api" <= "/admin/buildings") by { assert "/api"[2] != "/admin/buildings"[2]; }
    assert "/admin/buildings"[1] == 'a';
  }

  // ---- the fixed pages ----

  lemma DiffersAt(path: string, route: string, k: nat)
    requires k < |path| && k < |route + "/"| && path[k] != (route + "/")[k]
    ensures !Matches(path, route) && !(route + "/" <= path)
  {
  }

  lemma NotResidentRoute(path: string)
    requires |path| >= 2
    requires path[1] !in {'d', 'o', 'c', 'b', 'p', 'a'}
    ensures !Any(path, RESIDENT_ROUTES)
  {
    forall i | 0 <= i < |RESIDENT_ROUTES| ensures !Matches(path, RESIDENT_ROUTES[i]) {
      DiffersAt(path, RESIDENT_ROUTES[i], 1);
    }
  }

  lemma LoginPage()
    ensures !Protected("/login") && Any("/login", AUTH_ROUTES) && !Excluded("/login")
  {
    NotResidentRoute("/login");
    DiffersAt("/login", "/contractor", 1);
    DiffersAt("/login", "/admin", 1);
    DiffersAt("/login", "/buildings-manager", 1);
    assert Matches("/login", AUTH_ROUTES[0]);
    assert forall i | 0 <= i < |EXCLUDED| :: EXCLUDED[i][1] != "/login"[1];
  }

  lemma DashboardPage()
    ensures Any("/dashboard", RESIDENT_ROUTES) && !Any("/dashboard", AUTH_ROUTES) && !Excluded("/dashboard")
    ensures Gate("resident", "/dashboard").None?
  {
    assert Matches("/dashboard", RESIDENT_ROUTES[0]);
    DiffersAt("/dashboard", "/login", 1);
    DiffersAt("/dashboard", "/signup", 1);
    DiffersAt("/dashboard", "/contractor", 1);
    DiffersAt("/dashboard", "/admin", 1);
    DiffersAt("/dashboard", "/buildings-manager", 1);
    assert forall i | 0 <= i < |EXCLUDED| :: EXCLUDED[i][1] != "/dashboard"[1];
  }

  lemma ContractorPageNotResident()
    ensures !Any("/contractor/dashboard", RESIDENT_ROUTES)
  {
    var p := "/contractor/dashboard";
    forall i | 0 <= i < |RESIDENT_ROUTES| ensures !Matches(p, RESIDENT_ROUTES[i]) {
      DiffersAt(p, RESIDENT_ROUTES[i], if i == 3 then 11 else if i == 6 || i == 9 || i == 10 then 2 else 1);
    }
  }

  lemma ContractorPage()
    ensures !Any("/contractor/dashboard", AUTH_ROUTES) && !Excluded("/contractor/dashboard")
    ensures Gate("contractor", "/contractor/dashboard").None?
  {
    var p := "/contractor/dashboard";
    ContractorPageNotResident();
    DiffersAt(p, "/login", 1);
    DiffersAt(p, "/signup", 1);
    DiffersAt(p, "/admin", 1);
    DiffersAt(p, "/buildings-manager", 1);
    assert forall i | 0 <= i < |EXCLUDED| :: EXCLUDED[i][1] != p[1];
  }

  lemma ManagerPageNotResident()
    ensures !Any("/buildings-manager/dashboard", RESIDENT_ROUTES)
  {
    var p := "/buildings-manager/dashboard";
    DiffersAt(p, "/building", 9);
    forall i | 0 <= i < |RESIDENT_ROUTES| && i != 4 ensures !Matches(p, RESIDENT_ROUTES[i]) {
      assert RESIDENT_ROUTES[i][1] != 'b';
      DiffersAt(p, RESIDENT_ROUTES[i], 1);
    }
  }

  lemma ManagerPage()
    ensures !Any("/buildings-manager/dashboard", AUTH_ROUTES) && !Excluded("/buildings-manager/dashboard")
    ensures Gate("buildings_manager", "/buildings-manager/dashboard").None?
  {
    var p := "/buildings-manager/dashboard";
    ManagerPageNotResident();
    DiffersAt(p, "/login", 1);
    DiffersAt(p, "/signup", 1);
    DiffersAt(p, "/contractor", 1);
    DiffersAt(p, "/admin", 1);
    assert forall i | 0 <= i < |EXCLUDED| :: EXCLUDED[i][1] != p[1];
  }

  lemma ManagerBuildingsPage()
    ensures !Any("/buildings-manager/buildings", AUTH_ROUTES)
    ensures "/buildings-manager/buildings" != "/admin/buildings"
  {
    DiffersAt("/buildings-manager/buildings", "/login", 1);
    DiffersAt("/buildings-manager/buildings", "/signup", 1);
  }

  // ---- known roles ----

  /** No role hint, or one of the five roles, as RoleImpliesAuthenticated has it. */
  predicate Known(user: User) {
    user.role.Some? ==> user.authenticated && user.role.value in ROLES
  }

  /** A place where the next visit ends the chain. */
  predicate Settles(norm: string -> string, user: User, p: Place) {
    !p.At? || !Visit(norm, user, p).At?
  }

  /** Every page the middleware sends a role to by itself is one that role may stay on. */
  lemma HomeSettles(norm: string -> string, user: User, param: Option<string>)
    requires Known(user) && user.role.Some? && !Administrator(user.role.value)
    ensures Settles(norm, user, At(DefaultOr(user.role.value, "/dashboard"), param))
  {
    if user.role.value == "resident" { DashboardPage(); }
    else if user.role.value == "contractor" { ContractorPage(); }
    else { ManagerPage(); }
  }

  lemma AdministratorPassesGates(role: string, path: string)
    requires Administrator(role)
    ensures Gate(role, path).None?
  {
  }

  /** Away from the login pages, one redirect is enough. */
  lemma OneHopSettles(norm: string -> string, user: User, path: string, param: Option<string>)
    requires Known(user) && !(Any(path, AUTH_ROUTES) && user.authenticated)
    ensures Settles(norm, user, Visit(norm, user, At(path, param)))
  {
    var next := Visit(norm, user, At(path, param));
    if next.At? {
      if Protected(path) && !user.authenticated {
        LoginPage();
      } else if Administrator(user.role.value) {
        AdministratorPassesGates(user.role.value, path);
        AdministratorPassesGates(user.role.value, "/buildings-manager/buildings");
        ManagerBuildingsPage();
      } else {
        HomeSettles(norm, user, param);
      }
    }
  }

  lemma LoginWithoutTargetSettles(norm: string -> string, user: User, path: string)
    requires Known(user) && Any(path, AUTH_ROUTES) && user.authenticated
    ensures Settles(norm, user, Visit(norm, user, At(path, None)))
  {
    if !Excluded(path) {
      if user.role.None? { DashboardPage(); }
      else if !Administrator(user.role.value) { HomeSettles(norm, user, None); }
    }
  }

  /** A place where a chain may end: gates passed, no gates, or the admin application for its own. */
  predicate Permitted(user: User, end: Place) {
    && (end.Served? ==> GatesPassed(user, end.path))
    && (end.Unguarded? ==> UnguardedPath(end.path))
    && (end == AdminApp ==> user.role in {Some("admin"), Some("super_admin")})
  }

  lemma EndOrGoOn(norm: string -> string, user: User, path: string, param: Option<string>)
    requires Known(user)
    ensures var p := Visit(norm, user, At(path, param)); p.At? || Permitted(user, p)
  {
    ExcludedAre(path);
    if Visit(norm, user, At(path, param)).Served? { ServedPassesGates(norm, user, At(path, param)); }
  }

  /** Where a chain ends that settles, told from its last page. */
  lemma EndIsPermitted(norm: string -> string, user: User, p: Place)
    requires Known(user) && Settles(norm, user, p) && (p.At? || Permitted(user, p))
    ensures !Visit(norm, user, p).At? && Permitted(user, Visit(norm, user, p))
  {
    if p.At? { EndOrGoOn(norm, user, p.path, p.param); }
  }

  lemma TwoHopsSettle(norm: string -> string, user: User, path: string, param: Option<string>)
    requires Known(user)
    ensures var p2 := Visit(norm, user, Visit(norm, user, At(path, param)));
      Settles(norm, user, p2) && (p2.At? || Permitted(user, p2))
  {
    var p1 := Visit(norm, user, At(path, param));
    EndOrGoOn(norm, user, path, param);
    if p1.At? { EndOrGoOn(norm, user, p1.path, p1.param); }
    if !(Any(path, AUTH_ROUTES) && user.authenticated) {
      OneHopSettles(norm, user, path, param);
    } else if p1.At? {
      if Any(p1.path, AUTH_ROUTES) {
        LoginWithoutTargetSettles(norm, user, p1.path);
      } else {
        OneHopSettles(norm, user, p1.path, p1.param);
      }
    }
  }

  /**
   Main result: for every path, every redirect parameter however it is rewritten, and every known
   user, at most two redirects are followed; the chain ends on a page whose gates the user passes,
   on a path the middleware does not guard, or in the admin application.
   */
  lemma AtMostTwoHops(norm: string -> string, user: User, path: string, param: Option<string>)
    requires Known(user)
    ensures var end := Follow(norm, user, At(path, param), 3); !end.At? && Permitted(user, end)
  {
    TwoHopsSettle(norm, user, path, param);
    var p0 := At(path, param);
    assert Follow(norm, user, p0, 1) == Visit(norm, user, p0) by { assert Follow(norm, user, p0, 0) == p0; }
    EndIsPermitted(norm, user, Follow(norm, user, p0, 2));
  }

  // ---- unknown roles ----

  predicate Free(path: string) { UnguardedPath(path) || (!SignInArea(path) && !GuardedArea(path)) }

  lemma FreeIs(path: string)
    ensures Free(path) <==> Excluded(path) || (!Any(path, AUTH_ROUTES) && !Protected(path))
  {
    ExcludedAre(path);
    ResidentRoutesAre(path);
    OtherRoutesAre(path);
  }

  /** Neither the page nor the redirect target is free, so no visit can serve anything. */
  predicate Stuck(norm: string -> string, p: Place) {
    p.At? && !Free(p.path) && (Given(p.param) ==> !Free(norm(p.param.value)))
  }

  predicate Stranger(user: User) {
    user.authenticated && user.role.Some? && user.role.value != "" && user.role.value !in ROLES
  }

  /** Where a visit can send a stranger: to the login page, the dashboard, or the redirect target. */
  lemma StrangerIsSentTo(norm: string -> string, user: User, path: string, param: Option<string>)
    requires Stranger(user) && !Free(path)
    ensures var next := Visit(norm, user, At(path, param));
      || next == At("/login", param) || next == At("/dashboard", param) || next == At("/dashboard", None)
      || (Given(param) && next == At(norm(param.value), None))
  {
    FreeIs(path);
  }

  lemma StuckStays(norm: string -> string, user: User, p: Place)
    requires Stranger(user) && Stuck(norm, p)
    ensures Stuck(norm, Visit(norm, user, p))
  {
    FreeIs("/login");
    FreeIs("/dashboard");
    LoginPage();
    DashboardPage();
    StrangerIsSentTo(norm, user, p.path, p.param);
  }

  /** Places that every visit keeps are never left. */
  lemma {:induction false} KeptForever(norm: string -> string, user: User, kept: iset<Place>, p: Place, n: nat)
    requires p in kept && forall q | q in kept :: Visit(norm, user, q) in kept
    ensures Follow(norm, user, p, n) in kept
  {
    if n > 0 { KeptForever(norm, user, kept, p, n - 1); }
  }

  lemma StuckForever(norm: string -> string, user: User, p: Place, n: nat)
    requires Stranger(user) && Stuck(norm, p)
    ensures Stuck(norm, Follow(norm, user, p, n))
  {
    var stuck := iset q | Stuck(norm, q);
    forall q | q in stuck ensures Visit(norm, user, q) in stuck {
      StuckStays(norm, user, q);
    }
    KeptForever(norm, user, stuck, p, n);
  }

  lemma FreeIsServed(norm: string -> string, user: User, path: string, param: Option<string>)
    requires Stranger(user) && Free(path)
    ensures !Visit(norm, user, At(path, param)).At?
  {
    FreeIs(path);
  }

  /** An unfree page sends a stranger to a login page within two redirects, parameter kept. */
  lemma StrangerReachesLogin(norm: string -> string, user: User, path: string, param: Option<string>)
    requires Stranger(user) && !Free(path)
    ensures (Any(path, AUTH_ROUTES) && !Excluded(path))
      || Visit(norm, user, At(path, param)) == At("/login", param)
      || Visit(norm, user, Visit(norm, user, At(path, param))) == At("/login", param)
  {
    FreeIs(path);
    DashboardPage();
  }

  /**
   A role hint outside the five known roles is the failing family: the chain ends exactly when the
   page, or the page the redirect parameter names, needs no login; otherwise it never ends.
   */
  lemma StrangerEndsIff(norm: string -> string, user: User, path: string, param: Option<string>)
    requires Stranger(user)
    ensures (exists n: nat :: !Follow(norm, user, At(path, param), n).At?)
       <==> Free(path) || (Given(param) && Free(norm(param.value)))
  {
    var p0 := At(path, param);
    if Free(path) {
      FreeIsServed(norm, user, path, param);
      assert Follow(norm, user, p0, 0) == p0;
      assert !Follow(norm, user, p0, 1).At?;
    } else if Given(param) && Free(norm(param.value)) {
      StrangerEnds(norm, user, path, param);
    } else {
      forall n: nat ensures Follow(norm, user, p0, n).At? {
        StuckForever(norm, user, p0, n);
      }
    }
  }

  lemma StrangerEnds(norm: string -> string, user: User, path: string, param: Option<string>)
    requires Stranger(user) && !Free(path) && Given(param) && Free(norm(param.value))
    ensures exists n: nat :: !Follow(norm, user, At(path, param), n).At?
  {
    var p0 := At(path, param);
    var p1 := Visit(norm, user, p0);
    var p2 := Visit(norm, user, p1);
    var p3 := Visit(norm, user, p2);
    var p4 := Visit(norm, user, p3);
    assert Follow(norm, user, p0, 0) == p0;
    assert Follow(norm, user, p0, 1) == p1;
    assert Follow(norm, user, p0, 2) == p2;
    assert Follow(norm, user, p0, 3) == p3;
    assert Follow(norm, user, p0, 4) == p4;
    LoginPage();
    StrangerReachesLogin(norm, user, path, param);
    FreeIsServed(norm, user, norm(param.value), None);
    assert !p2.At? || !p3.At? || !p4.At?;
  }

  /** Somebody whose cookie says "guest" is redirected from the dashboard for ever. */
  lemma GuestNeverEnds(norm: string -> string, n: nat)
    ensures Follow(norm, UserOf(true, Parsed(Some("guest"), true)), At("/dashboard", None), n).At?
  {
    FreeIs("/dashboard");
    DashboardPage();
    assert Protected("/dashboard");
    StuckForever(norm, UserOf(true, Parsed(Some("guest"), true)), At("/dashboard", None), n);
  }
}
