/** The frontend's navigation guard (frontend/src/router/index.js): the route
    table, the catch-all redirect for unknown paths, and the decision the
    guard takes before each navigation. Whether the user is signed in and
    the stored role are parameters. A path is the list of its segments:
    "/admin/lots/7" is ["admin", "lots", "7"] and "/" is []. */
module Router {

  import opened Wrappers
  import opened Seqs

  /** What a route's `meta` declares. */
  datatype Meta = Meta(requiresGuest: bool, requiresAuth: bool, role: Option<string>)

  datatype Segment = Lit(text: string) | Param(name: string)

  datatype RouteDef = RouteDef(pattern: seq<Segment>, name: string, meta: Meta)

  datatype Decision = Proceed | Redirect(to: seq<string>)

  const Home: seq<string> := []
  const LoginPage: seq<string> := ["login"]
  const AdminDashboard: seq<string> := ["admin", "dashboard"]
  const UserDashboard: seq<string> := ["user", "dashboard"]

  const Guest := Meta(true, false, None)

  function Member(role: string): Meta {
    Meta(false, true, Some(role))
  }

  /** The route table, in declaration order (the catch-all is `Resolve`
      finding nothing). */
  const Routes: seq<RouteDef> := [
    RouteDef([], "Home", Guest),
    RouteDef([Lit("login")], "Login", Guest),
    RouteDef([Lit("register")], "Register", Guest),
    RouteDef([Lit("user"), Lit("dashboard")], "UserDashboard", Member("user")),
    RouteDef([Lit("user"), Lit("lots")], "ParkingLots", Member("user")),
    RouteDef([Lit("user"), Lit("reservations")], "MyReservations", Member("user")),
    RouteDef([Lit("user"), Lit("profile")], "Profile", Member("user")),
    RouteDef([Lit("admin"), Lit("dashboard")], "AdminDashboard", Member("admin")),
    RouteDef([Lit("admin"), Lit("lots")], "ManageLots", Member("admin")),
    RouteDef([Lit("admin"), Lit("lots"), Param("id")], "LotDetails", Member("admin"))
  ]

  /** A literal segment matches itself, a parameter any non-empty segment. */
  predicate SegmentMatches(s: Segment, text: string) {
    match s
    case Lit(t) => text == t
    case Param(_) => text != ""
  }

  /** The pattern and the path have the same length and match segment by
      segment. */
  predicate Matches(pattern: seq<Segment>, path: seq<string>) {
    |pattern| == |path| && forall i :: 0 <= i < |path| ==> SegmentMatches(pattern[i], path[i])
  }

  function MatchesPath(path: seq<string>): RouteDef -> bool {
    (r: RouteDef) => Matches(r.pattern, path)
  }

  /** The first route of the table that matches the path. */
  function Resolve(path: seq<string>): (r: Option<RouteDef>)
    ensures r.Some? ==> r.value in Routes && Matches(r.value.pattern, path)
    ensures r.None? ==> forall k :: 0 <= k < |Routes| ==> !Matches(Routes[k].pattern, path)
  {
    match FirstIndex(Routes, MatchesPath(path))
    case Some(k) => Some(Routes[k])
    case None => None
  }

  /** The dashboard a signed-in user is sent to: the admin's for role
      "admin", the user's for any other role. */
  function Dashboard(role: Option<string>): seq<string> {
    if role == Some("admin") then AdminDashboard else UserDashboard
  }

  predicate GuestRuleFires(m: Meta, authenticated: bool) {
    m.requiresGuest && authenticated
  }

  predicate AuthRuleFires(m: Meta, authenticated: bool) {
    m.requiresAuth && !authenticated
  }

  /** A role is required (a non-empty string) and the user's differs. */
  predicate RoleRuleFires(m: Meta, role: Option<string>) {
    m.requiresAuth && m.role.Some? && m.role.value != "" && role != m.role
  }

  /** `router.beforeEach`: the guest rule, then the sign-in rule, then the
      role rule; the first that fires decides. */
  function Guard(m: Meta, authenticated: bool, role: Option<string>): (r: Decision)
    ensures r.Redirect? ==> r.to == LoginPage || r.to == Dashboard(role)
    ensures !authenticated && !m.requiresAuth ==> r == Proceed
    ensures authenticated && !m.requiresGuest && (m.role.None? || role == m.role) ==> r == Proceed
  {
    if GuestRuleFires(m, authenticated) then Redirect(Dashboard(role))
    else if AuthRuleFires(m, authenticated) then Redirect(LoginPage)
    else if RoleRuleFires(m, role) then Redirect(Dashboard(role))
    else Proceed
  }

  /** One navigation: an unknown path is redirected to "/" by the catch-all,
      a known one is put to the guard. */
  function Navigate(path: seq<string>, authenticated: bool, role: Option<string>): (r: Decision)
    ensures Resolve(path).None? ==> r == Redirect(Home)
    ensures r.Redirect? ==> r.to in {Home, LoginPage, AdminDashboard, UserDashboard}
  {
    match Resolve(path)
    case None => Redirect(Home)
    case Some(r) => Guard(r.meta, authenticated, role)
  }

  /** Following the redirects `step` decides, for at most `fuel`
      navigations: the page finally shown, or None when the redirects have
      not stopped by then. */
  function FollowWith(step: seq<string> -> Decision, path: seq<string>, fuel: nat): Option<seq<string>>
    decreases fuel
  {
    if fuel == 0 then None
    else
      match step(path)
      case Proceed => Some(path)
      case Redirect(to) => FollowWith(step, to, fuel - 1)
  }

  /** Following the guard's redirects: every redirect starts a navigation
      that is put to the guard again. */
  function Follow(path: seq<string>, authenticated: bool, role: Option<string>, fuel: nat): Option<seq<string>> {
    FollowWith(p => Navigate(p, authenticated, role), path, fuel)
  }

  // ---- the guard's rules ----

  /** A guest-only page visited while signed in sends the user to their
      dashboard. */
  lemma GuestPageRedirectsToDashboard(m: Meta, authenticated: bool, role: Option<string>)
    requires GuestRuleFires(m, authenticated)
    ensures Guard(m, authenticated, role) == Redirect(Dashboard(role))
    ensures role == Some("admin") ==> Guard(m, authenticated, role) == Redirect(["admin", "dashboard"])
    ensures role != Some("admin") ==> Guard(m, authenticated, role) == Redirect(["user", "dashboard"])
  {
  }

  /** A page that needs sign-in, visited while signed out, sends to /login
      (no earlier rule can fire then). */
  lemma SignedOutGoesToLogin(m: Meta, role: Option<string>)
    requires m.requiresAuth
    ensures Guard(m, false, role) == Redirect(["login"])
  {
  }

  /** A page for another role sends a signed-in user to their own dashboard,
      unless the page is also guest-only, where the guest rule has already
      decided the same way. */
  lemma WrongRoleGoesToOwnDashboard(m: Meta, role: Option<string>)
    requires RoleRuleFires(m, role)
    ensures Guard(m, true, role) == Redirect(Dashboard(role))
  {
  }

  /** The guard lets the navigation through exactly when no rule fires. */
  lemma ProceedIffNoRuleFires(m: Meta, authenticated: bool, role: Option<string>)
    ensures Guard(m, authenticated, role) == Proceed <==>
            !GuestRuleFires(m, authenticated) && !AuthRuleFires(m, authenticated) &&
            !RoleRuleFires(m, role)
  {
  }

  /** The rules are tried in order: when the guest rule fires it decides even
      if the role rule would also fire, and the sign-in rule is checked
      before the role rule. */
  lemma RulesInOrder(m: Meta, authenticated: bool, role: Option<string>)
    ensures GuestRuleFires(m, authenticated) ==> Guard(m, authenticated, role) == Redirect(Dashboard(role))
    ensures !GuestRuleFires(m, authenticated) && AuthRuleFires(m, authenticated) ==>
              Guard(m, authenticated, role) == Redirect(LoginPage)
    ensures !GuestRuleFires(m, authenticated) && !AuthRuleFires(m, authenticated) && RoleRuleFires(m, role) ==>
              Guard(m, authenticated, role) == Redirect(Dashboard(role))
  {
  }

  // ---- the route table ----

  /** A path that no route matches is sent to "/". */
  lemma UnknownPathGoesHome(path: seq<string>, authenticated: bool, role: Option<string>)
    requires forall r :: r in Routes ==> !Matches(r.pattern, path)
    ensures Resolve(path).None?
    ensures Navigate(path, authenticated, role) == Redirect([])
  {
  }

  /** "/admin/lots/<id>" reaches the lot details page, for admins only. */
  lemma LotDetailsNeedsAdmin(id: string)
    requires id != ""
    ensures Resolve(["admin", "lots", id]).Some?
    ensures Resolve(["admin", "lots", id]).value.name == "LotDetails"
    ensures Navigate(["admin", "lots", id], true, Some("admin")) == Proceed
    ensures Navigate(["admin", "lots", id], true, Some("user")) == Redirect(["user", "dashboard"])
    ensures Navigate(["admin", "lots", id], false, None) == Redirect(["login"])
  {
    LotDetailsResolves(id);
  }

  lemma LotDetailsResolves(id: string)
    requires id != ""
    ensures Resolve(["admin", "lots", id]) == Some(Routes[9])
  {
    var path := ["admin", "lots", id];
    forall k | 0 <= k < 9 ensures !MatchesPath(path)(Routes[k]) {
      assert |Routes[k].pattern| < 3;
    }
    assert Matches(Routes[9].pattern, path);
    FirstIndexAt(Routes, MatchesPath(path), 9);
  }

  // ---- where redirects lead ----

  lemma HomeResolves()
    ensures Resolve(Home) == Some(Routes[0])
  {
    FirstIndexAt(Routes, MatchesPath(Home), 0);
  }

  lemma LoginResolves()
    ensures Resolve(LoginPage) == Some(Routes[1])
  {
    forall k | 0 <= k < 1 ensures !MatchesPath(LoginPage)(Routes[k]) {
      assert |Routes[k].pattern| < 1;
    }
    assert Matches(Routes[1].pattern, LoginPage);
    FirstIndexAt(Routes, MatchesPath(LoginPage), 1);
  }

  lemma UserDashboardResolves()
    ensures Resolve(UserDashboard) == Some(Routes[3])
  {
    forall k | 0 <= k < 3 ensures !MatchesPath(UserDashboard)(Routes[k]) {
      assert |Routes[k].pattern| < 2;
    }
    assert Matches(Routes[3].pattern, UserDashboard);
    FirstIndexAt(Routes, MatchesPath(UserDashboard), 3);
  }

  lemma AdminDashboardResolves()
    ensures Resolve(AdminDashboard) == Some(Routes[7])
  {
    forall k | 0 <= k < 7 ensures !MatchesPath(AdminDashboard)(Routes[k]) {
      if k < 3 {
        assert |Routes[k].pattern| < 2;
      } else {
        assert Routes[k].pattern[0] == Lit("user");
      }
    }
    assert Matches(Routes[7].pattern, AdminDashboard);
    FirstIndexAt(Routes, MatchesPath(AdminDashboard), 7);
  }

  /** Every redirect the guard or the catch-all issues goes to "/", to
      /login or to the user's dashboard. */
  lemma RedirectTargets(path: seq<string>, authenticated: bool, role: Option<string>)
    ensures Navigate(path, authenticated, role).Redirect? ==>
              Navigate(path, authenticated, role).to in {Home, LoginPage, Dashboard(role)}
  {
  }
}
