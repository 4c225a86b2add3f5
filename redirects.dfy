/** Following the guard's redirects (frontend/src/router/index.js): the
    navigation that a redirect starts is put to the guard again, until a
    page is let through. Whether the chain stops, and where, for the
    signed-out visitor and each role. */
module Redirects {

  import opened Wrappers
  import opened Router

  // ---- where the redirects end ----

  /** From each redirect target, two more navigations reach a page the
      guard lets through, for a signed-out visitor and for the two roles. */
  lemma {:induction false} TargetsSettle(t: seq<string>, authenticated: bool, role: Option<string>)
    requires t in {Home, LoginPage, Dashboard(role)}
    requires !authenticated || role == Some("admin") || role == Some("user")
    ensures Follow(t, authenticated, role, 2).Some?
    ensures Navigate(Follow(t, authenticated, role, 2).value, authenticated, role) == Proceed
  {
    if t == Home {
      GuestPageSettles(Home, authenticated, role);
    } else if t == LoginPage {
      GuestPageSettles(LoginPage, authenticated, role);
    } else {
      DashboardSettles(authenticated, role);
    }
  }

  /** "/" and /login let a signed-out visitor through and send a signed-in
      user to a dashboard that lets them through. */
  lemma GuestPageSettles(t: seq<string>, authenticated: bool, role: Option<string>)
    requires t == Home || t == LoginPage
    requires !authenticated || role == Some("admin") || role == Some("user")
    ensures Follow(t, authenticated, role, 2).Some?
    ensures Navigate(Follow(t, authenticated, role, 2).value, authenticated, role) == Proceed
  {
    var step := p => Navigate(p, authenticated, role);
    HomeResolves();
    LoginResolves();
    if authenticated {
      assert step(t) == Redirect(Dashboard(role));
      DashboardLetsUserThrough(role);
      FollowRedirects(step, t, 2, Dashboard(role));
      FollowProceeds(step, Dashboard(role), 1);
    } else {
      assert step(t) == Proceed;
      FollowProceeds(step, t, 2);
    }
  }

  /** The user's dashboard lets them through when signed in and sends a
      signed-out visitor to /login, which lets them through. */
  lemma DashboardSettles(authenticated: bool, role: Option<string>)
    requires !authenticated || role == Some("admin") || role == Some("user")
    ensures Follow(Dashboard(role), authenticated, role, 2).Some?
    ensures Navigate(Follow(Dashboard(role), authenticated, role, 2).value, authenticated, role) == Proceed
  {
    var step := p => Navigate(p, authenticated, role);
    if authenticated {
      DashboardLetsUserThrough(role);
      FollowProceeds(step, Dashboard(role), 2);
    } else {
      DashboardNeedsSignIn(role);
      LoginResolves();
      assert step(LoginPage) == Proceed;
      FollowRedirects(step, Dashboard(role), 2, LoginPage);
      FollowProceeds(step, LoginPage, 1);
    }
  }

  lemma DashboardLetsUserThrough(role: Option<string>)
    requires role == Some("admin") || role == Some("user")
    ensures Navigate(Dashboard(role), true, role) == Proceed
  {
    UserDashboardResolves();
    AdminDashboardResolves();
  }

  lemma DashboardNeedsSignIn(role: Option<string>)
    ensures Navigate(Dashboard(role), false, role) == Redirect(LoginPage)
  {
    UserDashboardResolves();
    AdminDashboardResolves();
  }

  lemma FollowProceeds(step: seq<string> -> Decision, path: seq<string>, fuel: nat)
    requires fuel > 0 && step(path) == Proceed
    ensures FollowWith(step, path, fuel) == Some(path)
  {
  }

  lemma FollowRedirects(step: seq<string> -> Decision, path: seq<string>, fuel: nat, to: seq<string>)
    requires fuel > 0 && step(path) == Redirect(to)
    ensures FollowWith(step, path, fuel) == FollowWith(step, to, fuel - 1)
  {
  }

  /** For a signed-out visitor and for the two roles the app issues, every
      navigation ends on a page within three steps, and that page is one the
      guard lets through. */
  lemma {:induction false} NavigationSettles(path: seq<string>, authenticated: bool, role: Option<string>)
    requires !authenticated || role == Some("admin") || role == Some("user")
    ensures Follow(path, authenticated, role, 3).Some?
    ensures Navigate(Follow(path, authenticated, role, 3).value, authenticated, role) == Proceed
  {
    RedirectTargets(path, authenticated, role);
    match Navigate(path, authenticated, role)
    case Proceed =>
    case Redirect(t) => TargetsSettle(t, authenticated, role);
  }

  /** A signed-in user whose stored role is neither "admin" nor "user" is sent
      from the user dashboard to the user dashboard: the redirects never
      stop. */
  lemma OtherRoleNeverSettles(role: Option<string>, fuel: nat)
    requires role != Some("admin") && role != Some("user")
    ensures Navigate(UserDashboard, true, role) == Redirect(UserDashboard)
    ensures Follow(UserDashboard, true, role, fuel) == None
  {
    UserDashboardResolves();
    SelfRedirectNeverSettles(p => Navigate(p, true, role), UserDashboard, fuel);
  }

  /** A page that redirects to itself is never shown, however many
      navigations are followed. */
  lemma {:induction false} SelfRedirectNeverSettles(step: seq<string> -> Decision, path: seq<string>, fuel: nat)
    requires step(path) == Redirect(path)
    ensures FollowWith(step, path, fuel) == None
  {
    if fuel > 0 {
      SelfRedirectNeverSettles(step, path, fuel - 1);
    }
  }
}
