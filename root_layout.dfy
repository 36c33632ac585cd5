/**
 * The redirect rule the mobile app's root layout runs whenever the
 * authentication state or the current route changes: from the loading
 * flag, the signed-in flag, the welcome-seen flag and the route segments it
 * decides whether to replace the route, and with which.
 */
module RootLayout {
  import opened Wrappers

  /** The three routes the rule can send the user to. */
  datatype Route = Welcome | Login | Tabs

  function Path(r: Route): string {
    match r
    case Welcome => "/(auth)/welcome"
    case Login => "/(auth)/login"
    case Tabs => "/(tabs)"
  }

  /** The route segments the router reports once it has landed on `r`. */
  function Landing(r: Route): seq<string> {
    match r
    case Welcome => ["(auth)", "welcome"]
    case Login => ["(auth)", "login"]
    case Tabs => ["(tabs)"]
  }

  /** Whether `r` lies in the `(auth)` route group. */
  predicate IsAuthRoute(r: Route) {
    Landing(r)[0] == "(auth)"
  }

  /** `segments[i]`, which is `undefined` past the end. */
  function Segment(segments: seq<string>, i: nat): Option<string> {
    if i < |segments| then Some(segments[i]) else None
  }

  predicate InAuthGroup(segments: seq<string>) {
    Segment(segments, 0) == Some("(auth)")
  }

  /** Whether the current screen is one of `names` (by its second segment). */
  predicate OnScreen(segments: seq<string>, names: set<string>) {
    Segment(segments, 1).Some? && Segment(segments, 1).value in names
  }

  /**
   * The route to replace the current one with, or `None` for no redirect.
   * Nothing happens while loading. A signed-out user who has not seen the
   * welcome screen goes to it unless already on the welcome or onboarding
   * screen (the route group is not consulted). A signed-out user who has
   * seen it goes to login unless already on the login or signup screen of
   * the `(auth)` group. A signed-in user inside `(auth)` goes to the tabs,
   * and anywhere else stays.
   */
  function Redirect(isLoading: bool, isAuthenticated: bool, hasSeenWelcome: bool,
                    segments: seq<string>): (r: Option<Route>)
    ensures isLoading ==> r.None?
    ensures r.Some? && isAuthenticated ==> !IsAuthRoute(r.value) && Path(r.value) == "/(tabs)"
    ensures r.Some? && !isAuthenticated ==> "/(auth)/" <= Path(r.value)
    ensures r.Some? && !isAuthenticated ==> r.value != Tabs
    ensures !isLoading && !isAuthenticated && !hasSeenWelcome ==>
              r == (if OnScreen(segments, {"welcome", "onboarding"}) then None else Some(Welcome))
    ensures !isLoading && !isAuthenticated && hasSeenWelcome ==>
              r == (if InAuthGroup(segments) && OnScreen(segments, {"login", "signup"}) then None else Some(Login))
    ensures !isLoading && isAuthenticated ==>
              r == (if InAuthGroup(segments) then Some(Tabs) else None)
  {
    if isLoading then None
    else
      var inAuthGroup := Segment(segments, 0) == Some("(auth)");
      if !isAuthenticated then
        if !hasSeenWelcome then
          if Segment(segments, 1) != Some("welcome") && Segment(segments, 1) != Some("onboarding") then
            Some(Welcome)
          else None
        else if inAuthGroup && Segment(segments, 1) != Some("login") && Segment(segments, 1) != Some("signup") then
          Some(Login)
        else if !inAuthGroup then
          Some(Login)
        else None
      else if inAuthGroup then
        Some(Tabs)
      else None
  }

  /**
   * The rule settles after one redirect: once the router lands on the
   * route it was sent to, with the flags unchanged, it redirects no further.
   */
  lemma RedirectSettles(isAuthenticated: bool, hasSeenWelcome: bool, segments: seq<string>)
    ensures var r := Redirect(false, isAuthenticated, hasSeenWelcome, segments);
      r.Some? ==> Redirect(false, isAuthenticated, hasSeenWelcome, Landing(r.value)).None?
  {
  }

  /** Before the welcome screen is seen, only the second segment matters. */
  lemma WelcomeIgnoresGroup(segments: seq<string>, other: seq<string>)
    requires Segment(segments, 1) == Segment(other, 1)
    ensures Redirect(false, false, false, segments) == Redirect(false, false, false, other)
  {
  }
}
