/**
 The redirect effects at the top of each page (`useEffect` blocks), as a
 decision on `(loading, user)`: which route the page pushes, if any, and
 whether it shows its "Loading..." placeholder instead of its content.
 */
module PageGuards {
  import opened Optional

  /** What a page sees of the signed-in user: only the role matters here. */
  datatype Viewer = Viewer(role: string)

  /** The events and student pages: only a settled, empty session is sent away. */
  function SignedInGuard(loading: bool, user: Option<Viewer>): (r: Option<string>)
    ensures r.Some? <==> !loading && user.None?
    ensures r.Some? ==> r.value == "/login"
  {
    if !loading && user.None? then Some("/login") else None
  }

  /** The administrator pages. The second test runs whenever the first does
      not fire, so a session still loading with no user is sent to
      `/dashboard` too. */
  function AdminGuard(loading: bool, user: Option<Viewer>): (r: Option<string>)
    ensures !loading && user.None? ==> r == Some("/login")
    ensures r == None <==> user.Some? && user.value.role == "admin"
    ensures r == Some("/dashboard") <==> (loading || user.Some?) && !(user.Some? && user.value.role == "admin")
  {
    if !loading && user.None? then Some("/login")
    else if !(user.Some? && user.value.role == "admin") then Some("/dashboard")
    else None
  }

  /** The student dashboard: administrators are sent to `/admin`. */
  function DashboardGuard(loading: bool, user: Option<Viewer>): (r: Option<string>)
    ensures !loading && user.None? ==> r == Some("/login")
    ensures r == Some("/admin") <==> user.Some? && user.value.role == "admin"
    ensures r == None <==> (loading && user.None?) || (user.Some? && user.value.role != "admin")
  {
    if !loading && user.None? then Some("/login")
    else if user.Some? && user.value.role == "admin" then Some("/admin")
    else None
  }

  /** Every guarded page renders its placeholder while loading or signed out. */
  predicate ShowsPlaceholder(loading: bool, user: Option<Viewer>) {
    loading || user.None?
  }

  /** The pages that use the administrator guard. */
  predicate IsAdminRoute(route: string) {
    route in {"/admin", "/admin/events", "/admin/registrations", "/admin/reports"}
  }

  /** Which guard each route uses. */
  function GuardFor(route: string, loading: bool, user: Option<Viewer>): Option<string> {
    if IsAdminRoute(route) then AdminGuard(loading, user)
    else if route == "/dashboard" then DashboardGuard(loading, user)
    else SignedInGuard(loading, user)
  }

  /** For a settled, signed-in user, one redirect is enough: the page it leads
      to accepts the user. Administrators end on `/admin`, everyone else on
      `/dashboard`. */
  lemma SignedInUsersSettle(route: string, v: Viewer)
    requires IsAdminRoute(route) || route == "/dashboard"
    ensures var r := GuardFor(route, false, Some(v));
      r.Some? ==> GuardFor(r.value, false, Some(v)).None? &&
                  (r.value == "/admin" <==> v.role == "admin")
  {
  }

  /** A settled page never shows content to nobody: whenever the placeholder
      is not shown, the guard let a user through. */
  lemma ContentOnlyForUsers(route: string, loading: bool, user: Option<Viewer>)
    requires !ShowsPlaceholder(loading, user)
    ensures user.Some?
    ensures GuardFor(route, loading, user).Some? ==> GuardFor(route, loading, user).value != "/login"
  {
  }
}
