/**
 The request filter of `middleware.js`: on the paths it is configured for,
 a request without the `auth_user` cookie is sent to the sign-in page, and a
 request with it is kept away from the sign-in page.
 */
module Middleware {
  import opened Text

  datatype Decision = Redirect(to: string) | Next

  /** The `matcher` configuration: `/dashboard/:path*` and `/login`. */
  predicate Matched(pathname: string) {
    pathname == "/login" || pathname == "/dashboard" || StartsWith(pathname, "/dashboard/")
  }

  /** `middleware(request)`, given whether the cookie is present. */
  function Decide(hasToken: bool, pathname: string): (d: Decision)
    ensures d.Redirect? ==> d.to == "/login" || d.to == "/dashboard"
    ensures d == Redirect("/login") <==> !hasToken && !StartsWith(pathname, "/login")
    ensures d == Redirect("/dashboard") <==> hasToken && pathname == "/login"
    ensures d == Next <==> (hasToken && pathname != "/login") || (!hasToken && StartsWith(pathname, "/login"))
  {
    if !hasToken && !StartsWith(pathname, "/login") then Redirect("/login")
    else if hasToken && pathname == "/login" then Redirect("/dashboard")
    else Next
  }

  /** A request as the framework handles it: paths outside the matcher never
      reach the function and pass through. */
  function Handle(hasToken: bool, pathname: string): (d: Decision)
    ensures !Matched(pathname) ==> d == Next
    ensures Matched(pathname) ==> d == Decide(hasToken, pathname)
  {
    if Matched(pathname) then Decide(hasToken, pathname) else Next
  }

  /** On the matched paths: without a cookie exactly the dashboard paths are
      redirected to sign-in; with one, exactly `/login` is redirected away. */
  lemma MatchedBehaviour(hasToken: bool, pathname: string)
    requires Matched(pathname)
    ensures !hasToken ==> (Handle(hasToken, pathname) == Redirect("/login") <==> pathname != "/login")
    ensures hasToken ==> (Handle(hasToken, pathname) == Redirect("/dashboard") <==> pathname == "/login")
  {
    if pathname == "/login" {
      assert StartsWith(pathname, "/login");
    } else {
      assert pathname[1] == 'd' by {
        if pathname != "/dashboard" {
          assert pathname[..11] == "/dashboard/";
          assert pathname[..11][1] == 'd';
        }
      }
      assert !StartsWith(pathname, "/login") by {
        if |pathname| >= 6 {
          assert pathname[..6][1] == 'd';
        }
      }
    }
  }

  /** No redirect loop: following a redirect with the same cookie state is
      never redirected again. */
  lemma NoRedirectLoop(hasToken: bool, pathname: string)
    ensures Handle(hasToken, pathname).Redirect? ==>
      Handle(hasToken, Handle(hasToken, pathname).to) == Next
  {
    assert StartsWith("/login", "/login");
    assert !StartsWith("/dashboard", "/login") by {
      assert "/dashboard"[..6][1] != "/login"[1];
    }
  }
}
