/** The request middleware that guards pages: it lets the authentication
    API through, sends signed-in users away from the login page, and sends
    signed-out users from the protected pages to the login page. */
module Middleware {

  /** `NextResponse.next()` or `NextResponse.redirect(...)` to a path. */
  datatype Decision = Next | Redirect(target: string)

  /** `protectedPaths`: the pages that need a signed-in user. */
  const ProtectedPaths: seq<string> := ["/actions", "/settings"]

  /** `s.startsWith(prefix)`. */
  predicate StartsWith(s: string, prefix: string)
  {
    prefix <= s
  }

  /** `protectedPaths.some(path => pathname.startsWith(path))`. */
  predicate IsProtected(pathname: string)
  {
    exists i :: 0 <= i < |ProtectedPaths| && StartsWith(pathname, ProtectedPaths[i])
  }

  /** The login page and the protected pages lie outside `/api/auth` (their
      second characters differ), and a path is protected exactly when it
      starts with `/actions` or `/settings`. */
  lemma PathRules(pathname: string)
    ensures StartsWith(pathname, "/login") ==> !StartsWith(pathname, "/api/auth")
    ensures StartsWith(pathname, "/actions") ==> !StartsWith(pathname, "/api/auth")
    ensures StartsWith(pathname, "/settings") ==> !StartsWith(pathname, "/api/auth")
    ensures IsProtected(pathname) <==> StartsWith(pathname, "/actions") || StartsWith(pathname, "/settings")
  {
    if StartsWith(pathname, "/login") { assert pathname[1] == 'l'; }
    if StartsWith(pathname, "/actions") { assert pathname[1] == 'a' && pathname[2] == 'c'; }
    if StartsWith(pathname, "/settings") { assert pathname[1] == 's'; }
    if StartsWith(pathname, "/actions") { assert StartsWith(pathname, ProtectedPaths[0]); }
    if StartsWith(pathname, "/settings") { assert StartsWith(pathname, ProtectedPaths[1]); }
  }

  /** The routing decision for a request, from whether a session token is
      present and the request's path. The rules are tried in order. */
  function Decide(hasToken: bool, pathname: string): (d: Decision)
    ensures StartsWith(pathname, "/api/auth") ==> d == Next
    ensures d == Redirect("/") <==> hasToken && StartsWith(pathname, "/login")
    ensures d == Redirect("/login") <==>
              !hasToken && (StartsWith(pathname, "/actions") || StartsWith(pathname, "/settings"))
    ensures d == Next || d == Redirect("/") || d == Redirect("/login")
  {
    PathRules(pathname);
    if StartsWith(pathname, "/api/auth") then Next
    else if hasToken && StartsWith(pathname, "/login") then Redirect("/")
    else if !hasToken && IsProtected(pathname) then Redirect("/login")
    else Next
  }

  /** Following a redirect with the same token state is let through, so the
      middleware never redirects in a loop. */
  lemma NoRedirectLoop(hasToken: bool, pathname: string)
    ensures Decide(hasToken, pathname).Redirect? ==>
              Decide(hasToken, Decide(hasToken, pathname).target) == Next
  {
  }
}
