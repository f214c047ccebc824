/** The route guard of `middleware.ts`: a decision on the request path and on
    whether a `session` cookie is present (its value is never checked here),
    and the matcher that says which paths the guard runs on at all. */
module Middleware {
  import opened Wrappers
  import opened Js

  /** Pages only a signed-in visitor may see. */
  const ProtectedRoutes: seq<string> := ["/dashboard"]
  /** Pages a signed-in visitor is sent away from. */
  const AuthRoutes: seq<string> := ["/login", "/register"]

  /** `NextResponse.next()` or `NextResponse.redirect(new URL(location,
      request.url))`. */
  datatype Action = Next | Redirect(location: string)

  // A classification of routes (protected, sign-in pages, public) and a
  // table from (session present, route class) to the action.

  datatype RouteClass = Protected | AuthOnly | Public

  function Classify(pathname: string): RouteClass {
    if pathname in ProtectedRoutes then Protected
    else if pathname in AuthRoutes then AuthOnly
    else Public
  }

  function GuardTable(hasSession: bool, route: RouteClass): Action {
    match route
    case AuthOnly => if hasSession then Redirect("/dashboard") else Next
    case Protected => if hasSession then Next else Redirect("/login")
    case Public => Next
  }

  /** `middleware(request)`: `sessionCookie` is
      `request.cookies.get("session")?.value`. */
  function Middleware(sessionCookie: Option<string>, pathname: string): (a: Action)
    ensures a == GuardTable(Present(sessionCookie), Classify(pathname))
  {
    if Present(sessionCookie) && pathname in AuthRoutes then
      Redirect("/dashboard")
    else if !Present(sessionCookie) && pathname in ProtectedRoutes then
      Redirect("/login")
    else
      Next
  }

  /** What the regular expression `.` matches: anything but a line terminator. */
  predicate RegexDot(c: char) {
    c != '\n' && c != '\r' && c != '\U{2028}' && c != '\U{2029}'
  }

  predicate StartsWith(s: string, prefix: string) {
    |prefix| <= |s| && s[..|prefix|] == prefix
  }

  /** The negative lookahead `(?!api|_next/static|_next/image|favicon.ico)`
      at the start of `rest`. In `favicon.ico` the dot is a regex wildcard. */
  predicate Excluded(rest: string) {
    || StartsWith(rest, "api")
    || StartsWith(rest, "_next/static")
    || StartsWith(rest, "_next/image")
    || (|rest| >= 11 && rest[..7] == "favicon" && RegexDot(rest[7]) && rest[8..11] == "ico")
  }

  /** `config.matcher`: the whole path matches `^/((?!...).*)$`. */
  predicate Matched(pathname: string) {
    && |pathname| >= 1
    && pathname[0] == '/'
    && !Excluded(pathname[1..])
    && forall i :: 1 <= i < |pathname| ==> RegexDot(pathname[i])
  }

  /** What a request meets: the guard on matched paths, nothing otherwise. */
  function Route(sessionCookie: Option<string>, pathname: string): Action {
    if Matched(pathname) then Middleware(sessionCookie, pathname) else Next
  }

  lemma RedirectToDashboardExactly(sessionCookie: Option<string>, pathname: string)
    ensures Middleware(sessionCookie, pathname) == Redirect("/dashboard")
            <==> Present(sessionCookie) && (pathname == "/login" || pathname == "/register")
  {
  }

  lemma RedirectToLoginExactly(sessionCookie: Option<string>, pathname: string)
    ensures Middleware(sessionCookie, pathname) == Redirect("/login")
            <==> !Present(sessionCookie) && pathname == "/dashboard"
  {
  }

  lemma PassThroughOtherwise(sessionCookie: Option<string>, pathname: string)
    ensures Middleware(sessionCookie, pathname) == Next
            <==> !(Present(sessionCookie) && (pathname == "/login" || pathname == "/register"))
                 && !(!Present(sessionCookie) && pathname == "/dashboard")
  {
  }

  /** Protection is by exact path: pages below `/dashboard` are not guarded. */
  lemma SubpagesNotProtected()
    ensures Middleware(None, "/dashboard/products") == Next
    ensures Middleware(Some(""), "/dashboard/products") == Next
  {
  }

  /** An empty cookie value counts as no session. */
  lemma EmptyCookieIsNoSession(pathname: string)
    ensures Middleware(Some(""), pathname) == Middleware(None, pathname)
  {
  }

  /** For one cookie state, only one of the two redirects is ever taken. */
  lemma RedirectsExclusive(sessionCookie: Option<string>, p: string, q: string)
    ensures !(Middleware(sessionCookie, p) == Redirect("/dashboard")
              && Middleware(sessionCookie, q) == Redirect("/login"))
  {
  }

  /** Following a redirect with the same cookie state is let through, and the
      redirect target is a path the guard runs on. */
  lemma NoRedirectLoop(sessionCookie: Option<string>, pathname: string)
    ensures Middleware(sessionCookie, pathname).Redirect? ==>
              var target := Middleware(sessionCookie, pathname).location;
              Matched(target) && Route(sessionCookie, target) == Next
  {
    assert "/dashboard"[1..][0] == 'd' && "/login"[1..][0] == 'l';
  }

  /** API routes, Next.js assets and the favicon never reach the guard. */
  lemma ExcludedPathsPass(sessionCookie: Option<string>, pathname: string)
    requires |pathname| >= 1 && pathname[0] == '/'
    requires || StartsWith(pathname[1..], "api")
             || StartsWith(pathname[1..], "_next/static")
             || StartsWith(pathname[1..], "_next/image")
             || StartsWith(pathname[1..], "favicon.ico")
    ensures !Matched(pathname)
    ensures Route(sessionCookie, pathname) == Next
  {
  }

  lemma ExcludedPathExamples()
    ensures !Matched("/api/products") && !Matched("/api/auth/login")
    ensures !Matched("/favicon.ico") && !Matched("/faviconXico")
    ensures Route(None, "/api/products") == Next
    ensures Route(Some("x"), "/api/auth/login") == Next
    ensures Route(None, "/favicon.ico") == Next
    ensures Route(None, "/faviconXico") == Next
  {
    assert StartsWith("/api/products"[1..], "api");
    assert StartsWith("/api/auth/login"[1..], "api");
    assert "/favicon.ico"[1..][..7] == "favicon";
    assert "/faviconXico"[1..][..7] == "favicon";
  }

  /** The guarded pages and their sub-pages are matched. The lookahead tests
      a prefix only, so `/apiary` and `/favicon.icon` are excluded as well. */
  lemma MatcherExamples()
    ensures Matched("/dashboard") && Matched("/dashboard/products")
    ensures Matched("/login") && Matched("/register") && Matched("/")
    ensures !Matched("") && !Matched("dashboard")
    ensures !Matched("/apiary") && !Matched("/favicon.icon")
    ensures !Matched("/_next/static/chunk.js") && !Matched("/_next/image")
  {
    assert "/dashboard"[1..][0] == 'd' && "/dashboard/products"[1..][0] == 'd';
    assert "/login"[1..][0] == 'l' && "/register"[1..][0] == 'r';
    assert StartsWith("/apiary"[1..], "api");
    assert "/favicon.icon"[1..][..7] == "favicon";
    assert StartsWith("/_next/static/chunk.js"[1..], "_next/static");
    assert StartsWith("/_next/image"[1..], "_next/image");
  }
}
