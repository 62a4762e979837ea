/** src/middleware.ts: the route guard every page request passes through. */
module Middleware {
  import opened Strings

  /** What the guard answers: let the request through (`null`) or redirect. */
  datatype Decision = Next | Redirect(url: string)

  const API_PREFIX := "/api"
  const LOGIN_PREFIX := "/login"
  const LOGIN_FROM := "/login?from="

  /** The guard for a request to `pathname` with query `search` (empty or
      starting with "?"); `isAuth` says whether a session is present, and
      `encode` stands for `encodeURIComponent`. The redirect URLs are given as
      paths on the request's own origin. */
  function Guard(pathname: string, search: string, isAuth: bool, encode: string -> string): (r: Decision)
    ensures StartsWith(pathname, API_PREFIX) ==> r == Next
    ensures !StartsWith(pathname, API_PREFIX) && StartsWith(pathname, LOGIN_PREFIX) ==>
              r == (if isAuth then Redirect("/") else Next)
    ensures !StartsWith(pathname, API_PREFIX) && !StartsWith(pathname, LOGIN_PREFIX) ==>
              r == (if isAuth then Next else Redirect(LOGIN_FROM + encode(pathname + search)))
  {
    if StartsWith(pathname, API_PREFIX) then Next
    else if StartsWith(pathname, LOGIN_PREFIX) then
      if isAuth then Redirect("/") else Next
    else if !isAuth then
      var from := if search != "" then pathname + search else pathname;
      assert pathname + search == from;
      Redirect(LOGIN_FROM + encode(from))
    else Next
  }

  /** Any path under "/login", e.g. "/loginx", counts as the login page. */
  lemma LoginPrefixCountsAsLoginPage(encode: string -> string)
    ensures Guard("/loginx", "", false, encode) == Next
    ensures Guard("/loginx", "", true, encode) == Redirect("/")
  {
    assert "/loginx"[..|API_PREFIX|][1] != API_PREFIX[1];
    assert "/loginx"[..|LOGIN_PREFIX|] == LOGIN_PREFIX;
  }

  /** The api rule wins over the login rule, whatever the session. */
  lemma ApiPassesEvenWithoutSession(rest: string, search: string, isAuth: bool, encode: string -> string)
    ensures Guard(API_PREFIX + rest, search, isAuth, encode) == Next
  {
    assert (API_PREFIX + rest)[..|API_PREFIX|] == API_PREFIX;
  }

  /** Every redirect lands on a page the guard then lets through: the login
      page without a session, the home page with one. So the guard never
      redirects twice in a row. */
  lemma NoRedirectLoop(pathname: string, search: string, isAuth: bool, encode: string -> string)
    ensures Guard(pathname, search, isAuth, encode) == Redirect(LOGIN_FROM + encode(pathname + search)) && !isAuth ==>
              Guard(LOGIN_PREFIX, "?from=" + encode(pathname + search), isAuth, encode) == Next
    ensures Guard(pathname, search, isAuth, encode) == Redirect("/") ==> isAuth && Guard("/", "", isAuth, encode) == Next
  {
    assert LOGIN_PREFIX[..|API_PREFIX|][1] != API_PREFIX[1];
    assert LOGIN_PREFIX[..|LOGIN_PREFIX|] == LOGIN_PREFIX;
    assert (LOGIN_FROM + encode(pathname + search))[1] == 'l';
  }

  /** A session never sees the login redirect, and without one only the api
      and the login pages are reachable. */
  lemma WhoIsRedirectedToLogin(pathname: string, search: string, isAuth: bool, encode: string -> string)
    ensures Guard(pathname, search, isAuth, encode).Redirect? && Guard(pathname, search, isAuth, encode).url != "/"
            <==> !isAuth && !StartsWith(pathname, API_PREFIX) && !StartsWith(pathname, LOGIN_PREFIX)
  {
    if !isAuth && !StartsWith(pathname, API_PREFIX) && !StartsWith(pathname, LOGIN_PREFIX) {
      assert (LOGIN_FROM + encode(pathname + search))[1] == 'l';
    }
  }
}
