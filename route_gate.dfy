/** The edge route gate: before a page in its scope is served it reads the
    ticket cookie and either lets the request through (expiring the cookie
    when there is no usable ticket) or redirects it. */
module RouteGate {
  import opened Common
  import Tickets

  const LoginPath := "/login"
  const CallsPath := "/calls"

  datatype Cookie = Cookie(name: string, value: string, maxAge: int, path: string)

  /** The gate's answer: pass the request on, with the cookies the response
      sets, or redirect the browser. */
  datatype Response = Next(setCookies: seq<Cookie>) | Redirect(location: string)

  /** The cookie that clears the ticket at once. */
  const ExpiredTicket := Cookie(Tickets.TicketKey, "", 0, "/")

  /** JavaScript truthiness of the cookie's value. */
  predicate HasToken(token: Option<string>) {
    token.Some? && token.value != ""
  }

  /** The gate's decision for the request's ticket cookie and path. */
  function Route(token: Option<string>, pathname: string): Response {
    if !HasToken(token) then
      if pathname != LoginPath then Redirect(LoginPath) else Next([ExpiredTicket])
    else if pathname == LoginPath then Redirect(CallsPath)
    else Next([])
  }

  /** `middleware`: the response object is created first and the expired
      cookie is set on it before the path is looked at; a redirect is a new
      response, so that cookie is only sent when the request passes. */
  method Middleware(token: Option<string>, pathname: string) returns (r: Response)
    ensures r == Route(token, pathname)
  {
    var res := Next([]);
    if !HasToken(token) {
      res := res.(setCookies := res.setCookies + [ExpiredTicket]);
      if pathname != LoginPath {
        return Redirect(LoginPath);
      }
      return res;
    }
    if HasToken(token) && pathname == LoginPath {
      return Redirect(CallsPath);
    }
    return res;
  }

  /** The four cases of the gate. */
  lemma RouteCases(token: Option<string>, pathname: string)
    ensures !HasToken(token) && pathname != LoginPath ==> Route(token, pathname) == Redirect("/login")
    ensures !HasToken(token) && pathname == LoginPath ==>
              Route(token, pathname) == Next([Cookie("ACCESS_TOKEN", "", 0, "/")])
    ensures HasToken(token) && pathname == LoginPath ==> Route(token, pathname) == Redirect("/calls")
    ensures HasToken(token) && pathname != LoginPath ==> Route(token, pathname) == Next([])
  {
  }

  /** The gate never redirects a page to itself. */
  lemma NoSelfRedirect(token: Option<string>, pathname: string)
    ensures Route(token, pathname).Redirect? ==> Route(token, pathname).location != pathname
  {
  }

  /** Following a redirect with the same cookie, the next request passes:
      the gate never sends a browser round in circles. */
  lemma RedirectSettles(token: Option<string>, pathname: string)
    requires Route(token, pathname).Redirect?
    ensures InScope(Route(token, pathname).location)
    ensures Route(token, Route(token, pathname).location).Next?
  {
    assert CallsPath != LoginPath by { assert CallsPath[1] != LoginPath[1]; }
  }

  /** The cookie is expired only on the login page itself. */
  lemma ExpiresOnlyOnLogin(token: Option<string>, pathname: string)
    ensures Route(token, pathname).Next? && Route(token, pathname).setCookies != [] <==>
            !HasToken(token) && pathname == LoginPath
  {
  }

  // ----- the gate's scope -----

  predicate StartsWith(s: string, prefix: string) {
    |prefix| <= |s| && s[..|prefix|] == prefix
  }

  /** The paths the gate runs on: the root, the login page, and the calls
      page with any sub-path. */
  predicate InScope(pathname: string) {
    pathname == "/" || pathname == LoginPath || pathname == CallsPath || StartsWith(pathname, CallsPath + "/")
  }

  /** A request as the framework handles it: paths out of scope pass
      untouched. */
  function Gate(token: Option<string>, pathname: string): (r: Response)
    ensures !InScope(pathname) ==> r == Next([])
    ensures InScope(pathname) ==> r == Route(token, pathname)
  {
    if InScope(pathname) then Route(token, pathname) else Next([])
  }

  /** Every page a browser can be redirected to is in scope, and a
      signed-out browser can reach no calls page. */
  lemma SignedOutSeesNoCalls(token: Option<string>, pathname: string)
    requires !HasToken(token) && InScope(pathname) && pathname != LoginPath
    ensures Gate(token, pathname) == Redirect(LoginPath)
  {
  }

  /** The gate only looks for a non-empty cookie, while the client-side
      ticket check also refuses the string "false": such a ticket passes the
      gate but is not a ticket in the browser. */
  lemma GateAndTicketDisagreeOnFalse()
    ensures HasToken(Some("false")) && !Tickets.HasTicket(Some("false"))
    ensures Route(Some("false"), CallsPath) == Next([])
  {
    assert CallsPath != LoginPath by { assert CallsPath[1] != LoginPath[1]; }
  }
}
