/** The auth slice: the session's tokens, their expiry time and the request
    status, with the reducers for logging in, refreshing the access token and
    clearing the session. The clock is a parameter `now` (epoch ms) and the
    persisted ticket is the session store of module Tickets. */
module Auth {
  import opened Common
  import opened Tickets

  /** Lifetime assumed when the server sends no `expires_in`: nine minutes. */
  const DefaultExpSeconds := 9 * 60

  const LoginFailed := "Login failed"
  const SessionExpired := "Session expired"
  const RefreshFailed := "Refresh failed"
  const NoRefreshToken := "No refresh token"

  /** The login and refresh response: `expires_in` is in seconds. */
  datatype AuthResponse = AuthResponse(accessToken: string, refreshToken: Option<string>,
                                       expiresIn: Option<int>)

  /** Expiry time of a token issued at `now`. */
  function ExpiresAt(now: int, expiresIn: Option<int>): (t: int)
    ensures expiresIn.Some? ==> t - now == 1000 * expiresIn.value
    ensures expiresIn.None? ==> t - now == 540000
  {
    now + 1000 * expiresIn.GetOr(DefaultExpSeconds)
  }

  /** JavaScript truthiness of an optional string. */
  predicate Truthy(s: Option<string>) {
    s.Some? && s.value != ""
  }

  /** What the refresh request does before any network traffic. */
  datatype RefreshStart = Send(refreshToken: string) | Reject(message: string)

  /** `refreshAccessToken`: without a (non-empty) refresh token it rejects
      with "No refresh token" and sends nothing; otherwise it sends the
      stored token. */
  function StartRefresh(refreshToken: Option<string>): (r: RefreshStart)
    ensures r.Reject? <==> !Truthy(refreshToken)
    ensures r.Reject? ==> r.message == NoRefreshToken
    ensures r.Send? ==> refreshToken == Some(r.refreshToken)
  {
    if !Truthy(refreshToken) then Reject(RejectionMessage(None, Some(NoRefreshToken), RefreshFailed))
    else Send(refreshToken.value)
  }

  class AuthStore {
    var status: Status
    var error: Option<string>
    var accessToken: Option<string>
    var refreshToken: Option<string>
    /** Epoch ms at which the access token expires. */
    var expiresAt: Option<int>
    /** Where the access token is persisted. */
    const session: SessionStore

    /** An access token is held exactly when its expiry is known. */
    ghost predicate Valid()
      reads this
    {
      accessToken.Some? <==> expiresAt.Some?
    }

    constructor (session: SessionStore)
      ensures Valid() && this.session == session
      ensures status == Idle && error == None
      ensures accessToken == None && refreshToken == None && expiresAt == None
    {
      this.session := session;
      status := Idle;
      error := None;
      accessToken := None;
      refreshToken := None;
      expiresAt := None;
    }

    /** `clearAuth`: forget the session and store an empty ticket. */
    method ClearAuth()
      requires session.inBrowser
      modifies this, session
      ensures Valid()
      ensures accessToken == None && refreshToken == None && expiresAt == None
      ensures status == Idle && error == None
      ensures session.items == old(session.items)[TicketKey := ""]
    {
      accessToken := None;
      refreshToken := None;
      expiresAt := None;
      status := Idle;
      error := None;
      session.SetTicket("");
    }

    /** `setAuth`: take a response as a successful login, clearing any error. */
    method SetAuth(resp: AuthResponse, now: int)
      requires session.inBrowser
      modifies this, session
      ensures Valid()
      ensures accessToken == Some(resp.accessToken) && refreshToken == resp.refreshToken
      ensures expiresAt == Some(ExpiresAt(now, resp.expiresIn))
      ensures status == Succeeded && error == None
      ensures session.items == old(session.items)[TicketKey := resp.accessToken]
    {
      accessToken := Some(resp.accessToken);
      refreshToken := resp.refreshToken;
      expiresAt := Some(ExpiresAt(now, resp.expiresIn));
      status := Succeeded;
      error := None;
      session.SetTicket(resp.accessToken);
    }

    /** `logIn.pending`: the tokens stay as they are. */
    method LogInPending()
      requires Valid()
      modifies this
      ensures Valid()
      ensures status == Loading && error == None
      ensures (accessToken, refreshToken, expiresAt) == old((accessToken, refreshToken, expiresAt))
    {
      status := Loading;
      error := None;
    }

    /** `logIn.fulfilled`: like SetAuth, except that the error is not touched. */
    method LogInFulfilled(resp: AuthResponse, now: int)
      requires session.inBrowser
      modifies this, session
      ensures Valid()
      ensures status == Succeeded && error == old(error)
      ensures accessToken == Some(resp.accessToken) && refreshToken == resp.refreshToken
      ensures expiresAt == Some(ExpiresAt(now, resp.expiresIn))
      ensures session.items == old(session.items)[TicketKey := resp.accessToken]
    {
      status := Succeeded;
      accessToken := Some(resp.accessToken);
      refreshToken := resp.refreshToken;
      expiresAt := Some(ExpiresAt(now, resp.expiresIn));
      session.SetTicket(resp.accessToken);
    }

    /** `logIn.rejected`: record the error and drop every token. */
    method LogInRejected(payload: Option<string>)
      modifies this
      ensures Valid()
      ensures status == Failed && error == Some(payload.GetOr(LoginFailed))
      ensures accessToken == None && refreshToken == None && expiresAt == None
    {
      status := Failed;
      error := Some(payload.GetOr(LoginFailed));
      accessToken := None;
      refreshToken := None;
      expiresAt := None;
    }

    /** `refreshAccessToken.fulfilled`: new access token and expiry; the old
        refresh token is kept unless the response carries a non-empty one;
        the status is not touched. */
    method RefreshFulfilled(resp: AuthResponse, now: int)
      requires session.inBrowser
      modifies this, session
      ensures Valid()
      ensures accessToken == Some(resp.accessToken)
      ensures expiresAt == Some(ExpiresAt(now, resp.expiresIn))
      ensures refreshToken == if Truthy(resp.refreshToken) then resp.refreshToken else old(refreshToken)
      ensures error == None && status == old(status)
      ensures session.items == old(session.items)[TicketKey := resp.accessToken]
    {
      accessToken := Some(resp.accessToken);
      if Truthy(resp.refreshToken) {
        refreshToken := resp.refreshToken;
      }
      expiresAt := Some(ExpiresAt(now, resp.expiresIn));
      error := None;
      session.SetTicket(resp.accessToken);
    }

    /** `refreshAccessToken.rejected`: drop the access token and its expiry
        but keep the refresh token; the status and the persisted ticket are
        not touched. */
    method RefreshRejected(payload: Option<string>)
      modifies this
      ensures Valid()
      ensures error == Some(payload.GetOr(SessionExpired))
      ensures accessToken == None && expiresAt == None
      ensures refreshToken == old(refreshToken) && status == old(status)
    {
      error := Some(payload.GetOr(SessionExpired));
      accessToken := None;
      expiresAt := None;
    }
  }
}
