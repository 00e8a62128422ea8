/** The token refresher: one timer that asks for a new access token ten
    seconds before the current one expires (but never sooner than five
    seconds from now), and a focus/visibility handler that asks at once when
    the token is already inside that ten-second window. The clock is the
    parameter `now` (epoch ms); the timer is a single armed/idle slot. */
module TokenRefresh {
  import opened Common
  import Auth

  const EarlySkewMs := 10000
  const MinDelayMs := 5000

  /** Without a (non-empty) refresh token or a (non-zero) expiry time the
      refresher does nothing at all. */
  predicate Inert(refreshToken: Option<string>, expiresAt: Option<int>) {
    !(refreshToken.Some? && refreshToken.value != "") || !(expiresAt.Some? && expiresAt.value != 0)
  }

  /** Milliseconds from `now` until the timer fires. */
  function Delay(expiresAt: int, now: int): (d: int)
    ensures d >= MinDelayMs && d >= expiresAt - now - EarlySkewMs
    ensures d == MinDelayMs || d == expiresAt - now - EarlySkewMs
  {
    var d := expiresAt - now - EarlySkewMs;
    if d < MinDelayMs then MinDelayMs else d
  }

  /** Whether a focus or visibility event dispatches a refresh. */
  predicate RefreshOnFocus(refreshToken: Option<string>, expiresAt: Option<int>, now: int) {
    !Inert(refreshToken, expiresAt) && now >= expiresAt.value - EarlySkewMs
  }

  datatype Timer = NoTimer | Armed(deadline: int)

  /** The timer the effect arms for the given session at time `now`. */
  function Schedule(refreshToken: Option<string>, expiresAt: Option<int>, now: int): (t: Timer)
    ensures t.Armed? <==> !Inert(refreshToken, expiresAt)
    ensures t.Armed? ==> t.deadline - now >= MinDelayMs
    ensures t.Armed? ==> t.deadline >= expiresAt.value - EarlySkewMs
    ensures t.Armed? ==> t.deadline == now + MinDelayMs || t.deadline == expiresAt.value - EarlySkewMs
  {
    if Inert(refreshToken, expiresAt) then NoTimer else Armed(now + Delay(expiresAt.value, now))
  }

  /** A token with a minute left is refreshed after fifty seconds; one with
      nine seconds left after the five-second minimum. */
  lemma DelayExamples(now: int)
    ensures Delay(now + 60000, now) == 50000
    ensures Delay(now + 9000, now) == 5000
  {
  }

  /** When the armed timer fires, the focus rule would refresh too: both
      triggers agree on when a token is due. */
  lemma TimerFiresInsideFocusWindow(refreshToken: Option<string>, expiresAt: Option<int>, now: int)
    requires Schedule(refreshToken, expiresAt, now).Armed?
    ensures RefreshOnFocus(refreshToken, expiresAt, Schedule(refreshToken, expiresAt, now).deadline)
  {
  }

  /** A token issued at `now` is refreshed before it expires exactly when it
      lives longer than the five-second minimum delay; with the default
      lifetime the refresh comes 530 seconds after issue. */
  lemma RefreshPrecedesExpiry(now: int, expiresIn: Option<int>)
    ensures var exp := Auth.ExpiresAt(now, expiresIn);
            now + Delay(exp, now) < exp <==> expiresIn.GetOr(Auth.DefaultExpSeconds) > 5
    ensures expiresIn.None? ==> Delay(Auth.ExpiresAt(now, expiresIn), now) == 530000
  {
  }

  /** The mounted refresher: the session values it last saw, its one timer,
      and how many refreshes it has dispatched. */
  class TokenRefresher {
    var refreshToken: Option<string>
    var expiresAt: Option<int>
    var timer: Timer
    var refreshes: nat

    /** A timer is armed only for a live session, and never fires before the
        token has entered the ten-second window. */
    ghost predicate Valid()
      reads this
    {
      timer.Armed? ==> !Inert(refreshToken, expiresAt) && timer.deadline >= expiresAt.value - EarlySkewMs
    }

    /** Mounting runs the effect once. */
    constructor Mount(refreshToken: Option<string>, expiresAt: Option<int>, now: int)
      ensures Valid()
      ensures this.refreshToken == refreshToken && this.expiresAt == expiresAt
      ensures timer == Schedule(refreshToken, expiresAt, now) && refreshes == 0
    {
      this.refreshToken := refreshToken;
      this.expiresAt := expiresAt;
      timer := Schedule(refreshToken, expiresAt, now);
      refreshes := 0;
    }

    /** A re-render: when the session values changed, the effect's cleanup
        clears the old timer before the effect arms a new one. */
    method Render(refreshToken: Option<string>, expiresAt: Option<int>, now: int)
      requires Valid()
      modifies this
      ensures Valid()
      ensures this.refreshToken == refreshToken && this.expiresAt == expiresAt
      ensures (refreshToken, expiresAt) == old((this.refreshToken, this.expiresAt)) ==> timer == old(timer)
      ensures (refreshToken, expiresAt) != old((this.refreshToken, this.expiresAt)) ==>
                timer == Schedule(refreshToken, expiresAt, now)
      ensures refreshes == old(refreshes)
    {
      if (refreshToken, expiresAt) != (this.refreshToken, this.expiresAt) {
        timer := NoTimer;
        this.refreshToken := refreshToken;
        this.expiresAt := expiresAt;
        timer := Schedule(refreshToken, expiresAt, now);
      }
    }

    /** Time passes to `now`: a due timer fires once, dispatching a refresh,
        and it is then spent. */
    method Elapse(now: int) returns (fired: bool)
      requires Valid()
      modifies this
      ensures Valid()
      ensures fired <==> old(timer).Armed? && now >= old(timer).deadline
      ensures fired ==> RefreshOnFocus(refreshToken, expiresAt, now)
      ensures timer == if fired then NoTimer else old(timer)
      ensures refreshes == old(refreshes) + (if fired then 1 else 0)
      ensures refreshToken == old(refreshToken) && expiresAt == old(expiresAt)
    {
      fired := timer.Armed? && now >= timer.deadline;
      if fired {
        timer := NoTimer;
        refreshes := refreshes + 1;
      }
    }

    /** A focus or visibility event at time `now`. */
    method Focus(now: int) returns (refresh: bool)
      requires Valid()
      modifies this
      ensures Valid()
      ensures refresh == RefreshOnFocus(refreshToken, expiresAt, now)
      ensures refreshes == old(refreshes) + (if refresh then 1 else 0)
      ensures timer == old(timer) && refreshToken == old(refreshToken) && expiresAt == old(expiresAt)
    {
      refresh := RefreshOnFocus(refreshToken, expiresAt, now);
      if refresh {
        refreshes := refreshes + 1;
      }
    }
  }
}
