/** The application shell: the session lifecycle (`checkAuth`, the
    logout-timer effect, login and logout) and the `API` base address.

    React state setters and effects are modelled as sequential steps: the
    logout-timer effect depends on `isAuthenticated`, so it re-runs (its
    cleanup first cancelling the pending timer) exactly when a step changes
    that flag. The browser's clock is the explicit parameter `now`. */
module App {
  import opened Wrappers
  import opened Text
  import opened TokenClock

  /** Largest delay a browser timer holds: the timeout is a WebIDL `long`. */
  const MaxTimerDelay: int := 0x7FFF_FFFF

  /** `exp * 1000 - Date.now()`; `None` is `NaN`. */
  function RawTimeout(claim: ExpClaim, now: int): (ms: Option<int>)
    ensures ms.Some? <==> claim.Exp?
    // the milliseconds from `now` until the expiry time
    ensures ms.Some? ==> now + ms.value == claim.seconds * 1000
  {
    match claim
    case Exp(seconds) => Some(seconds * 1000 - now)
    case _ => None
  }

  /** The delay `setTimeout` actually waits: the argument is converted to a
      32-bit signed integer (`NaN` becomes 0, larger values wrap), and a
      negative result is treated as 0. */
  function TimerDelay(raw: Option<int>): (d: nat)
    ensures d <= MaxTimerDelay
    ensures raw.Some? && 0 <= raw.value <= MaxTimerDelay ==> d == raw.value
  {
    match raw
    case None => 0
    case Some(ms) =>
      var wrapped := ms % 0x1_0000_0000;
      if wrapped <= MaxTimerDelay then wrapped else 0
  }

  /** A pending forced-logout timer and the time it fires. */
  datatype LogoutTimer = LogoutTimer(due: int)

  /** The timer the logout effect leaves pending after running at `now`. */
  function ScheduledTimer(token: Option<string>, now: int, decode: string -> ExpClaim): (t: Option<LogoutTimer>)
    ensures t.Some? <==> !IsTokenExpired(token, now, decode)
    ensures t.Some? ==> now <= t.value.due <= now + MaxTimerDelay
  {
    if !IsTokenExpired(token, now, decode) then
      Some(LogoutTimer(now + TimerDelay(RawTimeout(Claim(token.value, decode), now))))
    else None
  }

  /** The timer is only scheduled for a valid token, so the computed timeout is
      never negative; within the 32-bit range it fires exactly at `exp * 1000`. */
  lemma ScheduledTimerFiresAtExpiry(token: string, now: int, decode: string -> ExpClaim, seconds: int)
    requires Claim(token, decode) == Exp(seconds)
    requires !IsTokenExpired(Some(token), now, decode)
    ensures seconds * 1000 - now >= 0
    ensures seconds * 1000 - now <= MaxTimerDelay ==>
              ScheduledTimer(Some(token), now, decode) == Some(LogoutTimer(seconds * 1000))
  {
    assert token != "";
  }

  /** A token valid for 2^31 seconds past `nowSeconds` overflows the timer:
      the delay `2^31 * 1000` milliseconds wraps to 0, so the forced logout is
      due at once although the token is still valid. */
  lemma FarExpiryWrapsAround(token: string, nowSeconds: int, decode: string -> ExpClaim)
    requires Claim(token, decode) == Exp(nowSeconds + 0x8000_0000)
    ensures !IsTokenExpired(Some(token), nowSeconds * 1000, decode)
    ensures ScheduledTimer(Some(token), nowSeconds * 1000, decode) == Some(LogoutTimer(nowSeconds * 1000))
  {
    assert token != "";
    var raw := (nowSeconds + 0x8000_0000) * 1000 - nowSeconds * 1000;
    assert raw == 0x8000_0000 * 1000;
    assert raw % 0x1_0000_0000 == 0;
  }

  /** `localStorage` entry `token` and the state of `App`. */
  class AuthSession {
    const decode: string -> ExpClaim
    var token: Option<string>
    var isAuthenticated: bool
    var loading: bool
    var timer: Option<LogoutTimer>
    /** `window.location.href` was set to `/login` by the timer. */
    var redirectedToLogin: bool

    ghost predicate Valid()
      reads this
    {
      isAuthenticated ==> token.Some?
    }

    constructor (stored: Option<string>, decode: string -> ExpClaim)
      ensures Valid() && this.decode == decode
      ensures token == stored && !isAuthenticated && loading
      ensures timer == None && !redirectedToLogin
    {
      this.decode := decode;
      token := stored;
      isAuthenticated := false;
      loading := true;
      timer := None;
      redirectedToLogin := false;
    }

    /** The logout-timer effect: clear the previous timer, then schedule one
        for a present, unexpired token. At most one timer is ever pending. */
    method RunTimerEffect(now: int)
      modifies this`timer
      ensures timer == ScheduledTimer(token, now, decode)
    {
      timer := None;
      if token.Some? && token.value != "" && !IsTokenExpired(token, now, decode) {
        var timeout := RawTimeout(Claim(token.value, decode), now);
        timer := Some(LogoutTimer(now + TimerDelay(timeout)));
      }
    }

    /** `setIsAuthenticated(v)`, followed by the effect re-run it triggers
        when the value changes. */
    method SetAuthenticated(v: bool, now: int)
      requires v ==> token.Some?
      modifies this`isAuthenticated, this`timer
      ensures Valid() && isAuthenticated == v
      ensures timer == if v != old(isAuthenticated) then ScheduledTimer(token, now, decode) else old(timer)
    {
      if v != isAuthenticated {
        isAuthenticated := v;
        RunTimerEffect(now);
      }
    }

    /** Mounting `App`: `checkAuth` runs up to its `/auth/me` request, the
        timer effect runs its first time at `now`, and the request settles at
        `answeredAt` with outcome `meOk`. */
    method Mount(now: int, answeredAt: int, meOk: bool) returns (calledMe: bool)
      requires Valid() && loading && !isAuthenticated && timer == None
      modifies this
      ensures Valid() && !loading
      ensures redirectedToLogin == old(redirectedToLogin)
      // no request is made for a missing or expired token, which is removed
      ensures calledMe == !IsTokenExpired(old(token), now, decode)
      ensures isAuthenticated == (calledMe && meOk)
      ensures token == if isAuthenticated then old(token) else None
      // a rejected token leaves the timer scheduled at mount pending
      ensures timer == if !calledMe then None
                       else if meOk then ScheduledTimer(old(token), answeredAt, decode)
                       else ScheduledTimer(old(token), now, decode)
    {
      if IsTokenExpired(token, now, decode) {
        token := None;
        SetAuthenticated(false, now);
        loading := false;
        calledMe := false;
      } else {
        calledMe := true;
      }
      RunTimerEffect(now);
      if calledMe {
        if meOk {
          SetAuthenticated(true, answeredAt);
        } else {
          token := None;
          SetAuthenticated(false, answeredAt);
        }
        loading := false;
      }
    }

    /** Time passes to `now`: a due timer removes the token, marks the session
        unauthenticated and sends the browser to `/login`. */
    method Tick(now: int)
      requires Valid()
      modifies this
      ensures Valid() && loading == old(loading)
      ensures old(timer).Some? && old(timer).value.due <= now ==>
                token == None && !isAuthenticated && redirectedToLogin && timer == None
      ensures !(old(timer).Some? && old(timer).value.due <= now) ==>
                token == old(token) && isAuthenticated == old(isAuthenticated) &&
                redirectedToLogin == old(redirectedToLogin) && timer == old(timer)
    {
      if timer.Some? && timer.value.due <= now {
        timer := None;
        token := None;
        SetAuthenticated(false, now);
        redirectedToLogin := true;
      }
    }

    /** The dashboard's logout button. */
    method Logout(now: int)
      requires Valid()
      modifies this
      ensures Valid() && loading == old(loading)
      ensures token == None && !isAuthenticated && redirectedToLogin == old(redirectedToLogin)
      ensures timer == if old(isAuthenticated) then None else old(timer)
    {
      token := None;
      SetAuthenticated(false, now);
    }

    /** A successful login stores the issued token, then `onLogin` marks the
        session authenticated. */
    method OnLogin(issued: string, now: int)
      requires Valid()
      modifies this
      ensures Valid() && loading == old(loading)
      ensures token == Some(issued) && isAuthenticated && redirectedToLogin == old(redirectedToLogin)
      ensures timer == if old(isAuthenticated) then old(timer) else ScheduledTimer(Some(issued), now, decode)
    {
      token := Some(issued);
      SetAuthenticated(true, now);
    }
  }

  /** `.replace(/\/+$/, "")`: drop the trailing run of slashes. */
  function StripTrailingSlashes(s: string): (r: string)
    ensures r <= s
    ensures r == [] || r[|r| - 1] != '/'
    ensures forall i :: |r| <= i < |s| ==> s[i] == '/'
    decreases |s|
  {
    if s != [] && s[|s| - 1] == '/' then StripTrailingSlashes(s[..|s| - 1]) else s
  }

  /** `API` as written: the slashes are stripped after `/api` is appended. */
  function Api(backendUrl: string): (r: string)
    ensures r <= backendUrl + "/api"
    ensures r == [] || r[|r| - 1] != '/'
  {
    StripTrailingSlashes(backendUrl + "/api")
  }

  /** The strip never removes anything, because the string ends in `i`. */
  lemma ApiStripIsNoOp(backendUrl: string)
    ensures Api(backendUrl) == backendUrl + "/api"
  {
  }

  /** A backend address with a trailing slash yields a double slash. */
  lemma ApiKeepsDoubleSlash()
    ensures Api("http://localhost:8001/") == "http://localhost:8001//api"
  {
    ApiStripIsNoOp("http://localhost:8001/");
  }

  /** `API` with the trailing slashes of the backend address stripped. */
  function ApiStripped(backendUrl: string): (r: string)
    ensures EndsWith(r, "/api") && !EndsWith(r, "//api")
    ensures r == StripTrailingSlashes(backendUrl) + "/api"
  {
    var base := StripTrailingSlashes(backendUrl);
    var r := base + "/api";
    assert r[|r| - 4..] == "/api";
    assert |base| > 0 ==> r[|r| - 5] == base[|base| - 1];
    r
  }

  /** `n` slashes. */
  function Slashes(n: nat): (r: string)
    ensures |r| == n && forall i :: 0 <= i < n ==> r[i] == '/'
  {
    if n == 0 then "" else Slashes(n - 1) + "/"
  }

  /** Stripping ignores how many slashes there were. */
  lemma {:induction false} StripIgnoresTrailingSlashes(s: string, n: nat)
    ensures StripTrailingSlashes(s + Slashes(n)) == StripTrailingSlashes(s)
    decreases n
  {
    if n == 0 {
      assert s + Slashes(n) == s;
    } else {
      var t := s + Slashes(n - 1);
      assert s + Slashes(n) == t + "/";
      assert (t + "/")[..|t|] == t;
      StripIgnoresTrailingSlashes(s, n - 1);
    }
  }

  /** Trailing slashes on the backend address no longer matter. */
  lemma ApiStrippedIgnoresTrailingSlashes(backendUrl: string, slashes: nat)
    ensures ApiStripped(backendUrl + Slashes(slashes)) == ApiStripped(backendUrl)
  {
    StripIgnoresTrailingSlashes(backendUrl, slashes);
  }
}
