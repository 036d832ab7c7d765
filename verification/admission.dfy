/**
 The admission decision of auth-proxy/server.js: what the HTTP request handler
 and the WebSocket `upgrade` handler answer, and how they change the session
 table and the login-attempt map. Each request is one atomic step at one
 instant `now`; `freshId` stands for the id `generateSessionId` would return.
 */
module Admission {
  import opened Wrappers
  import Cookies
  import RateLimit
  import Sessions

  /** The gateway's whole state: the two module-level maps. */
  datatype Store = Store(sessions: Sessions.Table, attempts: RateLimit.Attempts)

  /** What the handlers read from a request: method (`verb`), URL pathname, Cookie
      header, the socket's remote address and, for `POST /auth`, the decoded
      `password` form field (None when the body has no such field). */
  datatype Request = Request(
    verb: string,
    path: string,
    cookie: Option<string>,
    clientIp: string,
    password: Option<string>)

  datatype Outcome =
    | ServeLoginPage             // 200, the login form
    | TooManyAttempts            // 429, plain text
    | LoginSucceeded(sessionId: string)
                                 // 302 to "/", Set-Cookie: session=<id>; Path=/; HttpOnly; SameSite=Strict
    | LoginFailed                // 302 to "/login?error=1"
    | LoggedOut                  // 302 to "/login", with a cookie that expired in 1970
    | RedirectToLogin            // 302 to "/login"
    | ProxyHttp                  // handed to the backend proxy
    | ProxyUpgrade               // upgrade handed to the backend proxy
    | DestroySocket              // upgrade refused: the socket is destroyed

  predicate IsLoginPage(req: Request) { req.path == "/login" && req.verb == "GET" }

  predicate IsAuthPost(req: Request) { req.path == "/auth" && req.verb == "POST" }

  /** Every request that reaches the authentication gate. */
  predicate IsGated(req: Request) {
    !IsLoginPage(req) && !IsAuthPost(req) && req.path != "/logout"
  }

  /** `isAuthenticated(req)`: the verdict and the session table afterwards.
      An empty configured password disables authentication. */
  function Authenticate(password: string, t: Sessions.Table, header: Option<string>, now: int)
    : (r: (bool, Sessions.Table))
    ensures password == "" ==> r == (true, t)
    ensures password != "" ==>
              (r.0 <==> && Cookies.SessionCookie(header).Some?
                        && Sessions.Live(t, Cookies.SessionCookie(header).value, now))
    ensures r.0 ==> r.1 == t
    ensures r.1.Keys <= t.Keys && forall k :: k in r.1 ==> r.1[k] == t[k]
    ensures forall k :: k in t && k !in r.1 ==> t[k] <= now && Cookies.SessionCookie(header) == Some(k)
    ensures password != "" && Cookies.SessionCookie(header).Some? && !r.0 ==>
              Cookies.SessionCookie(header).value !in r.1
  {
    if password == "" then (true, t)
    else
      match Cookies.SessionCookie(header)
      case None => (false, t)
      case Some(id) => Sessions.Validate(t, id, now)
  }

  /** The HTTP request handler. */
  function Handle(password: string, st: Store, req: Request, now: int, freshId: string)
    : (r: (Store, Outcome))
    ensures r.1 == ServeLoginPage <==> IsLoginPage(req)
    ensures IsLoginPage(req) ==> r.0 == st
    ensures r.1 == TooManyAttempts <==>
              IsAuthPost(req) && RateLimit.Check(st.attempts, req.clientIp, now).0
    ensures r.1 == TooManyAttempts ==> r.0 == st
    ensures r.1.LoginSucceeded? <==>
              && IsAuthPost(req) && !RateLimit.Check(st.attempts, req.clientIp, now).0
              && req.password == Some(password)
    ensures r.1.LoginSucceeded? ==>
              && r.1.sessionId == freshId
              && r.0.sessions == Sessions.Issue(st.sessions, freshId, now)
              && r.0.attempts == RateLimit.Clear(st.attempts, req.clientIp)
    ensures r.1 == LoginFailed ==>
              && r.0.sessions == st.sessions
              && r.0.attempts == RateLimit.Record(st.attempts, req.clientIp, now)
    ensures r.1 == LoggedOut <==> req.path == "/logout"
    ensures r.1 == LoggedOut ==>
              r.0.sessions == match Cookies.SessionCookie(req.cookie)
                              case None => st.sessions
                              case Some(id) => Sessions.Revoke(st.sessions, id)
    ensures r.1.ProxyHttp? <==>
              IsGated(req) && Authenticate(password, st.sessions, req.cookie, now).0
    ensures r.1 == RedirectToLogin <==>
              IsGated(req) && !Authenticate(password, st.sessions, req.cookie, now).0
    ensures !IsAuthPost(req) ==> r.0.attempts == st.attempts
    ensures IsGated(req) ==> r.0.sessions == Authenticate(password, st.sessions, req.cookie, now).1
    ensures forall k :: k in r.0.sessions && k !in st.sessions ==> r.1.LoginSucceeded? && k == freshId
    ensures r.1 != ProxyUpgrade && r.1 != DestroySocket
  {
    if IsLoginPage(req) then (st, ServeLoginPage)
    else if IsAuthPost(req) then
      var (limited, attempts) := RateLimit.Check(st.attempts, req.clientIp, now);
      if limited then (st.(attempts := attempts), TooManyAttempts)
      else if req.password == Some(password) then
        (Store(Sessions.Issue(st.sessions, freshId, now), RateLimit.Clear(attempts, req.clientIp)),
         LoginSucceeded(freshId))
      else
        (st.(attempts := RateLimit.Record(attempts, req.clientIp, now)), LoginFailed)
    else if req.path == "/logout" then
      var sessions :=
        match Cookies.SessionCookie(req.cookie)
        case None => st.sessions
        case Some(id) => Sessions.Revoke(st.sessions, id);
      (st.(sessions := sessions), LoggedOut)
    else
      var (ok, sessions) := Authenticate(password, st.sessions, req.cookie, now);
      (st.(sessions := sessions), if ok then ProxyHttp else RedirectToLogin)
  }

  /** The WebSocket `upgrade` handler: proxied iff authenticated, whatever
      the path, and otherwise the socket is destroyed. */
  function Upgrade(password: string, st: Store, header: Option<string>, now: int)
    : (r: (Store, Outcome))
    ensures r.1 == ProxyUpgrade || r.1 == DestroySocket
    ensures r.1 == ProxyUpgrade <==> Authenticate(password, st.sessions, header, now).0
    ensures r.0.attempts == st.attempts
    ensures r.0.sessions == Authenticate(password, st.sessions, header, now).1
  {
    var (ok, sessions) := Authenticate(password, st.sessions, header, now);
    (st.(sessions := sessions), if ok then ProxyUpgrade else DestroySocket)
  }

  /** `/logout` deletes the session its cookie names, if any, and changes
      nothing else. */
  lemma LogoutRevokes(password: string, st: Store, req: Request, now: int, freshId: string)
    requires req.path == "/logout"
    ensures var (st', o) := Handle(password, st, req, now, freshId);
            && o == LoggedOut
            && st'.attempts == st.attempts
            && (Cookies.SessionCookie(req.cookie).None? ==> st'.sessions == st.sessions)
            && (Cookies.SessionCookie(req.cookie).Some? ==>
                  st'.sessions == Sessions.Revoke(st.sessions, Cookies.SessionCookie(req.cookie).value))
  {
  }

  /** With no password configured, every gated request and every upgrade is
      admitted without a cookie, and nothing changes. */
  lemma AuthDisabledAdmitsAll(st: Store, req: Request, now: int, freshId: string)
    requires IsGated(req)
    ensures Handle("", st, req, now, freshId) == (st, ProxyHttp)
    ensures Upgrade("", st, req.cookie, now) == (st, ProxyUpgrade)
  {
  }

  /** A client that logs in and sends the session cookie back is admitted,
      over HTTP and over WebSocket, until 24 hours after the login. */
  lemma LoginThenAdmitted(password: string, st: Store, login: Request, now: int, freshId: string,
                          next: Request, later: int)
    requires password != "" && IsAuthPost(login) && login.password == Some(password)
    requires !RateLimit.Check(st.attempts, login.clientIp, now).0
    requires Cookies.CookieSafe(freshId)
    requires IsGated(next) && next.cookie == Some("session=" + freshId)
    requires later < now + Sessions.SessionTtlMs
    ensures var (st', o) := Handle(password, st, login, now, freshId);
            && o == LoginSucceeded(freshId)
            && Handle(password, st', next, later, freshId).1 == ProxyHttp
            && Upgrade(password, st', next.cookie, later).1 == ProxyUpgrade
  {
    Cookies.SessionCookieRoundTrip(freshId);
  }

  /** After logout, the same cookie is refused: HTTP is redirected to the
      login page and an upgrade is destroyed. */
  lemma LogoutThenRefused(password: string, st: Store, logout: Request, now: int, freshId: string,
                          next: Request, later: int)
    requires password != "" && logout.path == "/logout"
    requires Cookies.SessionCookie(logout.cookie).Some?
    requires IsGated(next) && next.cookie == logout.cookie
    ensures var (st', o) := Handle(password, st, logout, now, freshId);
            && o == LoggedOut
            && Handle(password, st', next, later, freshId).1 == RedirectToLogin
            && Upgrade(password, st', next.cookie, later).1 == DestroySocket
  {
  }

  /** One request in a sequence: the request, its instant and the id the
      token generator would hand out. */
  datatype Step = Step(req: Request, now: int, freshId: string)

  /** The state and outcomes after handling `steps` in order. */
  function Replay(password: string, st: Store, steps: seq<Step>): (r: (Store, seq<Outcome>))
    ensures |r.1| == |steps|
  {
    if steps == [] then (st, [])
    else
      var (mid, outs) := Replay(password, st, steps[..|steps| - 1]);
      var last := steps[|steps| - 1];
      var (next, o) := Handle(password, mid, last.req, last.now, last.freshId);
      (next, outs + [o])
  }

  /** A login POST from `ip` whose password is wrong (or missing). */
  predicate FailedLoginFrom(password: string, ip: string, s: Step) {
    IsAuthPost(s.req) && s.req.clientIp == ip && s.req.password != Some(password)
  }

  /** The instants of `steps`, all inside the window opened by the first:
      `RateLimit.WithinFirstWindow` stated on the steps' instants. */
  predicate InOneWindow(steps: seq<Step>) {
    forall k :: 0 <= k < |steps| ==> steps[k].now - steps[0].now <= RateLimit.WindowMs
  }

  /** Up to five failed logins from a client with no record are each answered
      with the error redirect and leave `{count: n, firstAttempt: <first>}`. */
  lemma {:induction false} FailuresAccumulate(password: string, st: Store, ip: string, steps: seq<Step>)
    requires ip !in st.attempts
    requires 0 < |steps| <= RateLimit.MaxAttempts && InOneWindow(steps)
    requires forall k :: 0 <= k < |steps| ==> FailedLoginFrom(password, ip, steps[k])
    ensures Replay(password, st, steps).0
              == st.(attempts := st.attempts[ip := RateLimit.Attempt(|steps|, steps[0].now)])
    ensures forall k :: 0 <= k < |steps| ==> Replay(password, st, steps).1[k] == LoginFailed
  {
    var n := |steps|;
    var last := steps[n - 1];
    if n == 1 {
      assert steps[..0] == [];
    } else {
      var init := steps[..n - 1];
      assert init[0] == steps[0];
      forall k | 0 <= k < |init| ensures init[k] == steps[k] { }
      FailuresAccumulate(password, st, ip, init);
      var mid := Replay(password, st, init).0;
      assert mid.attempts[ip] == RateLimit.Attempt(n - 1, steps[0].now);
      assert !RateLimit.Expired(mid.attempts[ip], last.now);
    }
  }

  /** Five failed logins inside one window lock the client out: a sixth POST
      inside that window gets 429 even with the right password, and changes
      nothing. */
  lemma LockedOutAfterFiveFailures(password: string, st: Store, ip: string, steps: seq<Step>,
                                   sixth: Request, now: int, freshId: string)
    requires ip !in st.attempts
    requires |steps| == RateLimit.MaxAttempts && InOneWindow(steps)
    requires forall k :: 0 <= k < |steps| ==> FailedLoginFrom(password, ip, steps[k])
    requires IsAuthPost(sixth) && sixth.clientIp == ip
    requires now - steps[0].now <= RateLimit.WindowMs
    ensures var st5 := Replay(password, st, steps).0;
            Handle(password, st5, sixth, now, freshId) == (st5, TooManyAttempts)
  {
    FailuresAccumulate(password, st, ip, steps);
  }

  /** Fewer than five failures inside the window do not lock the client out:
      the right password still logs in. */
  lemma FewerFailuresStillAdmitted(password: string, st: Store, ip: string, steps: seq<Step>,
                                   login: Request, now: int, freshId: string)
    requires ip !in st.attempts
    requires 0 < |steps| < RateLimit.MaxAttempts && InOneWindow(steps)
    requires forall k :: 0 <= k < |steps| ==> FailedLoginFrom(password, ip, steps[k])
    requires IsAuthPost(login) && login.clientIp == ip && login.password == Some(password)
    ensures Handle(password, Replay(password, st, steps).0, login, now, freshId).1
              == LoginSucceeded(freshId)
  {
    FailuresAccumulate(password, st, ip, steps);
  }

  /** A successful login clears the client's record, so the next failures
      count from one again. */
  lemma SuccessResetsCount(password: string, st: Store, login: Request, now: int, freshId: string,
                           fail: Request, later: int)
    requires IsAuthPost(login) && login.password == Some(password)
    requires !RateLimit.Check(st.attempts, login.clientIp, now).0
    requires IsAuthPost(fail) && fail.clientIp == login.clientIp && fail.password != Some(password)
    ensures var st1 := Handle(password, st, login, now, freshId).0;
            var st2 := Handle(password, st1, fail, later, freshId).0;
            st2.attempts[login.clientIp] == RateLimit.Attempt(1, later)
  {
  }
}
