/**
 The gateway process of auth-proxy/server.js as an object: the configured
 password and the two maps it owns, updated in place by the rate-limiter
 helpers, `isAuthenticated`, the request handler and the `upgrade` handler.
 Each method is proved to leave the maps as the functions of RateLimit,
 Sessions and Admission say.
 */
module Server {
  import opened Wrappers
  import Cookies
  import RateLimit
  import Sessions
  import opened Admission

  class AuthProxy {
    /** AUTH_PASSWORD; "" disables authentication. */
    const password: string
    /** `sessions`: session id to expiry. */
    var sessions: Sessions.Table
    /** `loginAttempts`: client address to its attempt window. */
    var attempts: RateLimit.Attempts

    constructor (password: string)
      ensures this.password == password
      ensures sessions == map[] && attempts == map[]
    {
      this.password := password;
      sessions := map[];
      attempts := map[];
    }

    /** `isRateLimited(ip)`. */
    method IsRateLimited(ip: string, now: int) returns (limited: bool)
      modifies this`attempts
      ensures ip !in old(attempts) ==> !limited && attempts == old(attempts)
      ensures ip in old(attempts) && RateLimit.Expired(old(attempts)[ip], now) ==>
                !limited && attempts == old(attempts) - {ip}
      ensures ip in old(attempts) && !RateLimit.Expired(old(attempts)[ip], now) ==>
                limited == (old(attempts)[ip].count >= RateLimit.MaxAttempts)
                && attempts == old(attempts)
      ensures (limited, attempts) == RateLimit.Check(old(attempts), ip, now)
    {
      if ip !in attempts {
        return false;
      }
      var record := attempts[ip];
      if now - record.firstAttempt > RateLimit.WindowMs {
        attempts := attempts - {ip};
        return false;
      }
      return record.count >= RateLimit.MaxAttempts;
    }

    /** `recordLoginAttempt(ip)`. */
    method RecordLoginAttempt(ip: string, now: int)
      modifies this`attempts
      ensures attempts == RateLimit.Record(old(attempts), ip, now)
      ensures forall k :: k != ip ==> (k in attempts <==> k in old(attempts))
      ensures forall k :: k != ip && k in attempts ==> attempts[k] == old(attempts)[k]
    {
      if ip !in attempts || now - attempts[ip].firstAttempt > RateLimit.WindowMs {
        attempts := attempts[ip := RateLimit.Attempt(1, now)];
      } else {
        var record := attempts[ip];
        attempts := attempts[ip := record.(count := record.count + 1)];
      }
    }

    /** `clearLoginAttempts(ip)`. */
    method ClearLoginAttempts(ip: string)
      modifies this`attempts
      ensures attempts == RateLimit.Clear(old(attempts), ip)
    {
      attempts := attempts - {ip};
    }

    /** `isAuthenticated(req)`, given the request's Cookie header. */
    method IsAuthenticated(cookie: Option<string>, now: int) returns (ok: bool)
      modifies this`sessions
      ensures password == "" ==> ok && sessions == old(sessions)
      ensures (ok, sessions) == Authenticate(password, old(sessions), cookie, now)
    {
      if password == "" {
        return true;
      }
      var cookies := Cookies.ParseCookies(cookie);
      if "session" in cookies && cookies["session"] != "" {
        var sessionId := cookies["session"];
        if sessionId in sessions {
          if sessions[sessionId] > now {
            return true;
          }
          sessions := sessions - {sessionId};
        }
      }
      return false;
    }

    /** The HTTP request handler of `http.createServer`. */
    method HandleRequest(req: Request, now: int, freshId: string) returns (o: Outcome)
      modifies this
      ensures (Store(sessions, attempts), o)
                == Handle(password, Store(old(sessions), old(attempts)), req, now, freshId)
    {
      if req.path == "/login" && req.verb == "GET" {
        return ServeLoginPage;
      }
      if req.path == "/auth" && req.verb == "POST" {
        var limited := IsRateLimited(req.clientIp, now);
        if limited {
          return TooManyAttempts;
        }
        if req.password == Some(password) {
          ClearLoginAttempts(req.clientIp);
          sessions := sessions[freshId := now + Sessions.SessionTtlMs];
          return LoginSucceeded(freshId);
        }
        RecordLoginAttempt(req.clientIp, now);
        return LoginFailed;
      }
      if req.path == "/logout" {
        var cookies := Cookies.ParseCookies(req.cookie);
        if "session" in cookies && cookies["session"] != "" {
          sessions := sessions - {cookies["session"]};
        }
        return LoggedOut;
      }
      var ok := IsAuthenticated(req.cookie, now);
      if !ok {
        return RedirectToLogin;
      }
      return ProxyHttp;
    }

    /** The `upgrade` handler. */
    method HandleUpgrade(cookie: Option<string>, now: int) returns (o: Outcome)
      modifies this`sessions
      ensures o == ProxyUpgrade || o == DestroySocket
      ensures (Store(sessions, attempts), o)
                == Upgrade(password, Store(old(sessions), attempts), cookie, now)
    {
      var ok := IsAuthenticated(cookie, now);
      if !ok {
        return DestroySocket;
      }
      return ProxyUpgrade;
    }
  }
}
