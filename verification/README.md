# Authenticating gateway: admission core in Dafny

This project models the authentication and admission logic of the gateway in
`auth-proxy/server.js`. The gateway is a reverse proxy in front of a terminal
server. It admits a request only when the request carries a valid session
cookie. Everything else goes through a password login, which is guarded by a
per-client rate limiter.

The gateway's state is two maps:

- `sessions`: session id to expiry time (ms).
- `loginAttempts`: client address to `{count, firstAttempt}`.

The model keeps both maps as fields of the class `Server.AuthProxy`. Its
methods update them in place as the source does:

- `IsRateLimited`, `RecordLoginAttempt`, `ClearLoginAttempts`: the three rate-limiter helpers.
- `IsAuthenticated`: checks the session cookie and lazily evicts an expired session.
- `HandleRequest`: the HTTP request handler.
- `HandleUpgrade`: the WebSocket upgrade handler.

Each method is proved to leave the maps exactly as a pure function describes.
The functions live in these modules:

- `RateLimit`: the 15-minute window, the threshold of 5, and lazy eviction of lapsed windows.
- `Sessions`: 24-hour sessions, valid while `expires > now`.
- `Cookies`: the Cookie-header parser `parseCookies`, proved against its looping implementation `Cookies.ParseCookies`.
- `Text`: the JavaScript `split`, `join` and `trim` that the parser relies on.
- `Admission`: the routing decision and the upgrade decision.

The lemmas state what the gateway promises about these functions:

- The exact boundaries: a window still holds exactly 15 minutes later, and a session is already invalid at its expiry instant.
- Five failed logins in one window lock a client out, whatever password the sixth attempt carries; four do not.
- A successful login resets the client's counter.
- The session cookie a login issues is parsed back to the same id, and it admits the client until the session expires.
- Logout revokes the session.
- An empty configured password admits every gated request and every upgrade without a cookie. `GET /login` still serves the page, and `POST /auth` still goes through the rate limiter and the password comparison.
- An unauthenticated upgrade is destroyed, never proxied.

Each request is handled as one atomic step at one instant `now`. The
configured password is a constant of the object. The id that
`generateSessionId` would return is a parameter `freshId`.

## Model

| member | source | states |
|---|---|---|
| Text.Split | auth-proxy/server.js:200 | `split(';')`/`split('=')` gives at least one piece and no piece contains the separator |
| Text.JoinSplit | auth-proxy/server.js:201-202 | joining the pieces of a split with the separator rebuilds the string, which is why `value.join('=')` keeps every `=` of a value |
| Text.Join | auth-proxy/server.js:202 | `value.join('=')` puts one separator between each pair of neighbouring pieces, so the result is at least that long; Text.JoinSplit and Text.SplitJoin make it the inverse of `split` |
| Text.SplitJoin | auth-proxy/server.js:200-202 | splitting a join of separator-free pieces gives back exactly those pieces (inverse of JoinSplit) |
| Text.SplitAfterFirst | auth-proxy/server.js:201 | the first piece of a split ends at the first separator: `split(p + d + q) == [p] + split(q)` for `p` without `d` |
| Text.Trim | auth-proxy/server.js:201 | `trim()` never lengthens the piece and its result neither starts nor ends with a WhiteSpace or LineTerminator code point |
| Text.TrimDropsOnlyEnds | auth-proxy/server.js:201 | `trim()` yields an infix of the piece and everything it drops is trimmable |
| Cookies.ParsePiece | auth-proxy/server.js:201-202 | the cookie name of a piece never contains `=` |
| Cookies.ParsePieceSplitsAtFirst | auth-proxy/server.js:201-202 | the trimmed piece is `name + "=" + value` when it holds an `=`, otherwise the name is the whole trimmed piece and the value is `""` |
| Cookies.Assign | auth-proxy/server.js:202 | `cookies[name] = value`: the name `__proto__` leaves the object unchanged; any other name then maps to `value`; every other name keeps its presence and value |
| Cookies.AssignUpTo | auth-proxy/server.js:200-203 | the object after the `forEach` has assigned the first n parsed pairs never holds `__proto__` |
| Cookies.CookieJar | auth-proxy/server.js:197-206 | an absent or empty Cookie header gives no cookies |
| Cookies.LastAssignmentWins | auth-proxy/server.js:200-203 | after the assignments a name is present iff some pair carries it and it is not `__proto__`, and its value is that of the last pair carrying it |
| Cookies.CookieLookup | auth-proxy/server.js:197-206 | over a whole header: a name is present iff it is not `__proto__` and some piece carries it; its value is that of the last such piece, so a later duplicate cookie name overwrites an earlier one |
| Cookies.ParseCookies | auth-proxy/server.js:197-206 | an absent or empty header gives the empty object, and otherwise the result of the `forEach` over the `;`-pieces; in all cases exactly `CookieJar(header)` |
| Cookies.AssignPieces | auth-proxy/server.js:200-203 | the `forEach` loop, which parses each piece and assigns it in order, builds exactly the fold `AssignUpTo` over all parsed pieces |
| Cookies.SessionCookie | auth-proxy/server.js:211-214 | `cookies['session']` counts only when present and non-empty (JavaScript truthiness) |
| Cookies.SessionCookieRoundTrip | auth-proxy/server.js:266 | the header `session=<id>` a client sends back after login parses to the single cookie `session` with value `<id>`, even when `<id>` contains `=` |
| RateLimit.WindowBoundary | auth-proxy/server.js:24 | `Expired`, the test `now - firstAttempt > 15 min`: a window still holds exactly 15 minutes after it opened, lapses one millisecond later, and stays lapsed from then on |
| RateLimit.Check | auth-proxy/server.js:19-29 | limited iff there is a record whose window has not lapsed (`now - firstAttempt > 15 min` is lapsed) and whose count is at least 5; no record: map unchanged; lapsed record: only that key deleted; otherwise map unchanged |
| RateLimit.Record | auth-proxy/server.js:31-39 | no record or a lapsed one: `{count: 1, firstAttempt: now}`; otherwise count + 1 with `firstAttempt` kept; no other address changes |
| RateLimit.Clear | auth-proxy/server.js:41-43 | removes exactly that address's record and keeps every other one |
| RateLimit.ClearIdempotent | auth-proxy/server.js:41-43 | clearing twice equals clearing once |
| RateLimit.RecordAllCounts | auth-proxy/server.js:31-39 | from no record, n attempts inside the first one's window leave `{count: n, firstAttempt: first}` and nothing else changed |
| RateLimit.LimitedAfterFiveAttempts | auth-proxy/server.js:16-37 | from no record, after n attempts inside one window a check inside that window is limited iff n >= 5 and evicts nothing |
| RateLimit.LapsedWindowForgets | auth-proxy/server.js:24-35 | a lapsed record never limits, is evicted by the check, and the next attempt opens a fresh window |
| Sessions.LiveBoundary | auth-proxy/server.js:214-216 | `Live`, the test `sessions.has(id)` and `expires > now`: an unknown id is never live; a known one is live one millisecond before its expiry but not at it; a session live now was live at every earlier instant |
| Sessions.Issue | auth-proxy/server.js:260-263 | the new session expires at `now + 86400000` and is valid at `now`; every other session is unchanged |
| Sessions.Validate | auth-proxy/server.js:214-221 | true iff the id is present with `expires > now`; a valid session is untouched, an expired one is deleted |
| Sessions.Revoke | auth-proxy/server.js:281-283 | deletes exactly that id |
| Sessions.ValidUntilExpiry | auth-proxy/server.js:216 | a session issued at `t` validates strictly before `t + 24h` and not at or after it |
| Sessions.ValidateIdempotent | auth-proxy/server.js:214-221 | a second check at the same instant gives the same verdict and deletes nothing more |
| Sessions.RevokeIdempotent | auth-proxy/server.js:279-283 | revoking twice equals revoking once, and a revoked id never validates |
| Sessions.IssueKeepsOthers | auth-proxy/server.js:260-263 | issuing under an unused id adds one entry and changes no other session's verdict |
| Admission.Authenticate | auth-proxy/server.js:208-222 | empty password: true and the table unchanged; otherwise true iff the `session` cookie is non-empty and names a session with `expires > now`; when not admitted, the session the cookie names is gone afterwards; the only session ever deleted is an expired one the cookie names |
| Admission.Handle | auth-proxy/server.js:236-301 | rule order `GET /login`, `POST /auth`, `/logout`, gate: 429 iff rate-limited and then nothing changes; login succeeds iff not limited and the password matches, and then the session table is `Issue(freshId)` and the attempt map is `Clear(clientIp)`; a failure leaves the sessions alone and makes the attempt map `Record(clientIp)`; `/logout` revokes exactly the session its cookie names; the gate proxies iff authenticated, redirects otherwise, and leaves the session table exactly as `Authenticate` does; attempts change only on `POST /auth`; sessions are created only by a successful login |
| Admission.Upgrade | auth-proxy/server.js:304-310 | an upgrade is proxied iff authenticated and otherwise the socket is destroyed; the session table afterwards is exactly `Authenticate`'s; attempts never change |
| Admission.LogoutRevokes | auth-proxy/server.js:279-290 | `/logout` with any method redirects to the login page, revokes the session named by the cookie if there is one, and changes nothing else |
| Admission.AuthDisabledAdmitsAll | auth-proxy/server.js:209 | with an empty password every gated request and every upgrade is admitted without a cookie and nothing changes |
| Admission.LoginThenAdmitted | auth-proxy/server.js:258-300 | after a successful login, a request carrying the issued cookie is proxied, and so is an upgrade, until 24 hours after the login |
| Admission.LogoutThenRefused | auth-proxy/server.js:279-297 | after logout the same cookie is redirected to the login page and its upgrade is destroyed |
| Admission.FailuresAccumulate | auth-proxy/server.js:247-274 | up to five wrong-password POSTs inside one window from a client without a record each get the error redirect and leave `{count: n, firstAttempt: first}` |
| Admission.LockedOutAfterFiveFailures | auth-proxy/server.js:250-254 | after five failures in a window, a sixth POST inside it gets 429 even with the right password, and changes nothing |
| Admission.FewerFailuresStillAdmitted | auth-proxy/server.js:250-263 | after fewer than five failures in a window, the right password still logs in |
| Admission.SuccessResetsCount | auth-proxy/server.js:258-259 | after a successful login the client's next failure opens a fresh window with count 1 |
| Server.AuthProxy.constructor | auth-proxy/server.js:9-15 | the object starts with the configured password and two empty maps |
| Server.AuthProxy.IsRateLimited | auth-proxy/server.js:19-29 | the three cases of `isRateLimited` on the attempt map: no record, lapsed record deleted, otherwise `count >= 5` with the map unchanged |
| Server.AuthProxy.RecordLoginAttempt | auth-proxy/server.js:31-39 | the attempt map becomes `Record(old map)`, so no other address's record changes |
| Server.AuthProxy.ClearLoginAttempts | auth-proxy/server.js:41-43 | the attempt map becomes `Clear(old map)` |
| Server.AuthProxy.IsAuthenticated | auth-proxy/server.js:208-222 | verdict and session table as `Authenticate`; with no password, true and the table unchanged |
| Server.AuthProxy.HandleRequest | auth-proxy/server.js:236-301 | both maps and the outcome are exactly as `Handle` gives them |
| Server.AuthProxy.HandleUpgrade | auth-proxy/server.js:304-310 | the outcome is a proxied upgrade or a destroyed socket, and the session table is as `Upgrade` gives it |

## Left out

- HTTP transport is not modelled: `http.createServer`, `server.listen`, `proxy.web`/`proxy.ws` and the proxy's 502 error handler (lines 46-57, 300, 309, 312-316). Forwarding appears only as the outcomes `ProxyHttp` and `ProxyUpgrade`, and a refused upgrade as `DestroySocket`.
- `parseBody` (lines 224-234) is stream plumbing plus form decoding. The decoded `password` field is an input. `None` stands for a body without that field; it never equals the configured password, as `undefined !== AUTH_PASSWORD`. A body stream error rejects the handler's promise, and no reply is sent; that path is not modelled.
- `generateSessionId` (lines 193-195) draws random bytes. The id is a parameter. The model keeps the source's `sessions.set`, so an id already in use would be overwritten. Properties that need a new id require it not to be in the table. Collision resistance cannot be stated here.
- `Date.now()` becomes the parameter `now`. The source reads the clock several times per request, once on each side of `await parseBody`. The model uses one instant per request.
- Concurrent requests are not modelled. The source can interleave two logins from one client across the `await`, between the rate-limit check and the recording. The model treats each request as one atomic step.
- `new URL(...)` (line 237) is not modelled; the pathname and method are inputs. The environment settings (lines 7-9) are not modelled; the password is a constructor argument.
- The login page's HTML (lines 60-191), the response bodies, the response headers other than the session id, and the console logging are not modelled.
- Numbers are unbounded integers. JavaScript numbers are doubles, but millisecond timestamps and attempt counts stay far below 2^53, where doubles are exact.
- `Cookies.CookieSafe`: the round-trip lemmas assume the id is non-empty, has no `;`, and does not end in whitespace. The hexadecimal ids `generateSessionId` produces meet this.
- The cookie object is modelled as a map. The one JavaScript object quirk that matters is kept: assigning the name `__proto__` adds no entry. Inherited properties are not modelled; only the lookup of `session` is used, and `session` is not inherited.
- A malformed login body is not uniformly a failed login. Only a body without a matching `password` field takes the failure path and is counted as an attempt. A body stream error leaves the request unanswered, and that path is not modelled.
- Upgrades on every path are gated only by authentication, `/login`, `/auth` and `/logout` included, as the `upgrade` handler does not look at the path.
