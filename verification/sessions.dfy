/**
 The in-memory session table of auth-proxy/server.js: session id to absolute
 expiry time in milliseconds. Sessions are issued on a successful login,
 checked (and lazily evicted once expired) on every gated request, and revoked
 on logout. Nothing sweeps the table in the background.
 */
module Sessions {

  /** A session lives 24 hours from its issue. */
  const SessionTtlMs: int := 24 * 60 * 60 * 1000

  type Table = map<string, int>

  /** A session is valid while its expiry is strictly in the future: at the
      expiry instant itself it is already invalid. */
  predicate Live(t: Table, id: string, now: int) {
    id in t && t[id] > now
  }

  /** An unknown id is never live; a known one is live up to the millisecond
      before its expiry, not at it, and a session live now was live before. */
  lemma LiveBoundary(t: Table, id: string, now: int, earlier: int)
    ensures id !in t ==> !Live(t, id, now)
    ensures id in t ==> Live(t, id, t[id] - 1) && !Live(t, id, t[id])
    ensures Live(t, id, now) && earlier <= now ==> Live(t, id, earlier)
  {
  }

  /** `sessions.set(id, {expires: now + 24h})`. */
  function Issue(t: Table, id: string, now: int): (r: Table)
    ensures r.Keys == t.Keys + {id}
    ensures r[id] == now + SessionTtlMs
    ensures forall k :: k in t && k != id ==> r[k] == t[k]
    ensures Live(r, id, now)
  {
    t[id := now + SessionTtlMs]
  }

  /** The session part of `isAuthenticated`: true for a live session, which is
      left alone; an expired one is deleted; an unknown id changes nothing. */
  function Validate(t: Table, id: string, now: int): (r: (bool, Table))
    ensures r.0 <==> Live(t, id, now)
    ensures r.0 ==> r.1 == t
    ensures !r.0 ==> r.1 == t - {id}
  {
    if id in t && t[id] > now then (true, t)
    else if id in t then (false, t - {id})
    else (false, t)
  }

  /** `sessions.delete(id)` on logout. It is the same deletion as
      `RateLimit.Clear`, but on the session table, which has a different value
      type; the source also has two separate `delete` calls. */
  function Revoke(t: Table, id: string): (r: Table)
    ensures id !in r
    ensures forall k :: k != id ==> (k in r <==> k in t)
    ensures forall k :: k in r ==> r[k] == t[k]
  {
    t - {id}
  }

  /** A session issued at `issuedAt` is valid strictly before
      `issuedAt + 24h` and invalid from that instant on. */
  lemma ValidUntilExpiry(t: Table, id: string, issuedAt: int, now: int)
    ensures Validate(Issue(t, id, issuedAt), id, now).0 <==> now < issuedAt + SessionTtlMs
  {
  }

  /** Asking again gives the same answer and changes nothing more. */
  lemma ValidateIdempotent(t: Table, id: string, now: int)
    ensures var (ok, t1) := Validate(t, id, now);
            Validate(t1, id, now) == (ok, t1)
  {
  }

  /** Revoking is idempotent, and a revoked session never validates. */
  lemma RevokeIdempotent(t: Table, id: string, now: int)
    ensures Revoke(Revoke(t, id), id) == Revoke(t, id)
    ensures !Validate(Revoke(t, id), id, now).0
  {
  }

  /** Issuing under an id not in use leaves every other session, and its
      verdict at any time, as it was. */
  lemma IssueKeepsOthers(t: Table, id: string, other: string, issuedAt: int, now: int)
    requires id !in t && other != id
    ensures Validate(Issue(t, id, issuedAt), other, now).0 == Validate(t, other, now).0
    ensures |Issue(t, id, issuedAt)| == |t| + 1
  {
  }
}
