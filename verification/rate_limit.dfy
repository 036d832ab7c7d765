/**
 The per-client login rate limiter of auth-proxy/server.js: a map from client
 address to `{count, firstAttempt}`, a 15-minute window and a threshold of 5
 attempts. Stale windows are evicted lazily, when the address is next seen.
 These functions give the map before and after each of `isRateLimited`,
 `recordLoginAttempt` and `clearLoginAttempts`; the class in server.dfy runs
 them in place.
 */
module RateLimit {

  /** RATE_LIMIT_WINDOW_MS: 15 minutes, in milliseconds. */
  const WindowMs: int := 15 * 60 * 1000

  /** MAX_LOGIN_ATTEMPTS. */
  const MaxAttempts: int := 5

  datatype Attempt = Attempt(count: int, firstAttempt: int)

  type Attempts = map<string, Attempt>

  /** A window has lapsed once MORE than WindowMs has passed since it opened:
      an attempt exactly WindowMs later still falls inside it. */
  predicate Expired(r: Attempt, now: int) {
    now - r.firstAttempt > WindowMs
  }

  /** The window holds through its last millisecond, lapses one millisecond
      later, and stays lapsed from then on. */
  lemma WindowBoundary(rec: Attempt, now: int, later: int)
    ensures !Expired(rec, rec.firstAttempt + WindowMs)
    ensures Expired(rec, rec.firstAttempt + WindowMs + 1)
    ensures Expired(rec, now) && now <= later ==> Expired(rec, later)
  {
  }

  /** `isRateLimited(ip)`: the verdict and the map afterwards. */
  function Check(a: Attempts, ip: string, now: int): (r: (bool, Attempts))
    ensures r.0 <==> ip in a && !Expired(a[ip], now) && a[ip].count >= MaxAttempts
    ensures ip !in a ==> r.1 == a
    ensures ip in a && Expired(a[ip], now) ==> r.1 == a - {ip}
    ensures ip in a && !Expired(a[ip], now) ==> r.1 == a
    ensures ip in r.1 ==> !Expired(r.1[ip], now)
  {
    if ip !in a then (false, a)
    else if Expired(a[ip], now) then (false, a - {ip})
    else (a[ip].count >= MaxAttempts, a)
  }

  /** `recordLoginAttempt(ip)`: a fresh window of one attempt when there is no
      live record, otherwise one more attempt in the same window. */
  function Record(a: Attempts, ip: string, now: int): (r: Attempts)
    ensures r.Keys == a.Keys + {ip}
    ensures forall k :: k in a && k != ip ==> r[k] == a[k]
    ensures ip !in a || Expired(a[ip], now) ==> r[ip] == Attempt(1, now)
    ensures ip in a && !Expired(a[ip], now) ==>
              r[ip] == Attempt(a[ip].count + 1, a[ip].firstAttempt)
    ensures !Expired(r[ip], now)
  {
    if ip !in a || Expired(a[ip], now) then a[ip := Attempt(1, now)]
    else a[ip := a[ip].(count := a[ip].count + 1)]
  }

  /** `clearLoginAttempts(ip)`: the address's record, and only it, is gone. */
  function Clear(a: Attempts, ip: string): (r: Attempts)
    ensures ip !in r
    ensures forall k :: k != ip ==> (k in r <==> k in a)
    ensures forall k :: k in r ==> r[k] == a[k]
  {
    a - {ip}
  }

  /** Clearing twice is clearing once. */
  lemma ClearIdempotent(a: Attempts, ip: string)
    ensures Clear(Clear(a, ip), ip) == Clear(a, ip)
  {
  }

  /** The map after `recordLoginAttempt(ip)` has run at each of `times`, in order. */
  function RecordAll(a: Attempts, ip: string, times: seq<int>): Attempts {
    if times == [] then a
    else Record(RecordAll(a, ip, times[..|times| - 1]), ip, times[|times| - 1])
  }

  /** All of `times` fall inside the window opened at the first of them. */
  predicate WithinFirstWindow(times: seq<int>) {
    forall k :: 0 <= k < |times| ==> times[k] - times[0] <= WindowMs
  }

  /** Starting from no record, attempts inside one window accumulate: after
      n of them the address holds `{count: n, firstAttempt: <first time>}` and
      no other address's record has changed. */
  lemma {:induction false} RecordAllCounts(a: Attempts, ip: string, times: seq<int>)
    requires ip !in a
    requires times != [] && WithinFirstWindow(times)
    ensures RecordAll(a, ip, times) == a[ip := Attempt(|times|, times[0])]
  {
    var n := |times|;
    if n > 1 {
      var init := times[..n - 1];
      assert init[0] == times[0];
      assert WithinFirstWindow(init) by {
        forall k | 0 <= k < |init| ensures init[k] - init[0] <= WindowMs {
          assert init[k] == times[k];
        }
      }
      RecordAllCounts(a, ip, init);
      assert !Expired(Attempt(n - 1, times[0]), times[n - 1]);
    }
  }

  /** From no record, `isRateLimited` turns true exactly when five attempts
      have been recorded inside the window and the check itself still falls
      inside it; four are not enough. */
  lemma LimitedAfterFiveAttempts(a: Attempts, ip: string, times: seq<int>, now: int)
    requires ip !in a
    requires times != [] && WithinFirstWindow(times)
    requires now - times[0] <= WindowMs
    ensures Check(RecordAll(a, ip, times), ip, now).0 <==> |times| >= MaxAttempts
    ensures Check(RecordAll(a, ip, times), ip, now).1 == RecordAll(a, ip, times)
  {
    RecordAllCounts(a, ip, times);
  }

  /** Once the window has lapsed the record no longer limits, however many
      attempts it counted, and the check evicts it. */
  lemma LapsedWindowForgets(a: Attempts, ip: string, now: int)
    requires ip in a && Expired(a[ip], now)
    ensures !Check(a, ip, now).0
    ensures ip !in Check(a, ip, now).1
    ensures Record(a, ip, now)[ip] == Attempt(1, now)
  {
  }
}
