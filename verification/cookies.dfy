/**
 The Cookie request-header parser of the gateway (`parseCookies` in
 auth-proxy/server.js) and the lookup of the `session` cookie that both the
 authentication check and the logout route perform.
 */
module Cookies {
  import opened Wrappers
  import opened Text

  type Jar = map<string, string>

  /** Assigning this property name on a plain JavaScript object invokes the
      inherited `__proto__` setter, which ignores a string value: the object
      gains no entry. */
  const ProtoKey: string := "__proto__"

  /** One `;`-separated piece: trimmed, then `[name, ...value] = t.split('=')`
      and `value.join('=')`. */
  function ParsePiece(piece: string): (r: (string, string))
    ensures '=' !in r.0
  {
    var parts := Split(Trim(piece), '=');
    (parts[0], Join(parts[1..], '='))
  }

  /** The name is the trimmed piece up to its FIRST `=` and the value is all
      that follows it, `=` included; a piece without `=` has value "". */
  lemma ParsePieceSplitsAtFirst(piece: string)
    ensures var (name, value) := ParsePiece(piece);
            && ('=' in Trim(piece) ==> Trim(piece) == name + "=" + value)
            && ('=' !in Trim(piece) ==> name == Trim(piece) && value == "")
  {
    var t := Trim(piece);
    var parts := Split(t, '=');
    JoinSplit(t, '=');
    if |parts| > 1 {
      assert Join(parts, '=') == parts[0] + "=" + Join(parts[1..], '=');
    }
  }

  /** Every piece of `pieces`, parsed. */
  function ParseAll(pieces: seq<string>): (r: seq<(string, string)>)
    ensures |r| == |pieces|
    ensures forall k :: 0 <= k < |r| ==> r[k] == ParsePiece(pieces[k])
  {
    if pieces == [] then [] else [ParsePiece(pieces[0])] + ParseAll(pieces[1..])
  }

  /** `cookies[name] = value` on the plain object the parser builds. */
  function Assign(jar: Jar, name: string, value: string): (r: Jar)
    ensures name == ProtoKey ==> r == jar
    ensures name != ProtoKey ==> name in r && r[name] == value
    ensures forall k :: k != name ==> (k in r <==> k in jar)
    ensures forall k :: k != name && k in r ==> r[k] == jar[k]
  {
    if name == ProtoKey then jar else jar[name := value]
  }

  /** The object after the `forEach` has assigned the first `n` parsed pairs. */
  function AssignUpTo(pairs: seq<(string, string)>, n: nat): (r: Jar)
    requires n <= |pairs|
    ensures ProtoKey !in r
  {
    if n == 0 then map[]
    else Assign(AssignUpTo(pairs, n - 1), pairs[n - 1].0, pairs[n - 1].1)
  }

  /** `parseCookies(cookieHeader)`: an absent or empty header gives no cookies;
      otherwise every `;`-separated piece is parsed and assigned in order. */
  function CookieJar(header: Option<string>): (jar: Jar)
    ensures header == None || header == Some("") ==> jar == map[]
  {
    if header.None? || header.value == "" then map[]
    else
      var pairs := ParseAll(Split(header.value, ';'));
      AssignUpTo(pairs, |pairs|)
  }

  /** A name is present iff some pair carries it (and it is not the ignored
      `__proto__`), and its value is that of the LAST pair carrying it. */
  lemma {:induction false} LastAssignmentWins(pairs: seq<(string, string)>, n: nat, name: string)
    requires n <= |pairs|
    ensures name in AssignUpTo(pairs, n) <==>
              name != ProtoKey && exists k :: 0 <= k < n && pairs[k].0 == name
    ensures name in AssignUpTo(pairs, n) ==>
              exists k :: && 0 <= k < n && pairs[k] == (name, AssignUpTo(pairs, n)[name])
                          && forall j :: k < j < n ==> pairs[j].0 != name
  {
    if n > 0 {
      LastAssignmentWins(pairs, n - 1, name);
      if pairs[n - 1].0 == name && name != ProtoKey {
        assert pairs[n - 1] == (name, AssignUpTo(pairs, n)[name]);
      }
    }
  }

  /** The cookie header as a whole: a name is present iff some piece carries
      it (other than `__proto__`), and its value is the one in the LAST piece
      that carries it, so a later duplicate overwrites an earlier one. */
  lemma {:induction false} CookieLookup(h: string, name: string)
    requires h != ""
    ensures var pieces := Split(h, ';');
            name in CookieJar(Some(h)) <==>
              name != ProtoKey && exists k :: 0 <= k < |pieces| && ParsePiece(pieces[k]).0 == name
    ensures var pieces := Split(h, ';');
            name in CookieJar(Some(h)) ==>
              exists k :: && 0 <= k < |pieces|
                          && ParsePiece(pieces[k]) == (name, CookieJar(Some(h))[name])
                          && forall j :: k < j < |pieces| ==> ParsePiece(pieces[j]).0 != name
  {
    var pairs := ParseAll(Split(h, ';'));
    LastAssignmentWins(pairs, |pairs|, name);
  }

  /** `parseCookies` as the source writes it: an absent or empty header gives
      the empty object, otherwise the `forEach` below runs over the
      `;`-separated pieces. */
  method ParseCookies(header: Option<string>) returns (jar: Jar)
    ensures jar == CookieJar(header)
  {
    if header.None? || header.value == "" {
      return map[];
    }
    var pieces := Split(header.value, ';');
    jar := AssignPieces(pieces);
  }

  /** The `forEach` of `parseCookies`: each piece is parsed and assigned, in
      order, into the object being built. */
  method AssignPieces(pieces: seq<string>) returns (jar: Jar)
    ensures jar == AssignUpTo(ParseAll(pieces), |pieces|)
  {
    ghost var pairs := ParseAll(pieces);
    jar := map[];
    var i := 0;
    while i < |pieces|
      invariant 0 <= i <= |pieces|
      invariant jar == AssignUpTo(pairs, i)
    {
      var pair := ParsePiece(pieces[i]);
      jar := Assign(jar, pair.0, pair.1);
      i := i + 1;
    }
  }

  /** `cookies['session']` when it is truthy, i.e. present and non-empty. */
  function SessionCookie(header: Option<string>): (r: Option<string>)
    ensures r.Some? <==> "session" in CookieJar(header) && CookieJar(header)["session"] != ""
    ensures r.Some? ==> r.value != "" && r.value == CookieJar(header)["session"]
  {
    var jar := CookieJar(header);
    if "session" in jar && jar["session"] != "" then Some(jar["session"]) else None
  }

  /** A token a client may carry back in its Cookie header: non-empty, no `;`,
      and no trimmable code point at its end. Hexadecimal tokens qualify. */
  predicate CookieSafe(id: string) {
    id != [] && ';' !in id && !IsTrimmable(id[|id| - 1])
  }

  /** Two splits at a first `=` that give the same string agree. */
  lemma {:induction false} FirstEqualsUnique(p: string, q: string, p': string, q': string)
    requires '=' !in p && '=' !in p'
    requires p + "=" + q == p' + "=" + q'
    ensures p == p' && q == q'
  {
    SplitAfterFirst(p, q, '=');
    SplitAfterFirst(p', q', '=');
    assert ([p] + Split(q, '='))[0] == p;
    assert ([p'] + Split(q', '='))[0] == p';
    assert (p + "=" + q)[|p| + 1..] == q;
    assert (p' + "=" + q')[|p'| + 1..] == q';
  }

  /** The header `session=<id>` that a client sends back after login yields
      exactly `<id>` as the session cookie, even when `<id>` contains `=`. */
  lemma {:induction false} SessionCookieRoundTrip(id: string)
    requires CookieSafe(id)
    ensures CookieJar(Some("session=" + id)) == map["session" := id]
    ensures SessionCookie(Some("session=" + id)) == Some(id)
  {
    var h := "session=" + id;
    assert ';' !in h by {
      assert forall k :: 0 <= k < |h| ==> h[k] == (if k < 8 then "session="[k] else id[k - 8]);
    }
    SplitWithout(h, ';');
    assert h[|h| - 1] == id[|id| - 1];
    TrimKeeps(h);
    assert h[7] == '=';
    ParsePieceSplitsAtFirst(h);
    var (n, v) := ParsePiece(h);
    assert h == "session" + "=" + id;
    FirstEqualsUnique(n, v, "session", id);
    assert ParseAll([h]) == [("session", id)];
    assert "session" != ProtoKey by { assert |"session"| != |ProtoKey|; }
    assert h != "";
    assert Split(h, ';') == [h];
    assert AssignUpTo([("session", id)], 1) == Assign(map[], "session", id);
  }
}
