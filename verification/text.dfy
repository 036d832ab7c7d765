/**
 The string operations of the JavaScript runtime that the cookie parser of
 auth-proxy/server.js relies on: `String.prototype.split` with a one-character
 separator, `Array.prototype.join`, and `String.prototype.trim`.
 */
module Text {

  /** The code points `trim` strips: ECMAScript WhiteSpace (TAB, VT, FF, ZWNBSP
      and every space separator) and LineTerminator (LF, CR, LS, PS). */
  predicate IsTrimmable(c: char) {
    || c == '\t' || c == '\n' || c == '\U{000B}' || c == '\U{000C}' || c == '\r'
    || c == ' ' || c == '\U{00A0}' || c == '\U{1680}'
    || ('\U{2000}' <= c <= '\U{200A}')
    || c == '\U{2028}' || c == '\U{2029}' || c == '\U{202F}' || c == '\U{205F}'
    || c == '\U{3000}' || c == '\U{FEFF}'
  }

  /** `s.split(d)`: the maximal pieces between occurrences of `d`; an empty
      string gives one empty piece, and adjacent separators give empty pieces. */
  function Split(s: string, d: char): (r: seq<string>)
    ensures |r| >= 1
    ensures forall k :: 0 <= k < |r| ==> d !in r[k]
  {
    if s == [] then [""]
    else
      var rest := Split(s[1..], d);
      if s[0] == d then [""] + rest
      else [[s[0]] + rest[0]] + rest[1..]
  }

  /** `ps.join(d)`: the pieces with one `d` between neighbours; `[]` joins to "".
      Each pair of neighbours adds one separator. */
  function Join(ps: seq<string>, d: char): (r: string)
    ensures |r| >= |ps| - 1
  {
    if |ps| == 0 then ""
    else if |ps| == 1 then ps[0]
    else ps[0] + [d] + Join(ps[1..], d)
  }

  /** Joining the pieces of a split gives back the string. */
  lemma {:induction false} JoinSplit(s: string, d: char)
    ensures Join(Split(s, d), d) == s
  {
    if s != [] {
      var rest := Split(s[1..], d);
      JoinSplit(s[1..], d);
      if s[0] == d {
        assert Split(s, d) == [""] + rest;
        assert Join([""] + rest, d) == "" + [d] + Join(rest, d);
        assert [s[0]] + s[1..] == s;
      } else if |rest| == 1 {
        assert Split(s, d) == [[s[0]] + rest[0]];
        assert [s[0]] + s[1..] == s;
      } else {
        var ps := [[s[0]] + rest[0]] + rest[1..];
        assert Split(s, d) == ps;
        assert ps[1..] == rest[1..];
        assert Join(ps, d) == [s[0]] + rest[0] + [d] + Join(rest[1..], d);
        assert Join(rest, d) == rest[0] + [d] + Join(rest[1..], d);
        assert [s[0]] + s[1..] == s;
      }
    }
  }

  /** Splitting a join of separator-free pieces gives back the pieces. */
  lemma {:induction false} SplitJoin(ps: seq<string>, d: char)
    requires |ps| >= 1
    requires forall k :: 0 <= k < |ps| ==> d !in ps[k]
    ensures Split(Join(ps, d), d) == ps
  {
    if |ps| == 1 {
      SplitWithout(ps[0], d);
    } else {
      SplitJoin(ps[1..], d);
      SplitAfterFirst(ps[0], Join(ps[1..], d), d);
      assert [ps[0]] + ps[1..] == ps;
    }
  }

  /** A string without the separator is a single piece. */
  lemma {:induction false} SplitWithout(s: string, d: char)
    requires d !in s
    ensures Split(s, d) == [s]
  {
    if s != [] {
      SplitWithout(s[1..], d);
      assert [s[0]] + s[1..] == s;
    }
  }

  /** The first piece of a split ends at the first separator. */
  lemma {:induction false} SplitAfterFirst(p: string, q: string, d: char)
    requires d !in p
    ensures Split(p + [d] + q, d) == [p] + Split(q, d)
  {
    if p == [] {
      assert p + [d] + q == [d] + q;
      assert ([d] + q)[1..] == q;
    } else {
      var s := p + [d] + q;
      assert s[0] == p[0] && s[1..] == p[1..] + [d] + q;
      SplitAfterFirst(p[1..], q, d);
      assert [p[0]] + p[1..] == p;
    }
  }

  /** The first index at or after `i` that holds no trimmable code point. */
  function TrimFrom(s: string, i: nat): (k: nat)
    requires i <= |s|
    ensures i <= k <= |s|
    ensures forall m :: i <= m < k ==> IsTrimmable(s[m])
    ensures k == |s| || !IsTrimmable(s[k])
    decreases |s| - i
  {
    if i < |s| && IsTrimmable(s[i]) then TrimFrom(s, i + 1) else i
  }

  /** The end of `s[lo..j]` once its trailing trimmable code points are dropped. */
  function TrimTo(s: string, lo: nat, j: nat): (k: nat)
    requires lo <= j <= |s|
    ensures lo <= k <= j
    ensures forall m :: k <= m < j ==> IsTrimmable(s[m])
    ensures k == lo || !IsTrimmable(s[k - 1])
  {
    if lo < j && IsTrimmable(s[j - 1]) then TrimTo(s, lo, j - 1) else j
  }

  /** `s.trim()`: `s` without its leading and trailing trimmable code points. */
  function Trim(s: string): (r: string)
    ensures |r| <= |s|
    ensures r == [] || (!IsTrimmable(r[0]) && !IsTrimmable(r[|r| - 1]))
  {
    var i := TrimFrom(s, 0);
    s[i..TrimTo(s, i, |s|)]
  }

  /** What `trim` removes is trimmable code points only, and only at the ends:
      the result is an infix of `s` and everything outside it is trimmable. */
  lemma TrimDropsOnlyEnds(s: string)
    ensures exists i, j ::
              && 0 <= i <= j <= |s| && Trim(s) == s[i..j]
              && (forall k :: 0 <= k < i ==> IsTrimmable(s[k]))
              && (forall k :: j <= k < |s| ==> IsTrimmable(s[k]))
  {
    var i := TrimFrom(s, 0);
    var j := TrimTo(s, i, |s|);
    assert Trim(s) == s[i..j];
  }

  /** A string that starts and ends with a non-trimmable code point is left as it is. */
  lemma {:induction false} TrimKeeps(s: string)
    requires s == [] || (!IsTrimmable(s[0]) && !IsTrimmable(s[|s| - 1]))
    ensures Trim(s) == s
  {
  }
}
