/**
 * JavaScript's `String.prototype.trim`, on strings as sequences of Unicode
 * scalar values.
 */
module Strings {

  /**
   * The ECMAScript WhiteSpace and LineTerminator code points: tab, line feed,
   * vertical tab, form feed, carriage return, the space separators of Unicode
   * category Zs, the byte order mark, and the line and paragraph separators.
   */
  predicate IsWhiteSpace(c: char) {
    || c == '\t' || c == '\n' || c == '\U{000B}' || c == '\U{000C}' || c == '\r'
    || c == ' ' || c == '\U{00A0}' || c == '\U{1680}'
    || ('\U{2000}' <= c <= '\U{200A}')
    || c == '\U{2028}' || c == '\U{2029}' || c == '\U{202F}' || c == '\U{205F}'
    || c == '\U{3000}' || c == '\U{FEFF}'
  }

  predicate AllWhiteSpace(s: string) {
    forall i :: 0 <= i < |s| ==> IsWhiteSpace(s[i])
  }

  /** `s` with its leading white space removed. */
  function TrimStart(s: string): (r: string)
    ensures |r| <= |s|
    ensures r == [] || !IsWhiteSpace(r[0])
  {
    if s != [] && IsWhiteSpace(s[0]) then TrimStart(s[1..]) else s
  }

  /** `s` with its trailing white space removed. */
  function TrimEnd(s: string): (r: string)
    ensures |r| <= |s|
    ensures r == [] || !IsWhiteSpace(r[|r| - 1])
  {
    if s != [] && IsWhiteSpace(s[|s| - 1]) then TrimEnd(s[..|s| - 1]) else s
  }

  /** TrimStart drops a prefix of white space and keeps the rest. */
  lemma {:induction false} TrimStartDropsPrefix(s: string)
    ensures var r := TrimStart(s);
            r == s[|s| - |r|..] && AllWhiteSpace(s[..|s| - |r|])
  {
    if s != [] && IsWhiteSpace(s[0]) {
      TrimStartDropsPrefix(s[1..]);
      var r := TrimStart(s[1..]);
      assert s[..|s| - |r|] == [s[0]] + s[1..][..|s| - 1 - |r|];
    }
  }

  /** TrimEnd drops a suffix of white space and keeps the rest. */
  lemma {:induction false} TrimEndDropsSuffix(s: string)
    ensures var r := TrimEnd(s);
            r == s[..|r|] && AllWhiteSpace(s[|r|..])
  {
    if s != [] && IsWhiteSpace(s[|s| - 1]) {
      TrimEndDropsSuffix(s[..|s| - 1]);
      var r := TrimEnd(s[..|s| - 1]);
      assert s[|r|..] == s[..|s| - 1][|r|..] + [s[|s| - 1]];
    }
  }

  /** `r` is `s[a..a + |r|]` and everything of `s` around it is white space. */
  predicate Surrounds(s: string, a: nat, r: string) {
    && a + |r| <= |s|
    && r == s[a..a + |r|]
    && AllWhiteSpace(s[..a])
    && AllWhiteSpace(s[a + |r|..])
  }

  /**
   * `s.trim()`: `s` without its leading and trailing white space; the result
   * neither starts nor ends with white space (TrimSurrounds says what of `s`
   * it keeps).
   */
  function Trim(s: string): (r: string)
    ensures |r| <= |s|
    ensures r == [] || (!IsWhiteSpace(r[0]) && !IsWhiteSpace(r[|r| - 1]))
  {
    var u := TrimStart(s);
    TrimEndDropsSuffix(u);
    var r := TrimEnd(u);
    assert r != [] ==> r[0] == u[0];
    r
  }

  /** `s.trim()` is a slice of `s` with only white space around it. */
  lemma TrimSurrounds(s: string)
    ensures exists a :: Surrounds(s, a, Trim(s))
  {
    var u := TrimStart(s);
    var r := TrimEnd(u);
    var a := |s| - |u|;
    TrimStartDropsPrefix(s);
    TrimEndDropsSuffix(u);
    assert r == Trim(s);
    assert s[a + |r|..] == u[|r|..];
    assert Surrounds(s, a, r);
  }

  /** The title check of the add form and of the card editor: `!s.trim()`. */
  lemma TrimBlank(s: string)
    ensures Trim(s) == [] <==> AllWhiteSpace(s)
  {
    var u := TrimStart(s);
    var a := |s| - |u|;
    TrimStartDropsPrefix(s);
    TrimEndDropsSuffix(u);
    if AllWhiteSpace(s) {
      AllWhiteSpaceSuffix(s, a);
    }
    if Trim(s) == [] {
      assert u[0..] == u;
      assert s[..a] == s;
    }
  }

  lemma AllWhiteSpaceSuffix(s: string, a: nat)
    requires AllWhiteSpace(s) && a <= |s|
    ensures AllWhiteSpace(s[a..])
  {
  }

  /** Trimming an already trimmed string changes nothing. */
  lemma TrimIdempotent(s: string)
    ensures Trim(Trim(s)) == Trim(s)
  {
    var r := Trim(s);
    if r != [] {
      assert TrimStart(r) == r;
      assert TrimEnd(r) == r;
    }
  }
}
