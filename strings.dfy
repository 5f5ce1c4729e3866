/**
 * The JavaScript string operations the core relies on: `trim`, the `\s`
 * character class, ASCII case mapping, prefixes and `split(":")`.
 */
module Strings {

  import Wrappers

  /** The characters JavaScript's `trim` removes and `\s` matches. */
  predicate IsWhitespace(c: char) {
    c == ' ' || c == '\t' || c == '\n' || c == '\r' || c == '\U{000B}' || c == '\U{000C}'
    || c == '\U{00A0}' || c == '\U{1680}' || ('\U{2000}' <= c <= '\U{200A}')
    || c == '\U{2028}' || c == '\U{2029}' || c == '\U{202F}' || c == '\U{205F}'
    || c == '\U{3000}' || c == '\U{FEFF}'
  }

  predicate IsDigit(c: char) { '0' <= c <= '9' }

  predicate IsAsciiUpper(c: char) { 'A' <= c <= 'Z' }

  predicate IsAsciiLower(c: char) { 'a' <= c <= 'z' }

  function DigitValue(c: char): (d: nat)
    requires IsDigit(c)
    ensures d < 10
  {
    (c as int) - ('0' as int)
  }

  function UpperChar(c: char): (u: char)
    ensures IsAsciiLower(c) ==> IsAsciiUpper(u)
    ensures !IsAsciiLower(c) ==> u == c
  {
    if IsAsciiLower(c) then (c as int - 32) as char else c
  }

  function LowerChar(c: char): (l: char)
    ensures IsAsciiUpper(c) ==> IsAsciiLower(l)
    ensures !IsAsciiUpper(c) ==> l == c
  {
    if IsAsciiUpper(c) then (c as int + 32) as char else c
  }

  /** `s.toUpperCase()` on the ASCII letters. */
  function ToUpper(s: string): (r: string)
    ensures |r| == |s|
    ensures forall i :: 0 <= i < |s| ==> r[i] == UpperChar(s[i])
  {
    seq(|s|, i requires 0 <= i < |s| => UpperChar(s[i]))
  }

  /** Upper-casing twice is upper-casing once. */
  lemma ToUpperIdempotent(s: string)
    ensures ToUpper(ToUpper(s)) == ToUpper(s)
  {
    assert forall i :: 0 <= i < |s| ==> ToUpper(ToUpper(s))[i] == ToUpper(s)[i];
  }

  /** `s.toLowerCase()` on the ASCII letters. */
  function ToLower(s: string): (r: string)
    ensures |r| == |s|
    ensures forall i :: 0 <= i < |s| ==> r[i] == LowerChar(s[i])
  {
    seq(|s|, i requires 0 <= i < |s| => LowerChar(s[i]))
  }

  function TrimStart(s: string): (r: string)
    ensures |r| <= |s| && r == s[|s| - |r|..]
    ensures r == [] || !IsWhitespace(r[0])
    ensures forall i :: 0 <= i < |s| - |r| ==> IsWhitespace(s[i])
  {
    if s == [] || !IsWhitespace(s[0]) then s else TrimStart(s[1..])
  }

  function TrimEnd(s: string): (r: string)
    ensures |r| <= |s| && r == s[..|r|]
    ensures r == [] || !IsWhitespace(r[|r| - 1])
    ensures forall i :: |r| <= i < |s| ==> IsWhitespace(s[i])
  {
    if s == [] || !IsWhitespace(s[|s| - 1]) then s else TrimEnd(s[..|s| - 1])
  }

  /** `s.trim()`: leading and trailing whitespace removed (see `TrimSpan`). */
  function Trim(s: string): (r: string)
    ensures |r| <= |s|
    ensures r == [] || (!IsWhitespace(r[0]) && !IsWhitespace(r[|r| - 1]))
  {
    TrimEnd(TrimStart(s))
  }

  /** The length of the leading whitespace run of `s`. */
  function LeadLength(s: string): (k: nat)
    ensures k <= |s|
  {
    |s| - |TrimStart(s)|
  }

  /** The trimmed text is the slice of `s` between its leading and its trailing whitespace. */
  lemma TrimSpan(s: string)
    ensures LeadLength(s) + |Trim(s)| <= |s|
    ensures Trim(s) == s[LeadLength(s)..LeadLength(s) + |Trim(s)|]
    ensures forall i :: 0 <= i < LeadLength(s) ==> IsWhitespace(s[i])
    ensures forall i :: LeadLength(s) + |Trim(s)| <= i < |s| ==> IsWhitespace(s[i])
  {
    var t := TrimStart(s);
    assert Trim(s) == TrimEnd(t);
    InnerSpan(s, t, Trim(s), LeadLength(s));
  }

  /**
   * A prefix `r` of the suffix `t` of `s` that starts at `k`, with whitespace
   * before the suffix and after the prefix, is the slice of `s` at `k`.
   */
  lemma InnerSpan(s: string, t: string, r: string, k: nat)
    requires |t| <= |s| && t == s[|s| - |t|..] && k == |s| - |t|
    requires forall i :: 0 <= i < |s| - |t| ==> IsWhitespace(s[i])
    requires |r| <= |t| && r == t[..|r|]
    requires forall i :: |r| <= i < |t| ==> IsWhitespace(t[i])
    ensures k + |r| <= |s|
    ensures r == s[k..k + |r|]
    ensures forall i :: 0 <= i < k ==> IsWhitespace(s[i])
    ensures forall i :: k + |r| <= i < |s| ==> IsWhitespace(s[i])
  {
    forall i | k + |r| <= i < |s| ensures IsWhitespace(s[i]) {
      assert s[i] == t[i - k];
    }
  }

  /** `!s.trim()` holds: the string is empty or all whitespace. */
  predicate IsBlank(s: string) {
    forall i :: 0 <= i < |s| ==> IsWhitespace(s[i])
  }

  /** Blankness is exactly "trimming leaves nothing". */
  lemma BlankIffTrimEmpty(s: string)
    ensures IsBlank(s) <==> Trim(s) == ""
  {
    var t := TrimStart(s);
    if t != [] {
      assert !IsWhitespace(s[|s| - |t|]) by { assert t[0] == s[|s| - |t|]; }
      assert TrimEnd(t) != [];
    }
  }

  predicate StartsWith(s: string, prefix: string) {
    |prefix| <= |s| && s[..|prefix|] == prefix
  }

  /** Position of the first `c` in `s`, if any. */
  function IndexOf(s: string, c: char): (r: Wrappers.Option<nat>)
    ensures r.None? ==> c !in s
    ensures r.Some? ==> r.value < |s| && s[r.value] == c && c !in s[..r.value]
  {
    if s == [] then Wrappers.None
    else if s[0] == c then Wrappers.Some(0)
    else match IndexOf(s[1..], c)
      case None => Wrappers.None
      case Some(k) => Wrappers.Some(k + 1)
  }

  /**
   * `s.split(c)[0]` and `s.split(c)[1]`: the text before the first `c`, and,
   * when there is one, the text between the first and the second `c`.
   */
  function SplitFirstTwo(s: string, c: char): (r: (string, Wrappers.Option<string>))
    ensures c !in r.0 && StartsWith(s, r.0)
    ensures r.1.None? <==> c !in s
    ensures r.1.None? ==> r.0 == s
    ensures r.1.Some? ==> c !in r.1.value && |r.0| < |s| && s[|r.0|] == c
    ensures r.1.Some? ==> StartsWith(s[|r.0| + 1..], r.1.value)
    ensures r.1.Some? ==> |r.0| + 1 + |r.1.value| == |s| || s[|r.0| + 1 + |r.1.value|] == c
  {
    match IndexOf(s, c)
    case None => (s, Wrappers.None)
    case Some(k) =>
      var rest := s[k + 1..];
      match IndexOf(rest, c)
      case None => (s[..k], Wrappers.Some(rest))
      case Some(j) => (s[..k], Wrappers.Some(rest[..j]))
  }
}
