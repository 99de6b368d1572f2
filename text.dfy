/**
 * The few Python `str` built-ins the dialogue logic relies on: whitespace
 * classification, `strip`, `upper`, `replace` and `join`.
 */
module Text {

  /** Python's `str.isspace()` on one character, which is also what `\s`
      matches in a `str` regular expression. */
  predicate IsSpace(c: char) {
    || c == ' '
    || '\t' <= c <= '\r'
    || '\U{1C}' <= c <= '\U{1F}'
    || c == '\U{85}' || c == '\U{A0}' || c == '\U{1680}'
    || '\U{2000}' <= c <= '\U{200A}'
    || c == '\U{2028}' || c == '\U{2029}' || c == '\U{202F}' || c == '\U{205F}'
    || c == '\U{3000}'
  }

  /** `\d`, restricted to ASCII digits. */
  predicate IsDigit(c: char) {
    '0' <= c <= '9'
  }

  /** `\w` (the word characters that `\b` separates), restricted to ASCII. */
  predicate IsWordChar(c: char) {
    'a' <= c <= 'z' || 'A' <= c <= 'Z' || IsDigit(c) || c == '_'
  }

  predicate AllSpace(s: string) {
    forall k :: 0 <= k < |s| ==> IsSpace(s[k])
  }

  predicate AllDigits(s: string) {
    forall k :: 0 <= k < |s| ==> IsDigit(s[k])
  }

  /** The number of whitespace characters `lstrip` removes. */
  function LeadingSpaces(s: string): (n: nat)
    ensures n <= |s|
    ensures AllSpace(s[..n])
    ensures n == |s| || !IsSpace(s[n])
  {
    if s != [] && IsSpace(s[0]) then 1 + LeadingSpaces(s[1..]) else 0
  }

  /** The number of whitespace characters `rstrip` removes. */
  function TrailingSpaces(s: string): (n: nat)
    ensures n <= |s|
    ensures AllSpace(s[|s| - n..])
    ensures n == |s| || !IsSpace(s[|s| - 1 - n])
  {
    if s != [] && IsSpace(s[|s| - 1]) then 1 + TrailingSpaces(s[..|s| - 1]) else 0
  }

  /** Python's `s.strip()`: the middle of `s` between a whitespace prefix
      and a whitespace suffix, with no whitespace left at either end. */
  function Strip(s: string): (r: string)
    ensures r == [] || (!IsSpace(r[0]) && !IsSpace(r[|r| - 1]))
    ensures r == [] <==> AllSpace(s)
    ensures LeadingSpaces(s) + |r| <= |s|
    ensures r == s[LeadingSpaces(s)..LeadingSpaces(s) + |r|]
    ensures AllSpace(s[..LeadingSpaces(s)]) && AllSpace(s[LeadingSpaces(s) + |r|..])
  {
    var t := s[LeadingSpaces(s)..];
    assert AllSpace(s) ==> t == [];
    TrimTail(s, LeadingSpaces(s), t, TrailingSpaces(t));
    t[..|t| - TrailingSpaces(t)]
  }

  /** Cutting the last `n` characters, all whitespace, off the rest `t` of
      `s` from `a` leaves a slice of `s` followed by whitespace only. */
  lemma TrimTail(s: string, a: nat, t: string, n: nat)
    requires a <= |s| && t == s[a..] && n <= |t|
    requires AllSpace(t[|t| - n..])
    ensures t[..|t| - n] == s[a..|s| - n]
    ensures AllSpace(s[|s| - n..])
  {
    forall k | |s| - n <= k < |s|
      ensures IsSpace(s[k])
    {
      assert s[k] == t[|t| - n..][k - (|s| - n)];
    }
  }

  /** Stripping text that neither starts nor ends with whitespace changes nothing. */
  lemma {:induction false} StripUnchanged(s: string)
    requires s == [] || (!IsSpace(s[0]) && !IsSpace(s[|s| - 1]))
    ensures Strip(s) == s
  {
    assert LeadingSpaces(s) == 0;
    assert s[0..] == s;
    assert TrailingSpaces(s) == 0;
  }

  /** `strip` is idempotent. */
  lemma StripIdempotent(s: string)
    ensures Strip(Strip(s)) == Strip(s)
  {
    StripUnchanged(Strip(s));
  }

  /** Python's `str.upper()` on one character, restricted to ASCII letters. */
  function UpperChar(c: char): (u: char)
    ensures 'a' <= c <= 'z' ==> 'A' <= u <= 'Z' && u as int == c as int - 32
    ensures !('a' <= c <= 'z') ==> u == c
  {
    if 'a' <= c <= 'z' then (c as int - 32) as char else c
  }

  /** Python's `str.upper()` on the ASCII letters (every other character is
      left as it is). */
  function UpperAscii(s: string): (r: string)
    ensures |r| == |s|
  {
    seq(|s|, k requires 0 <= k < |s| => UpperChar(s[k]))
  }

  /** Upper-casing distributes over concatenation. */
  lemma UpperAsciiAppend(a: string, b: string)
    ensures UpperAscii(a + b) == UpperAscii(a) + UpperAscii(b)
  {
    var u, v := UpperAscii(a + b), UpperAscii(a) + UpperAscii(b);
    forall k | 0 <= k < |u|
      ensures u[k] == v[k]
    {
      if k < |a| {
        assert (a + b)[k] == a[k];
      } else {
        assert (a + b)[k] == b[k - |a|];
      }
    }
  }

  /** Python's `s.replace(pat, rep)`: every occurrence of `pat`, scanned left to
      right without overlaps, is replaced by `rep`. */
  function ReplaceAll(s: string, pat: string, rep: string): string
    requires pat != []
    decreases |s|
  {
    if |s| < |pat| then s
    else if s[..|pat|] == pat then rep + ReplaceAll(s[|pat|..], pat, rep)
    else [s[0]] + ReplaceAll(s[1..], pat, rep)
  }

  /** Text that does not contain the first character of `pat` is left unchanged. */
  lemma {:induction false} ReplaceAllAbsent(s: string, pat: string, rep: string)
    requires pat != [] && pat[0] !in s
    ensures ReplaceAll(s, pat, rep) == s
  {
    if |s| >= |pat| {
      assert s[..|pat|][0] == s[0];
      ReplaceAllAbsent(s[1..], pat, rep);
    }
  }

  /** Python's `s.replace(c, "")` for a one-character `c`. */
  function RemoveChar(s: string, c: char): (r: string)
    ensures c !in r
    ensures |r| <= |s|
  {
    if s == [] then []
    else if s[0] == c then RemoveChar(s[1..], c)
    else [s[0]] + RemoveChar(s[1..], c)
  }

  /** Every occurrence of `c` goes and every other character stays, as often
      as it occurred. */
  lemma {:induction false} RemoveCharCounts(s: string, c: char)
    ensures multiset(RemoveChar(s, c)) == multiset(s)[c := 0]
  {
    if s != [] {
      assert s == [s[0]] + s[1..];
      RemoveCharCounts(s[1..], c);
    }
  }

  /** Removing a character distributes over concatenation. */
  lemma {:induction false} RemoveCharAppend(a: string, b: string, c: char)
    ensures RemoveChar(a + b, c) == RemoveChar(a, c) + RemoveChar(b, c)
  {
    if a == [] {
      assert a + b == b;
    } else {
      assert (a + b)[0] == a[0];
      assert (a + b)[1..] == a[1..] + b;
      RemoveCharAppend(a[1..], b, c);
    }
  }

  /** Text without the character is left unchanged. */
  lemma {:induction false} RemoveCharAbsent(s: string, c: char)
    requires c !in s
    ensures RemoveChar(s, c) == s
  {
    if s != [] {
      RemoveCharAbsent(s[1..], c);
    }
  }

  /** Python's `sep.join(lines)`. */
  function Join(sep: string, lines: seq<string>): string {
    if lines == [] then ""
    else if |lines| == 1 then lines[0]
    else lines[0] + sep + Join(sep, lines[1..])
  }
}
