/** Character classes and substring operations of JavaScript strings. */
module Text {

  /**
   * JavaScript's `\s` class; it is also the set of characters that
   * `String.prototype.trim` removes (WhiteSpace and LineTerminator).
   */
  predicate IsSpace(c: char) {
    || c == '\t' || c == '\n' || c == '\U{0B}' || c == '\U{0C}' || c == '\r'
    || c == ' ' || c == '\U{A0}' || c == '\U{1680}'
    || ('\U{2000}' <= c <= '\U{200A}')
    || c == '\U{2028}' || c == '\U{2029}' || c == '\U{202F}' || c == '\U{205F}'
    || c == '\U{3000}' || c == '\U{FEFF}'
  }

  /** `s.trim().length === 0`. */
  predicate Blank(s: string) {
    forall i :: 0 <= i < |s| ==> IsSpace(s[i])
  }

  predicate StartsWith(s: string, prefix: string) {
    |prefix| <= |s| && s[..|prefix|] == prefix
  }

  /** `s.includes(needle)`. */
  predicate Contains(s: string, needle: string)
    decreases |s|
  {
    StartsWith(s, needle) || (|s| > 0 && Contains(s[1..], needle))
  }

  /** Whatever is written around a string, the result contains it. */
  lemma {:induction false} ContainsMiddle(before: string, needle: string, after: string)
    ensures Contains(before + needle + after, needle)
    decreases |before|
  {
    var s := before + needle + after;
    if |before| == 0 {
      assert s[..|needle|] == needle;
    } else {
      assert s[1..] == before[1..] + needle + after;
      ContainsMiddle(before[1..], needle, after);
    }
  }

  /** A string contains only strings no longer than itself. */
  lemma {:induction false} ContainsShorter(s: string, needle: string)
    requires Contains(s, needle)
    ensures |needle| <= |s|
    decreases |s|
  {
    if !StartsWith(s, needle) {
      ContainsShorter(s[1..], needle);
    }
  }

  /** Every character of a contained string occurs in the containing one. */
  lemma {:induction false} ContainsChar(s: string, needle: string, i: nat)
    requires Contains(s, needle) && i < |needle|
    ensures needle[i] in s
    decreases |s|
  {
    if StartsWith(s, needle) {
      assert s[i] == needle[i];
    } else {
      ContainsChar(s[1..], needle, i);
      assert s == [s[0]] + s[1..];
    }
  }

  /** A string cannot contain a needle whose first character it lacks. */
  lemma MissingFirstChar(s: string, needle: string)
    requires |needle| > 0 && needle[0] !in s
    ensures !Contains(s, needle)
  {
    if Contains(s, needle) {
      ContainsChar(s, needle, 0);
    }
  }

  /** `s.replace(pattern, replacement)` with a string pattern: only the first occurrence is replaced. */
  function ReplaceFirst(s: string, pattern: string, replacement: string): (r: string)
    decreases |s|
  {
    if StartsWith(s, pattern) then replacement + s[|pattern|..]
    else if |s| == 0 then s
    else [s[0]] + ReplaceFirst(s[1..], pattern, replacement)
  }

  /** Replacing in a string that does not contain the pattern changes nothing. */
  lemma {:induction false} ReplaceFirstAbsent(s: string, pattern: string, replacement: string)
    requires !Contains(s, pattern)
    ensures ReplaceFirst(s, pattern, replacement) == s
    decreases |s|
  {
    if |s| > 0 {
      ReplaceFirstAbsent(s[1..], pattern, replacement);
    }
  }

  /** The prefix of at most `n` characters: `s.substring(0, n)`. */
  function Take(s: string, n: nat): (r: string)
    ensures |r| <= n && |r| <= |s|
    ensures StartsWith(s, r)
    ensures |s| <= n ==> r == s
    ensures |s| > n ==> |r| == n
  {
    if |s| <= n then s else s[..n]
  }
}
