/**
 * Character classes and string operations of the Kotlin standard library
 * that the modelled code relies on: `isWhitespace`, `trim`, `isBlank`,
 * `lowercase`, `contains`, `startsWith`, `replace` and `Int.toString`.
 */
module Text {

  /** Kotlin's `Char.isWhitespace()`: Java whitespace or a Unicode space separator. */
  predicate IsWhitespace(c: char) {
    || ('\t' <= c <= '\r')
    || ('\U{1C}' <= c <= '\U{1F}')
    || c == ' ' || c == '\U{A0}' || c == '\U{1680}'
    || ('\U{2000}' <= c <= '\U{200A}')
    || c == '\U{2028}' || c == '\U{2029}' || c == '\U{202F}' || c == '\U{205F}' || c == '\U{3000}'
  }

  /**
   * The regular-expression class `\s` on Android, whose java.util.regex is
   * backed by ICU: `[\t\n\f\r\p{Z}]`, the four control characters and every
   * Unicode separator (space, line and paragraph separators).
   */
  predicate IsRegexSpace(c: char) {
    || c == '\t' || c == '\n' || c == '\U{0C}' || c == '\r'
    || c == ' ' || c == '\U{A0}' || c == '\U{1680}'
    || ('\U{2000}' <= c <= '\U{200A}')
    || c == '\U{2028}' || c == '\U{2029}' || c == '\U{202F}' || c == '\U{205F}' || c == '\U{3000}'
  }

  /** Kotlin's `isBlank()`: empty or whitespace only. */
  predicate IsBlank(s: string) {
    forall i :: 0 <= i < |s| ==> IsWhitespace(s[i])
  }

  /** Number of whitespace characters at the start of `s`. */
  function LeadingWhitespace(s: string): (n: nat)
    ensures n <= |s|
    ensures forall i :: 0 <= i < n ==> IsWhitespace(s[i])
    ensures n < |s| ==> !IsWhitespace(s[n])
  {
    if s == [] || !IsWhitespace(s[0]) then 0 else 1 + LeadingWhitespace(s[1..])
  }

  /** Number of whitespace characters at the end of `s`. */
  function TrailingWhitespace(s: string): (n: nat)
    ensures n <= |s|
    ensures forall i :: |s| - n <= i < |s| ==> IsWhitespace(s[i])
    ensures n < |s| ==> !IsWhitespace(s[|s| - 1 - n])
  {
    if s == [] || !IsWhitespace(s[|s| - 1]) then 0 else 1 + TrailingWhitespace(s[..|s| - 1])
  }

  /**
   * Kotlin's `trim()`: the infix of `s` left after removing whitespace at
   * both ends.
   */
  function Trim(s: string): (r: string)
    ensures LeadingWhitespace(s) + |r| <= |s|
    ensures r == s[LeadingWhitespace(s)..LeadingWhitespace(s) + |r|]
    ensures forall i :: 0 <= i < LeadingWhitespace(s) ==> IsWhitespace(s[i])
    ensures forall i :: LeadingWhitespace(s) + |r| <= i < |s| ==> IsWhitespace(s[i])
    ensures r != [] ==> !IsWhitespace(r[0]) && !IsWhitespace(r[|r| - 1])
    ensures r == [] <==> IsBlank(s)
  {
    var lo := LeadingWhitespace(s);
    if lo == |s| then []
    else
      var t := TrailingWhitespace(s);
      assert !IsWhitespace(s[lo]);
      s[lo..|s| - t]
  }

  /** Free of whitespace at either end. */
  predicate Trimmed(s: string) {
    s == [] || (!IsWhitespace(s[0]) && !IsWhitespace(s[|s| - 1]))
  }

  /** Trimming a string with no whitespace at either end changes nothing. */
  lemma TrimOfTrimmed(s: string)
    requires Trimmed(s)
    ensures Trim(s) == s
  {
  }

  /** Trimming is idempotent. */
  lemma TrimIdempotent(s: string)
    ensures Trim(Trim(s)) == Trim(s)
  {
    TrimOfTrimmed(Trim(s));
  }

  /** ASCII-only stand-in for Kotlin's `Char.lowercaseChar()`. */
  function LowerChar(c: char): (d: char)
  {
    if 'A' <= c <= 'Z' then (c as int - 'A' as int + 'a' as int) as char else c
  }

  /** Kotlin's `lowercase()`, folding ASCII letters only. */
  function Lower(s: string): (r: string)
    ensures |r| == |s|
  {
    seq(|s|, i requires 0 <= i < |s| => LowerChar(s[i]))
  }

  /** Lower-casing works character by character, so it distributes over concatenation. */
  lemma LowerAppend(a: string, b: string)
    ensures Lower(a + b) == Lower(a) + Lower(b)
  {
    assert forall i :: 0 <= i < |a + b| ==> Lower(a + b)[i] == (Lower(a) + Lower(b))[i];
  }


  predicate StartsWith(s: string, prefix: string) {
    |prefix| <= |s| && s[..|prefix|] == prefix
  }

  /** `k` occurs in `s` starting at index `i`. */
  predicate OccursAt(s: string, k: string, i: int) {
    0 <= i <= |s| - |k| && s[i..i + |k|] == k
  }

  /** Kotlin's `contains(other)`: `k` occurs somewhere in `s`. */
  function Contains(s: string, k: string): (b: bool)
    ensures b <==> exists i :: OccursAt(s, k, i)
    decreases |s|
  {
    if |k| > |s| then false
    else if s[..|k|] == k then assert OccursAt(s, k, 0); true
    else
      var b := Contains(s[1..], k);
      assert b <==> exists i :: OccursAt(s, k, i) by {
        if b {
          var i :| OccursAt(s[1..], k, i);
          assert OccursAt(s, k, i + 1);
        }
        if exists i :: OccursAt(s, k, i) {
          var i :| OccursAt(s, k, i);
          assert i != 0;
          assert OccursAt(s[1..], k, i - 1);
        }
      }
      b
  }

  /** Text that contains a keyword still contains it when more text is appended. */
  lemma ContainsAppend(s: string, t: string, k: string)
    requires Contains(s, k)
    ensures Contains(s + t, k)
  {
    var i :| OccursAt(s, k, i);
    assert (s + t)[i..i + |k|] == k;
    assert OccursAt(s + t, k, i);
  }

  /**
   * Kotlin's `replace(pattern, replacement)`: one left-to-right scan that
   * replaces non-overlapping occurrences and never re-examines replaced text.
   */
  function ReplaceAll(s: string, pattern: string, replacement: string): string
    requires pattern != []
    decreases |s|
  {
    if s == [] then []
    else if StartsWith(s, pattern) then replacement + ReplaceAll(s[|pattern|..], pattern, replacement)
    else [s[0]] + ReplaceAll(s[1..], pattern, replacement)
  }

  /** A pattern whose first character never occurs leaves the text unchanged. */
  lemma {:induction false} ReplaceAllAbsent(s: string, pattern: string, replacement: string)
    requires pattern != [] && pattern[0] !in s
    ensures ReplaceAll(s, pattern, replacement) == s
    decreases |s|
  {
    if s != [] {
      assert !StartsWith(s, pattern);
      ReplaceAllAbsent(s[1..], pattern, replacement);
    }
  }

  /**
   * Up to the first replacement character, the output of a replacement by a
   * single character `c` agrees with the input.
   */
  lemma {:induction false} ReplacePrefixAgrees(t: string, pattern: string, c: char, k: nat)
    requires pattern != []
    requires k <= |ReplaceAll(t, pattern, [c])|
    ensures c in ReplaceAll(t, pattern, [c])[..k] || (k <= |t| && ReplaceAll(t, pattern, [c])[..k] == t[..k])
    decreases |t|
  {
    var r := ReplaceAll(t, pattern, [c]);
    if t == [] || k == 0 {
    } else if StartsWith(t, pattern) {
      assert r[..k][0] == c;
    } else {
      var rest := ReplaceAll(t[1..], pattern, [c]);
      assert r == [t[0]] + rest;
      assert r[1..k] == rest[..k - 1];
      assert r[..k] == [t[0]] + rest[..k - 1];
      ReplacePrefixAgrees(t[1..], pattern, c, k - 1);
      if c in rest[..k - 1] {
        assert c in r[..k];
      }
    }
  }

  /**
   * Replacing a pattern by a single character that does not occur in it
   * leaves no occurrence of the pattern behind.
   */
  lemma {:induction false} ReplaceAllRemoves(s: string, pattern: string, c: char)
    requires pattern != [] && c !in pattern
    ensures !Contains(ReplaceAll(s, pattern, [c]), pattern)
    decreases |s|
  {
    var r := ReplaceAll(s, pattern, [c]);
    if s == [] {
    } else if StartsWith(s, pattern) {
      var rest := ReplaceAll(s[|pattern|..], pattern, [c]);
      ReplaceAllRemoves(s[|pattern|..], pattern, c);
      assert r == [c] + rest && r[1..] == rest;
      if |pattern| <= |r| {
        assert r[..|pattern|][0] == c;
      }
    } else {
      var rest := ReplaceAll(s[1..], pattern, [c]);
      ReplaceAllRemoves(s[1..], pattern, c);
      assert r == [s[0]] + rest && r[1..] == rest;
      if |pattern| <= |r| && r[..|pattern|] == pattern {
        ReplacePrefixAgrees(s, pattern, c, |pattern|);
        assert false;
      }
    }
  }

  /** A decimal digit character. */
  function DigitChar(d: nat): (c: char)
    requires d < 10
    ensures '0' <= c <= '9'
  {
    "0123456789"[d]
  }

  function DigitValue(c: char): nat {
    if '0' <= c <= '9' then c as int - '0' as int else 0
  }

  /** Kotlin's `Int.toString()` on a non-negative value: shortest decimal form. */
  function DecimalString(n: nat): (r: string)
    ensures |r| >= 1
    ensures forall i :: 0 <= i < |r| ==> '0' <= r[i] <= '9'
    ensures r[0] == '0' ==> n == 0
  {
    if n < 10 then [DigitChar(n)] else DecimalString(n / 10) + [DigitChar(n % 10)]
  }

  /** The value of a string of decimal digits. */
  function ParseDecimal(s: string): nat {
    if s == [] then 0 else 10 * ParseDecimal(s[..|s| - 1]) + DigitValue(s[|s| - 1])
  }

  /** Reading back a rendered count gives the count. */
  lemma {:induction false} ParseDecimalString(n: nat)
    ensures ParseDecimal(DecimalString(n)) == n
  {
    var r := DecimalString(n);
    if n < 10 {
      assert r[..0] == [];
    } else {
      ParseDecimalString(n / 10);
      assert r[..|r| - 1] == DecimalString(n / 10);
    }
  }
}
