/**
 * The few Kotlin standard-library string operations the module list relies on:
 * `trim`, `startsWith`, `toLongOrNull` and `contains(ignoreCase = true)`.
 * Strings are sequences of Unicode scalar values.
 */
module Strings {
  import opened Wrappers

  /** Kotlin's `Char.isWhitespace()`: Java whitespace or a Unicode space separator. */
  predicate IsWhitespace(c: char) {
    var n := c as int;
    (9 <= n <= 13) || (0x1C <= n <= 0x20) || n == 0xA0 || n == 0x1680
    || (0x2000 <= n <= 0x200A) || n == 0x2028 || n == 0x2029 || n == 0x202F
    || n == 0x205F || n == 0x3000
  }

  /** Drops leading whitespace: the result is the suffix of `s` that starts at its first non-blank. */
  function TrimStart(s: string): (r: string)
    ensures |r| <= |s| && r == s[|s| - |r|..]
    ensures r == [] || !IsWhitespace(r[0])
    ensures forall k :: 0 <= k < |s| - |r| ==> IsWhitespace(s[k])
  {
    if |s| > 0 && IsWhitespace(s[0]) then TrimStart(s[1..]) else s
  }

  /** Drops trailing whitespace: the result is the prefix of `s` that ends at its last non-blank. */
  function TrimEnd(s: string): (r: string)
    ensures |r| <= |s| && r == s[..|r|]
    ensures r == [] || !IsWhitespace(r[|r| - 1])
    ensures forall k :: |r| <= k < |s| ==> IsWhitespace(s[k])
  {
    if |s| > 0 && IsWhitespace(s[|s| - 1]) then TrimEnd(s[..|s| - 1]) else s
  }

  /** Everything in `s` before index `i` and from index `j` on is whitespace. */
  predicate WhitespaceOutside(s: string, i: int, j: int)
    requires 0 <= i <= j <= |s|
  {
    (forall k :: 0 <= k < i ==> IsWhitespace(s[k])) && (forall k :: j <= k < |s| ==> IsWhitespace(s[k]))
  }

  /**
   * Dropping whitespace at the start and then at the end leaves the slice `s[i..j]`,
   * with only whitespace around it.
   */
  lemma TrimSlice(s: string) returns (i: int, j: int)
    ensures 0 <= i <= j <= |s| && TrimEnd(TrimStart(s)) == s[i..j] && WhitespaceOutside(s, i, j)
  {
    var t := TrimStart(s);
    var r := TrimEnd(t);
    i, j := |s| - |t|, |s| - |t| + |r|;
    assert r == s[i..j] by {
      assert t == s[i..] && r == t[..|r|];
    }
    assert WhitespaceOutside(s, i, j) by {
      forall k | j <= k < |s| ensures IsWhitespace(s[k]) {
        assert s[k] == t[k - i];
      }
    }
  }

  /** Kotlin's `String.trim()`. */
  function Trim(s: string): (r: string)
    ensures |r| <= |s|
    ensures r == [] <==> forall k :: 0 <= k < |s| ==> IsWhitespace(s[k])
    ensures r == [] || (!IsWhitespace(r[0]) && !IsWhitespace(r[|r| - 1]))
    ensures exists i, j :: 0 <= i <= j <= |s| && r == s[i..j] && WhitespaceOutside(s, i, j)
  {
    var t := TrimStart(s);
    var r := TrimEnd(t);
    assert exists i, j :: 0 <= i <= j <= |s| && r == s[i..j] && WhitespaceOutside(s, i, j) by {
      var i, j := TrimSlice(s);
    }
    assert r == [] ==> t == [];
    r
  }

  predicate StartsWith(s: string, prefix: string) {
    |prefix| <= |s| && s[..|prefix|] == prefix
  }

  // ---------------------------------------------------------------------------
  // String.toLongOrNull()

  const LongMin: int := -0x8000_0000_0000_0000
  const LongMax: int := 0x7FFF_FFFF_FFFF_FFFF

  type Long = x: int | LongMin <= x <= LongMax

  predicate IsDigit(c: char) { '0' <= c <= '9' }

  predicate AllDigits(s: string) {
    forall k :: 0 <= k < |s| ==> IsDigit(s[k])
  }

  /** The value of a string of decimal digits, most significant first. */
  function DigitsValue(s: string): (v: nat)
    requires AllDigits(s)
  {
    if s == [] then 0 else DigitsValue(s[..|s| - 1]) * 10 + (s[|s| - 1] as int - '0' as int)
  }

  /** Digits after an optional sign: present, all decimal, and the signed value fits a Long. */
  function SignedDigits(negative: bool, digits: string): Option<Long> {
    if !AllDigits(digits) then None
    else
      var v: int := if negative then -(DigitsValue(digits) as int) else DigitsValue(digits);
      if LongMin <= v <= LongMax then Some(v) else None
  }

  /** `s` is decimal digits, optionally after a `+` or a `-`, whose signed value is `v`. */
  predicate SignedForm(s: string, v: int) {
    || (|s| > 0 && AllDigits(s) && v == DigitsValue(s))
    || (|s| > 1 && s[0] == '+' && AllDigits(s[1..]) && v == DigitsValue(s[1..]))
    || (|s| > 1 && s[0] == '-' && AllDigits(s[1..]) && v == -(DigitsValue(s[1..]) as int))
  }

  /**
   * Kotlin's `String.toLongOrNull()`: an optional leading `-` or `+` (a character below
   * '0' in first place is taken as a sign, and must be one), then decimal digits; null
   * on an empty string, a lone sign, any other character, or a value outside the Long range.
   */
  function ParseLong(s: string): (r: Option<Long>)
    ensures r.Some? ==> SignedForm(s, r.value)
    ensures forall v :: SignedForm(s, v) && LongMin <= v <= LongMax ==> r == Some(v)
  {
    if |s| == 0 then None
    else if s[0] < '0' then
      if |s| == 1 then None
      else if s[0] == '-' then SignedDigits(true, s[1..])
      else if s[0] == '+' then SignedDigits(false, s[1..])
      else None
    else SignedDigits(false, s)
  }

  /** Decimal rendering of a natural number, the inverse of `DigitsValue`. */
  function DecimalString(n: nat): (s: string)
  {
    if n < 10 then [('0' as int + n) as char]
    else DecimalString(n / 10) + [('0' as int + n % 10) as char]
  }

  lemma {:induction false} DecimalStringDigits(n: nat)
    ensures |DecimalString(n)| > 0 && AllDigits(DecimalString(n))
    ensures DigitsValue(DecimalString(n)) == n
  {
    var s := DecimalString(n);
    if n >= 10 {
      DecimalStringDigits(n / 10);
      assert s[..|s| - 1] == DecimalString(n / 10);
    }
  }

  /** Every Long that is not negative survives rendering and parsing back unchanged. */
  lemma ParseLongDecimal(n: nat)
    requires n <= LongMax
    ensures ParseLong(DecimalString(n)) == Some(n)
  {
    DecimalStringDigits(n);
  }

  // ---------------------------------------------------------------------------
  // CharSequence.contains(other, ignoreCase = true)

  /** Upper-case mapping of the ASCII letters; every other character maps to itself. */
  function UpperAscii(c: char): char {
    if 'a' <= c <= 'z' then (c as int - 32) as char else c
  }

  /** Kotlin's `Char.equals(other, ignoreCase = true)`, on ASCII case mapping. */
  predicate CharEqualsIgnoreCase(a: char, b: char) {
    a == b || UpperAscii(a) == UpperAscii(b)
  }

  /** `q` occurs in `s` at offset `i`, ignoring case. */
  predicate RegionMatches(s: string, i: int, q: string) {
    0 <= i && i + |q| <= |s| && forall k :: 0 <= k < |q| ==> CharEqualsIgnoreCase(s[i + k], q[k])
  }

  /** Scans `s` from the left for an occurrence of `q`, ignoring case. */
  function ContainsIgnoreCase(s: string, q: string): (b: bool)
    ensures b <==> exists i :: 0 <= i <= |s| - |q| && RegionMatches(s, i, q)
  {
    if |q| > |s| then false
    else if RegionMatches(s, 0, q) then true
    else
      var rest := ContainsIgnoreCase(s[1..], q);
      assert rest ==> exists i :: 0 <= i <= |s| - |q| && RegionMatches(s, i, q) by {
        if rest {
          var i :| 0 <= i <= |s| - 1 - |q| && RegionMatches(s[1..], i, q);
          assert RegionMatches(s, i + 1, q);
        }
      }
      assert (exists i :: 0 <= i <= |s| - |q| && RegionMatches(s, i, q)) ==> rest by {
        if exists i :: 0 <= i <= |s| - |q| && RegionMatches(s, i, q) {
          var i :| 0 <= i <= |s| - |q| && RegionMatches(s, i, q);
          assert i != 0;
          assert RegionMatches(s[1..], i - 1, q);
        }
      }
      rest
  }

  function UpperAsciiString(s: string): (r: string)
    ensures |r| == |s| && forall k :: 0 <= k < |s| ==> r[k] == UpperAscii(s[k])
  {
    seq(|s|, k requires 0 <= k < |s| => UpperAscii(s[k]))
  }

  /** Matching ignores the case of the query: upper-casing it changes no answer. */
  lemma ContainsIgnoresQueryCase(s: string, q: string)
    ensures ContainsIgnoreCase(s, q) == ContainsIgnoreCase(s, UpperAsciiString(q))
  {
    var u := UpperAsciiString(q);
    forall i ensures RegionMatches(s, i, q) <==> RegionMatches(s, i, u) {
      forall k | 0 <= k < |q| && 0 <= i && i + k < |s|
        ensures CharEqualsIgnoreCase(s[i + k], q[k]) <==> CharEqualsIgnoreCase(s[i + k], u[k])
      {
        assert UpperAscii(u[k]) == UpperAscii(q[k]);
      }
    }
  }
}
