/**
 * The PHP string primitives the reminder engine relies on: byte-wise
 * `strtolower`, `trim`, `strpos`, `preg_replace('/\D/', '', ...)`, `intval`
 * of a digit string, `sprintf('%02d')`, and `strcmp` order (the order PHP's
 * `sort` uses on non-numeric strings such as "08:00").
 *
 * Strings are sequences of characters. The source works on UTF-8 bytes; every
 * operation below only inspects or changes ASCII characters, and the bytes of
 * a multi-byte UTF-8 character are never ASCII, so working on characters
 * gives the same results.
 */
module Text {

  // ---------------------------------------------------------------------------
  // Digits and decimal numbers
  // ---------------------------------------------------------------------------

  predicate IsDigit(c: char) { '0' <= c <= '9' }

  predicate AllDigits(s: string) { forall i :: 0 <= i < |s| ==> IsDigit(s[i]) }

  predicate HasDigit(s: string) { exists i :: 0 <= i < |s| && IsDigit(s[i]) }

  function DigitValue(c: char): nat
    requires IsDigit(c)
  {
    c as int - '0' as int
  }

  function DigitChar(d: nat): (c: char)
    requires d < 10
    ensures IsDigit(c) && DigitValue(c) == d
  {
    (d + '0' as int) as char
  }

  /** `intval` (PHP) or `parseInt` (JavaScript) of a string of decimal digits. */
  function DecimalValue(s: string): nat
    requires AllDigits(s)
  {
    if s == [] then 0 else DecimalValue(s[..|s| - 1]) * 10 + DigitValue(s[|s| - 1])
  }

  /** An integer interpolated into a string (`"$n"` in PHP, `${n}` in JavaScript). */
  function NatToString(n: nat): (s: string)
    ensures AllDigits(s) && 1 <= |s|
    ensures n < 10 <==> |s| == 1
    ensures 10 <= n < 100 <==> |s| == 2
  {
    if n < 10 then [DigitChar(n)] else NatToString(n / 10) + [DigitChar(n % 10)]
  }

  lemma {:induction false} NatToStringValue(n: nat)
    ensures DecimalValue(NatToString(n)) == n
  {
    if n >= 10 {
      NatToStringValue(n / 10);
      var s := NatToString(n);
      assert s[..|s| - 1] == NatToString(n / 10);
    }
  }

  /** `sprintf('%02d', n)`: at least two digits, zero-padded on the left. */
  function Pad2(n: nat): (s: string)
    ensures AllDigits(s) && 2 <= |s|
    ensures n < 100 ==> |s| == 2
  {
    if n < 10 then ['0', DigitChar(n)] else NatToString(n)
  }

  /** Two digits printed by `%02d` read back as the same number, and a two-digit
      string is reprinted unchanged. */
  lemma Pad2Value(n: nat)
    requires n < 100
    ensures DecimalValue(Pad2(n)) == n
  {
    NatToStringValue(n);
    var s := Pad2(n);
    assert s[..1] == s[..|s| - 1][..1];
  }

  lemma Pad2Digits(n: nat)
    requires n < 100
    ensures Pad2(n) == [DigitChar(n / 10), DigitChar(n % 10)]
  {
    if n >= 10 {
      assert NatToString(n / 10) == [DigitChar(n / 10)];
    }
  }

  lemma Pad2OfDigits(s: string)
    requires |s| == 2 && AllDigits(s)
    ensures DecimalValue(s) < 100 && Pad2(DecimalValue(s)) == s
  {
    var a := s[..1];
    assert a[..|a| - 1] == [];
    var d0, d1 := DigitValue(s[0]), DigitValue(s[1]);
    assert DecimalValue(a) == d0;
    var n := DecimalValue(s);
    assert n == d0 * 10 + d1;
    TwoDigitsDivMod(d0, d1);
    Pad2Digits(n);
    assert s == [DigitChar(d0), DigitChar(d1)];
  }

  lemma TwoDigitsDivMod(d0: nat, d1: nat)
    requires d0 < 10 && d1 < 10
    ensures (d0 * 10 + d1) / 10 == d0 && (d0 * 10 + d1) % 10 == d1
  {
  }

  /** One or two digits read as a number below 100. */
  lemma ShortDecimal(s: string)
    requires AllDigits(s) && 1 <= |s| <= 2
    ensures DecimalValue(s) < 100
  {
    assert DecimalValue(s[..1]) == DigitValue(s[0]) by {
      assert s[..1][..0] == [];
    }
    if |s| == 2 {
      assert s[..|s| - 1] == s[..1];
    }
  }

  // ---------------------------------------------------------------------------
  // Case, whitespace, substrings
  // ---------------------------------------------------------------------------

  /** `strtolower` since PHP 8: only A-Z change. */
  function LowerChar(c: char): char
  {
    if 'A' <= c <= 'Z' then (c as int + 32) as char else c
  }

  function Lower(s: string): (r: string)
  {
    seq(|s|, i requires 0 <= i < |s| => LowerChar(s[i]))
  }

  lemma LowerIdempotent(s: string)
    ensures Lower(Lower(s)) == Lower(s)
  {
  }

  /** `\s` in a PCRE pattern: space, tab, line feed, vertical tab, form feed, carriage return. */
  predicate IsRegexSpace(c: char)
  {
    c == ' ' || c == '\t' || c == '\n' || c == '\U{B}' || c == '\U{C}' || c == '\r'
  }

  /** The characters PHP's `trim` removes by default: space, tab, line feed,
      carriage return, NUL and vertical tab (not form feed). */
  predicate IsTrimChar(c: char)
  {
    c == ' ' || c == '\t' || c == '\n' || c == '\r' || c == '\0' || c == '\U{B}'
  }

  /** The first position at or after `i` that does not hold a trimmed character. */
  function TrimmedStart(s: string, i: nat): (j: nat)
    requires i <= |s|
    ensures i <= j <= |s| && (j == |s| || !IsTrimChar(s[j]))
    ensures forall k :: i <= k < j ==> IsTrimChar(s[k])
    decreases |s| - i
  {
    if i < |s| && IsTrimChar(s[i]) then TrimmedStart(s, i + 1) else i
  }

  /** The last end position at or before `j`, and not before `lo`, that follows a kept character. */
  function TrimmedEnd(s: string, lo: nat, j: nat): (e: nat)
    requires lo <= j <= |s|
    ensures lo <= e <= j && (e == lo || !IsTrimChar(s[e - 1]))
    ensures forall k :: e <= k < j ==> IsTrimChar(s[k])
  {
    if lo < j && IsTrimChar(s[j - 1]) then TrimmedEnd(s, lo, j - 1) else j
  }

  /** PHP `trim`: drops the trimmed characters at both ends, and only those. */
  function Trim(s: string): (r: string)
    ensures r == [] || (!IsTrimChar(r[0]) && !IsTrimChar(r[|r| - 1]))
    ensures |r| <= |s|
    ensures exists a, b :: 0 <= a <= b <= |s| && r == s[a..b] &&
                           (forall k :: 0 <= k < a ==> IsTrimChar(s[k])) &&
                           (forall k :: b <= k < |s| ==> IsTrimChar(s[k]))
  {
    var i := TrimmedStart(s, 0);
    var e := TrimmedEnd(s, i, |s|);
    s[i..e]
  }

  /** A text with nothing to trim at either end is left as it is. */
  lemma TrimOfTrimmed(s: string)
    requires s == [] || (!IsTrimChar(s[0]) && !IsTrimChar(s[|s| - 1]))
    ensures Trim(s) == s
  {
    if s != [] {
      assert TrimmedStart(s, 0) == 0;
      assert TrimmedEnd(s, 0, |s|) == |s|;
    }
  }

  /** `strpos($s, $pat) !== false`, or `includes` in JavaScript. */
  predicate Contains(s: string, pat: string)
  {
    exists i | 0 <= i <= |s| :: OccursAt(s, pat, i)
  }

  predicate OccursAt(s: string, pat: string, i: int)
  {
    0 <= i && i + |pat| <= |s| && s[i..i + |pat|] == pat
  }

  lemma ContainsInfix(a: string, pat: string, b: string)
    ensures Contains(a + pat + b, pat)
  {
    var s := a + pat + b;
    assert s[|a|..|a| + |pat|] == pat;
    assert OccursAt(s, pat, |a|);
  }

  /** Moving an occurrence right by a prefix. */
  lemma ContainsAfter(a: string, b: string, pat: string)
    requires Contains(b, pat)
    ensures Contains(a + b, pat)
  {
    var i :| 0 <= i <= |b| && OccursAt(b, pat, i);
    assert (a + b)[|a| + i..|a| + i + |pat|] == b[i..i + |pat|];
    assert OccursAt(a + b, pat, |a| + i);
  }

  /** The concatenation of a list of pieces, as a chain of `.` in PHP. */
  function Concat(parts: seq<string>): string
  {
    if parts == [] then "" else parts[0] + Concat(parts[1..])
  }

  /** Each piece of a concatenation occurs in it. */
  lemma {:induction false} ContainsPart(parts: seq<string>, k: nat)
    requires k < |parts|
    ensures Contains(Concat(parts), parts[k])
  {
    if k == 0 {
      ContainsInfix([], parts[0], Concat(parts[1..]));
      assert [] + parts[0] + Concat(parts[1..]) == Concat(parts);
    } else {
      ContainsPart(parts[1..], k - 1);
      ContainsAfter(parts[0], Concat(parts[1..]), parts[k]);
    }
  }

  /** A string that lacks some character of `pat` does not contain `pat`. */
  lemma NotContainsWithout(s: string, pat: string, k: nat)
    requires k < |pat|
    requires forall i :: 0 <= i < |s| ==> s[i] != pat[k]
    ensures !Contains(s, pat)
  {
    forall i | 0 <= i && i + |pat| <= |s|
      ensures !OccursAt(s, pat, i)
    {
      assert s[i..i + |pat|][k] == s[i + k];
    }
  }

  /** `preg_replace('/\D/', '', $s)` and `preg_replace('/[^0-9]/', '', $s)`. */
  function DigitsOnly(s: string): (r: string)
    ensures AllDigits(r) && |r| <= |s|
  {
    if s == [] then []
    else if IsDigit(s[0]) then [s[0]] + DigitsOnly(s[1..])
    else DigitsOnly(s[1..])
  }

  lemma {:induction false} DigitsOnlyOfDigits(s: string)
    requires AllDigits(s)
    ensures DigitsOnly(s) == s
  {
    if s != [] {
      DigitsOnlyOfDigits(s[1..]);
    }
  }

  /** PHP's `empty()` on a string: true for "" and for "0". */
  predicate PhpEmpty(s: string)
  {
    s == "" || s == "0"
  }

  // ---------------------------------------------------------------------------
  // strcmp order
  // ---------------------------------------------------------------------------

  /** `strcmp(a, b) < 0`: byte-wise lexicographic order, a proper prefix first. */
  predicate Less(a: string, b: string)
  {
    if |a| == 0 then |b| > 0
    else |b| > 0 && (a[0] < b[0] || (a[0] == b[0] && Less(a[1..], b[1..])))
  }

  /** Comparing two strings that start with prefixes of the same length. */
  lemma {:induction false} LessAppend(p: string, q: string, x: string, y: string)
    requires |p| == |q|
    ensures Less(p + x, q + y) <==> Less(p, q) || (p == q && Less(x, y))
  {
    if |p| == 0 {
      assert p + x == x && q + y == y;
    } else {
      assert (p + x)[1..] == p[1..] + x && (q + y)[1..] == q[1..] + y;
      LessAppend(p[1..], q[1..], x, y);
      assert p == [p[0]] + p[1..] && q == [q[0]] + q[1..];
    }
  }

  lemma {:induction false} LessIrreflexive(a: string)
    ensures !Less(a, a)
  {
    if |a| > 0 {
      LessIrreflexive(a[1..]);
    }
  }

  lemma {:induction false} LessTransitive(a: string, b: string, c: string)
    requires Less(a, b) && Less(b, c)
    ensures Less(a, c)
  {
    if |a| > 0 && a[0] == b[0] && b[0] == c[0] {
      LessTransitive(a[1..], b[1..], c[1..]);
    }
  }

  lemma {:induction false} LessTotal(a: string, b: string)
    ensures a == b || Less(a, b) || Less(b, a)
  {
    if |a| > 0 && |b| > 0 && a[0] == b[0] {
      LessTotal(a[1..], b[1..]);
      if a[1..] == b[1..] {
        assert a == [a[0]] + a[1..] && b == [b[0]] + b[1..];
      }
    }
  }
}
