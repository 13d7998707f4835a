/** String helpers shared by the model: ASCII case folding (the model of
    `str.lower()`), substring containment (`x in s`), the code-point order
    Python uses to compare strings, and decimal digits (`"%d"`, `"%02d"`). */
module Text {

  // ---------------------------------------------------------------------
  // Case folding

  /** ASCII lower-casing of one character; every other character is kept. */
  function Lower(c: char): char {
    if 'A' <= c <= 'Z' then (c as int + 32) as char else c
  }

  /** `s.lower()`, restricted to ASCII letters. */
  function ToLower(s: string): (r: string)
    ensures |r| == |s|
    ensures forall i :: 0 <= i < |s| ==> r[i] == Lower(s[i])
  {
    if s == [] then [] else [Lower(s[0])] + ToLower(s[1..])
  }

  /** `a.lower() == b.lower()`: the name test of every identifier lookup. */
  predicate SameIgnoringCase(a: string, b: string) {
    ToLower(a) == ToLower(b)
  }

  /** Lower-casing twice changes nothing more, so a lookup key may itself be
      given in lower case. */
  lemma LowerAgainSame(a: string, b: string)
    ensures ToLower(ToLower(b)) == ToLower(b)
    ensures SameIgnoringCase(a, ToLower(b)) <==> SameIgnoringCase(a, b)
  {
    var l := ToLower(b);
    assert forall i :: 0 <= i < |b| ==> ToLower(l)[i] == l[i];
  }

  // ---------------------------------------------------------------------
  // Substrings

  /** `sub` starts at position `i` of `s`. */
  predicate OccursAt(s: string, sub: string, i: nat) {
    i + |sub| <= |s| && s[i..i + |sub|] == sub
  }

  /** Python's `sub in s` on strings. */
  predicate Contains(s: string, sub: string) {
    exists i: nat | i <= |s| :: OccursAt(s, sub, i)
  }

  // ---------------------------------------------------------------------
  // Python's string order: code point by code point, a proper prefix first

  predicate LexLeq(a: string, b: string)
    decreases |a|
  {
    |a| == 0 || (|b| > 0 && (a[0] < b[0] || (a[0] == b[0] && LexLeq(a[1..], b[1..]))))
  }

  lemma {:induction false} LexLeqTotal(a: string, b: string)
    ensures LexLeq(a, b) || LexLeq(b, a)
    decreases |a|
  {
    if |a| > 0 && |b| > 0 && a[0] == b[0] {
      LexLeqTotal(a[1..], b[1..]);
    }
  }

  lemma {:induction false} LexLeqTransitive(a: string, b: string, c: string)
    requires LexLeq(a, b) && LexLeq(b, c)
    ensures LexLeq(a, c)
    decreases |a|
  {
    if |a| > 0 && a[0] == b[0] && b[0] == c[0] {
      LexLeqTransitive(a[1..], b[1..], c[1..]);
    }
  }

  // ---------------------------------------------------------------------
  // Decimal digits

  predicate IsDigit(c: char) {
    '0' <= c <= '9'
  }

  predicate AllDigits(s: string) {
    forall i :: 0 <= i < |s| ==> IsDigit(s[i])
  }

  function DigitChar(d: nat): (c: char)
    requires d < 10
    ensures IsDigit(c)
  {
    ('0' as int + d) as char
  }

  /** `"%d" % n` for a non-negative `n`. */
  function Decimal(n: nat): (s: string)
    ensures |s| > 0 && AllDigits(s)
    decreases n
  {
    if n < 10 then [DigitChar(n)] else Decimal(n / 10) + [DigitChar(n % 10)]
  }

  /** `"%0<width>d" % n`, for an `n` that fits in `width` digits. */
  function Padded(n: nat, width: nat): (s: string)
    ensures |s| == width && AllDigits(s)
  {
    if width == 0 then [] else Padded(n / 10, width - 1) + [DigitChar(n % 10)]
  }

  /** The number a string of decimal digits denotes. */
  function DigitsValue(s: string): nat
    requires AllDigits(s)
  {
    if s == [] then 0
    else DigitsValue(s[..|s| - 1]) * 10 + (s[|s| - 1] as int - '0' as int)
  }

  function Pow10(k: nat): (p: nat)
    ensures p >= 1
  {
    if k == 0 then 1 else 10 * Pow10(k - 1)
  }

  lemma {:induction false} DecimalValue(n: nat)
    ensures DigitsValue(Decimal(n)) == n
    decreases n
  {
    if n >= 10 {
      DecimalValue(n / 10);
      var s := Decimal(n);
      assert s[..|s| - 1] == Decimal(n / 10);
    }
  }

  lemma {:induction false} PaddedValue(n: nat, width: nat)
    requires n < Pow10(width)
    ensures DigitsValue(Padded(n, width)) == n
  {
    if width > 0 {
      PaddedValue(n / 10, width - 1);
      var s := Padded(n, width);
      assert s[..|s| - 1] == Padded(n / 10, width - 1);
    }
  }

  /** The first three of six zero-padded digits are the zero-padded
      thousands: cutting three digits truncates, it does not round. */
  lemma PaddedSixCut(n: nat)
    ensures Padded(n, 6)[..3] == Padded(n / 1000, 3)
  {
    var a, b, c := n / 10, n / 10 / 10, n / 10 / 10 / 10;
    assert c == n / 1000;
    calc {
      Padded(n, 6);
      Padded(a, 5) + [DigitChar(n % 10)];
      Padded(b, 4) + [DigitChar(a % 10)] + [DigitChar(n % 10)];
      Padded(c, 3) + [DigitChar(b % 10)] + [DigitChar(a % 10)] + [DigitChar(n % 10)];
    }
    assert (Padded(c, 3) + [DigitChar(b % 10)] + [DigitChar(a % 10)] + [DigitChar(n % 10)])[..3]
      == Padded(c, 3);
  }
}
