/** Positional digit strings: the digit alphabet JavaScript uses for
    `parseInt`, `BigInt(...)` and `bigint.toString(radix)`, the value of a
    digit string, and the minimal digit string of a natural number. */
module Digits {

  /** Digit value of `c` in any radix up to 36 ('0'-'9', then letters in
      either case); 36 for a character that is a digit in no radix. */
  function CharValue(c: char): (v: nat)
    ensures v <= 36
  {
    if '0' <= c <= '9' then c as int - '0' as int
    else if 'a' <= c <= 'z' then c as int - 'a' as int + 10
    else if 'A' <= c <= 'Z' then c as int - 'A' as int + 10
    else 36
  }

  predicate IsDigit(c: char, radix: nat) {
    CharValue(c) < radix
  }

  predicate AllDigits(s: string, radix: nat) {
    forall i :: 0 <= i < |s| ==> IsDigit(s[i], radix)
  }

  predicate IsLowerHex(c: char) {
    '0' <= c <= '9' || 'a' <= c <= 'f'
  }

  const LowerHex: string := "0123456789abcdef"

  /** The lower-case character of a digit below 16. */
  function DigitChar(d: nat): (c: char)
    requires d < 16
    ensures CharValue(c) == d
    ensures IsLowerHex(c)
  {
    LowerHex[d]
  }

  lemma DigitCharOfValue(c: char)
    requires IsLowerHex(c)
    ensures CharValue(c) < 16 && DigitChar(CharValue(c)) == c
  {
  }

  function Pow(radix: nat, k: nat): (p: nat)
    ensures radix >= 1 ==> p >= 1
  {
    if k == 0 then 1 else radix * Pow(radix, k - 1)
  }

  lemma {:induction false} PowMonotone(radix: nat, j: nat, k: nat)
    requires radix >= 1 && j <= k
    ensures Pow(radix, j) <= Pow(radix, k)
  {
    if j < k {
      PowMonotone(radix, j, k - 1);
      MulMonotone(1, radix, Pow(radix, k - 1));
    }
  }

  lemma MulMonotone(a: int, b: int, c: nat)
    requires a <= b
    ensures a * c <= b * c
  {
  }

  lemma BoundStep(high: nat, p: nat, low: nat, radix: nat)
    requires high < p && low < radix
    ensures high * radix + low < p * radix
  {
    MulMonotone(high + 1, p, radix);
    assert (high + 1) * radix == high * radix + radix;
  }

  /** Euclidean division undoes `h * radix + d` for a digit `d`. */
  lemma {:induction false} DivModDigit(h: nat, d: nat, radix: nat)
    requires d < radix
    ensures (h * radix + d) / radix == h
    ensures (h * radix + d) % radix == d
  {
    var n := h * radix + d;
    var q, r := n / radix, n % radix;
    assert n == q * radix + r && 0 <= r < radix;
    assert (q - h) * radix == d - r;
    if q > h {
      MulMonotone(1, q - h, radix);
    } else if q < h {
      MulMonotone(1, h - q, radix);
    }
  }

  /** Value of a digit string, most significant digit first. */
  function ValueOf(s: string, radix: nat): nat
    requires AllDigits(s, radix)
  {
    if |s| == 0 then 0 else ValueOf(s[..|s| - 1], radix) * radix + CharValue(s[|s| - 1])
  }

  /** A string of `k` digits denotes a value below radix^k. */
  lemma {:induction false} ValueOfBound(s: string, radix: nat)
    requires AllDigits(s, radix)
    ensures ValueOf(s, radix) < Pow(radix, |s|)
  {
    if |s| > 0 {
      var high := ValueOf(s[..|s| - 1], radix);
      ValueOfBound(s[..|s| - 1], radix);
      BoundStep(high, Pow(radix, |s| - 1), CharValue(s[|s| - 1]), radix);
      assert Pow(radix, |s|) == radix * Pow(radix, |s| - 1);
    }
  }

  /** `n.toString(radix)`: the minimal digit string of `n`, "0" for zero. */
  function ToDigits(n: nat, radix: nat): (r: string)
    requires 2 <= radix <= 16
    ensures 1 <= |r|
    ensures AllDigits(r, radix)
    ensures forall i :: 0 <= i < |r| ==> IsLowerHex(r[i])
    ensures n >= radix ==> |r| >= 2
    decreases n
  {
    if n < radix then [DigitChar(n)]
    else ToDigits(n / radix, radix) + [DigitChar(n % radix)]
  }

  /** A digit string is canonical when it is lower case and has no
      leading zero (the single digit "0" excepted). */
  predicate Canonical(s: string, radix: nat) {
    && 1 <= |s|
    && AllDigits(s, radix)
    && (forall i :: 0 <= i < |s| ==> IsLowerHex(s[i]))
    && (|s| > 1 ==> s[0] != '0')
  }

  lemma {:induction false} ValueOfAppend(s: string, c: char, radix: nat)
    requires AllDigits(s, radix) && IsDigit(c, radix)
    ensures AllDigits(s + [c], radix)
    ensures ValueOf(s + [c], radix) == ValueOf(s, radix) * radix + CharValue(c)
  {
    assert (s + [c])[..|s + [c]| - 1] == s;
  }

  /** One step of `ToDigits`: the digits of the quotient, then the digit
      of the remainder, the quotient being positive. */
  lemma ToDigitsStep(n: nat, radix: nat)
    requires 2 <= radix <= 16 && n >= radix
    ensures n == (n / radix) * radix + n % radix && n % radix < radix
    ensures 1 <= n / radix < n
    ensures ToDigits(n, radix) == ToDigits(n / radix, radix) + [DigitChar(n % radix)]
  {
    var q, d := n / radix, n % radix;
    assert n == q * radix + d;
    MulMonotone(1, radix, q);
  }

  /** Reading back the digits of `n` yields `n`. */
  lemma {:induction false} ValueOfToDigits(n: nat, radix: nat)
    requires 2 <= radix <= 16
    ensures ValueOf(ToDigits(n, radix), radix) == n
    decreases n
  {
    if n >= radix {
      var q, d := n / radix, n % radix;
      ToDigitsStep(n, radix);
      ValueOfToDigits(q, radix);
      ValueOfAppend(ToDigits(q, radix), DigitChar(d), radix);
    }
  }

  /** `ToDigits` produces the canonical form: no leading zero. */
  lemma {:induction false} ToDigitsCanonical(n: nat, radix: nat)
    requires 2 <= radix <= 16
    ensures Canonical(ToDigits(n, radix), radix)
    ensures ToDigits(n, radix)[0] == '0' <==> n == 0
    decreases n
  {
    if n >= radix {
      ToDigitsStep(n, radix);
      ToDigitsCanonical(n / radix, radix);
      assert ToDigits(n, radix)[0] == ToDigits(n / radix, radix)[0];
    }
  }

  lemma {:induction false} LeadingDigitPositive(s: string, radix: nat)
    requires AllDigits(s, radix) && 1 <= |s| && CharValue(s[0]) > 0
    ensures ValueOf(s, radix) > 0
  {
    if |s| > 1 {
      var p := s[..|s| - 1];
      assert p[0] == s[0];
      LeadingDigitPositive(p, radix);
      MulMonotone(1, ValueOf(p, radix), radix);
    }
  }

  /** The canonical digit string of a value is unique: whatever canonical
      string denotes `n` is exactly `ToDigits(n)`. */
  lemma {:induction false} CanonicalIsToDigits(s: string, radix: nat)
    requires 2 <= radix <= 16 && Canonical(s, radix)
    ensures ToDigits(ValueOf(s, radix), radix) == s
  {
    var c := s[|s| - 1];
    DigitCharOfValue(c);
    if |s| > 1 {
      var p := s[..|s| - 1];
      assert p[0] == s[0];
      assert Canonical(p, radix);
      CanonicalIsToDigits(p, radix);
      LeadingDigitPositive(p, radix);
      assert ValueOf(s, radix) == ValueOf(p, radix) * radix + CharValue(c);
      CanonicalStep(ValueOf(p, radix), CharValue(c), radix);
      SplitLast(s);
    }
  }

  lemma SplitLast(s: string)
    requires |s| > 0
    ensures s == s[..|s| - 1] + [s[|s| - 1]]
  {
  }

  /** Appending a digit to a positive value appends it to its digits. */
  lemma CanonicalStep(h: nat, d: nat, radix: nat)
    requires 2 <= radix <= 16 && 1 <= h && d < radix
    ensures ToDigits(h * radix + d, radix) == ToDigits(h, radix) + [DigitChar(d)]
  {
    var n := h * radix + d;
    DivModDigit(h, d, radix);
    MulMonotone(1, h, radix);
    ToDigitsStep(n, radix);
  }

}
