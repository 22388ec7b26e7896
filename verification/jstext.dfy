/** The JavaScript string and number-parsing built-ins the library leans on,
    with their ECMAScript semantics written out: `String.prototype.slice`,
    `startsWith`, `trim`, `toLowerCase` (ASCII letters), `parseInt` with radix
    10 or 16, and `BigInt(string)`. */
module JsText {
  import opened Outcomes
  import opened Digits

  /** A relative slice index resolved against a length: negative values
      count from the end, and the result is clamped to `0..len`. */
  function Relative(k: int, len: nat): (r: nat)
    ensures r <= len
    ensures 0 <= k <= len ==> r == k
    ensures -(len as int) <= k < 0 ==> r == len + k
  {
    if k < 0 then (if len + k < 0 then 0 else len + k)
    else if k < len then k else len
  }

  /** `s.slice(start, end)`. */
  function Slice(s: string, start: int, end: int): (r: string)
    ensures |r| <= |s|
    ensures Relative(start, |s|) < Relative(end, |s|) ==> r == s[Relative(start, |s|)..Relative(end, |s|)]
    ensures Relative(start, |s|) >= Relative(end, |s|) ==> r == ""
  {
    var from := Relative(start, |s|);
    var to := Relative(end, |s|);
    if from < to then s[from..to] else ""
  }

  /** `s.slice(start)`. */
  function SliceFrom(s: string, start: int): (r: string)
    ensures r == s[Relative(start, |s|)..]
  {
    Slice(s, start, |s|)
  }

  /** `s.startsWith('0' + marker)`, e.g. "0x" for `marker == 'x'`. */
  predicate HasRadixPrefix(s: string, marker: char) {
    |s| >= 2 && s[0] == '0' && s[1] == marker
  }

  /** ECMAScript WhiteSpace and LineTerminator code points: what `trim`,
      `parseInt` and `BigInt` skip. */
  predicate IsWhitespace(c: char) {
    var u := c as int;
    || u == 0x09 || u == 0x0A || u == 0x0B || u == 0x0C || u == 0x0D
    || u == 0x20 || u == 0xA0 || u == 0x1680
    || (0x2000 <= u <= 0x200A)
    || u == 0x2028 || u == 0x2029 || u == 0x202F || u == 0x205F
    || u == 0x3000 || u == 0xFEFF
  }

  /** `s.trimStart()`: drops exactly the leading whitespace. */
  function TrimStart(s: string): (r: string)
    ensures |r| <= |s| && r == s[|s| - |r|..]
    ensures forall i :: 0 <= i < |s| - |r| ==> IsWhitespace(s[i])
    ensures |r| > 0 ==> !IsWhitespace(r[0])
  {
    if |s| > 0 && IsWhitespace(s[0]) then TrimStart(s[1..]) else s
  }

  /** `s.trimEnd()`: drops exactly the trailing whitespace. */
  function TrimEnd(s: string): (r: string)
    ensures |r| <= |s| && r == s[..|r|]
    ensures forall i :: |r| <= i < |s| ==> IsWhitespace(s[i])
    ensures |r| > 0 ==> !IsWhitespace(r[|r| - 1])
  {
    if |s| > 0 && IsWhitespace(s[|s| - 1]) then TrimEnd(s[..|s| - 1]) else s
  }

  /** `s.trim()`. */
  function Trim(s: string): string {
    TrimEnd(TrimStart(s))
  }

  /** Every character is whitespace. */
  predicate Blank(s: string) {
    forall i :: 0 <= i < |s| ==> IsWhitespace(s[i])
  }

  /** `s.trim() === ''` holds exactly for strings made only of whitespace. */
  lemma TrimEmptyIffBlank(s: string)
    ensures Trim(s) == "" <==> forall i :: 0 <= i < |s| ==> IsWhitespace(s[i])
  {

  }

  function LowerChar(c: char): char {
    if 'A' <= c <= 'Z' then (c as int - 'A' as int + 'a' as int) as char else c
  }

  /** `s.toLowerCase()` on the ASCII letters. */
  function Lower(s: string): (r: string)
    ensures |r| == |s|
    ensures forall i :: 0 <= i < |s| ==> r[i] == LowerChar(s[i])
  {
    seq(|s|, i requires 0 <= i < |s| => LowerChar(s[i]))
  }

  /** `s.padStart(width, fill)` with a one-character filler. */
  function PadStart(s: string, width: nat, fill: char): (r: string)
    ensures |s| >= width ==> r == s
    ensures |s| < width ==> |r| == width && r[width - |s|..] == s
    ensures forall i :: 0 <= i < |r| - |s| ==> r[i] == fill
  {
    if |s| >= width then s else seq(width - |s|, _ => fill) + s
  }

  /** The longest prefix of `s` made of `radix` digits. */
  function DigitPrefix(s: string, radix: nat): (d: string)
    ensures |d| <= |s| && d == s[..|d|]
    ensures AllDigits(d, radix)
    ensures |d| < |s| ==> !IsDigit(s[|d|], radix)
  {
    if |s| > 0 && IsDigit(s[0], radix) then [s[0]] + DigitPrefix(s[1..], radix) else ""
  }

  lemma DigitPrefixOfDigits(s: string, radix: nat)
    requires AllDigits(s, radix)
    ensures DigitPrefix(s, radix) == s
  {
  }

  /** `parseInt(s, radix)` for radix 10 or 16 (`None` is NaN): skip leading
      whitespace, read one sign, in radix 16 drop a "0x"/"0X" prefix, then
      read the longest run of digits; no digits at all gives NaN. */
  function ParseInt(s: string, radix: nat): (r: Option<int>)
    requires radix == 10 || radix == 16
    ensures s == "" ==> r == None
    ensures |s| > 0 && !IsWhitespace(s[0]) && s[0] != '-' && s[0] != '+' && !IsDigit(s[0], radix) ==> r == None
  {
    var t := TrimStart(s);
    var negative := |t| > 0 && t[0] == '-';
    var unsigned := if |t| > 0 && (t[0] == '-' || t[0] == '+') then t[1..] else t;
    var body :=
      if radix == 16 && (HasRadixPrefix(unsigned, 'x') || HasRadixPrefix(unsigned, 'X'))
      then unsigned[2..] else unsigned;
    var digits := DigitPrefix(body, radix);
    if |digits| == 0 then None
    else
      var magnitude: int := ValueOf(digits, radix);
      Some(if negative then -magnitude else magnitude)
  }

  /** `parseInt` never reads more digits than the string has characters,
      so its magnitude stays below radix^|s|. */
  lemma ParseIntBound(s: string, radix: nat)
    requires radix == 10 || radix == 16
    ensures ParseInt(s, radix).Some? ==>
      -(Pow(radix, |s|) as int) < ParseInt(s, radix).value < Pow(radix, |s|)
  {
    var t := TrimStart(s);
    var unsigned := if |t| > 0 && (t[0] == '-' || t[0] == '+') then t[1..] else t;
    var body :=
      if radix == 16 && (HasRadixPrefix(unsigned, 'x') || HasRadixPrefix(unsigned, 'X'))
      then unsigned[2..] else unsigned;
    var digits := DigitPrefix(body, radix);
    if |digits| > 0 {
      ValueOfBound(digits, radix);
      PowMonotone(radix, |digits|, |s|);
    }
  }

  /** A digit string with at least one digit, read in `radix`. */
  function DigitsValue(d: string, radix: nat): Option<int> {
    if |d| > 0 && AllDigits(d, radix) then Some(ValueOf(d, radix)) else None
  }

  /** `BigInt(s)` on a string (`None` is the SyntaxError): surrounding
      whitespace is ignored, the empty string is 0, "0x"/"0o"/"0b" (either
      case) introduce unsigned hex/octal/binary digits, anything else must be
      an optionally signed run of decimal digits. */
  function BigIntOfString(s: string): (r: Option<int>)
    ensures s == "" ==> r == Some(0)
    ensures HasRadixPrefix(s, 'x') && !IsWhitespace(s[|s| - 1]) ==> r == DigitsValue(s[2..], 16)
  {
    var t := Trim(s);
    if |t| == 0 then Some(0)
    else if |t| >= 2 && t[0] == '0' && (t[1] == 'x' || t[1] == 'X') then DigitsValue(t[2..], 16)
    else if |t| >= 2 && t[0] == '0' && (t[1] == 'o' || t[1] == 'O') then DigitsValue(t[2..], 8)
    else if |t| >= 2 && t[0] == '0' && (t[1] == 'b' || t[1] == 'B') then DigitsValue(t[2..], 2)
    else if t[0] == '-' then
      match DigitsValue(t[1..], 10)
      case Some(v) => Some(-v)
      case None => None
    else if t[0] == '+' then DigitsValue(t[1..], 10)
    else DigitsValue(t, 10)
  }

  /** A string whose second character is a hex digit has no "0x"/"0X"
      prefix. */
  lemma NoHexPrefix(s: string)
    requires |s| >= 2 && IsDigit(s[1], 16)
    ensures !HasRadixPrefix(s, 'x') && !HasRadixPrefix(s, 'X')
  {
    assert CharValue('x') == 33 && CharValue('X') == 33;
  }

  /** A string that starts with a digit is read by `parseInt(_, radix)`
      as its longest digit prefix: no whitespace or sign to skip. */
  lemma ParseIntOfDigitLed(s: string, radix: nat)
    requires radix == 10 || radix == 16
    requires 1 <= |s| && IsDigit(s[0], radix)
    requires radix == 16 ==> !HasRadixPrefix(s, 'x') && !HasRadixPrefix(s, 'X')
    ensures ParseInt(s, radix) == Some(ValueOf(DigitPrefix(s, radix), radix))
  {
    assert !IsWhitespace(s[0]);
    assert TrimStart(s) == s;
  }

  /** `n.toString(16)` parses back to `n` under `parseInt(_, 16)`. */
  lemma ParseIntHexDigits(n: nat)
    ensures ParseInt(ToDigits(n, 16), 16) == Some(n)
  {
    var d := ToDigits(n, 16);
    ValueOfToDigits(n, 16);
    DigitPrefixOfDigits(d, 16);
    assert !HasRadixPrefix(d, 'x') && !HasRadixPrefix(d, 'X') by {
      if |d| >= 2 { assert IsLowerHex(d[1]); }
    }
    ParseIntOfDigitLed(d, 16);
  }

  /** `"0x" + n.toString(16)` parses back to `n` under `parseInt(_, 16)`. */
  lemma ParseIntPrefixedHexDigits(n: nat)
    ensures ParseInt("0x" + ToDigits(n, 16), 16) == Some(n)
  {
    var d := ToDigits(n, 16);
    var s := "0x" + d;
    ValueOfToDigits(n, 16);
    DigitPrefixOfDigits(d, 16);
    assert !IsWhitespace(s[0]);
    assert TrimStart(s) == s;
    assert HasRadixPrefix(s, 'x');
    assert s[2..] == d;
  }

  /** The decimal digits of `n` parse back to `n` under `parseInt(_, 10)`. */
  lemma ParseIntDecimalDigits(n: nat)
    ensures ParseInt(ToDigits(n, 10), 10) == Some(n)
  {
    ValueOfToDigits(n, 10);
    DigitPrefixOfDigits(ToDigits(n, 10), 10);
    ParseIntOfDigitLed(ToDigits(n, 10), 10);
  }

  lemma TrimOfDigits(d: string, radix: nat)
    requires 1 <= |d| && AllDigits(d, radix) && radix <= 16
    ensures Trim(d) == d
  {
    assert !IsWhitespace(d[0]);
    assert TrimStart(d) == d;
    assert !IsWhitespace(d[|d| - 1]);
  }

  /** A minus sign after the "0x" stops both readers: `parseInt` finds no
      digit after the prefix, and `BigInt` rejects the text. */
  lemma SignAfterPrefixUnreadable(d: string)
    requires |d| > 0 && AllDigits(d, 16)
    ensures ParseInt("0x" + ("-" + d), 16) == None
    ensures BigIntOfString("0x" + ("-" + d)) == None
  {
    var s := "0x" + ("-" + d);
    assert s[0] == '0' && s[1] == 'x' && s[2] == '-';
    assert s[|s| - 1] == d[|d| - 1];
    assert IsDigit(d[|d| - 1], 16);
    assert TrimStart(s) == s;
    assert TrimEnd(s) == s;
    assert s[2..] == "-" + d;
    assert !AllDigits(s[2..], 16) by { assert !IsDigit(s[2..][0], 16); }
  }

  /** `BigInt` reads back "0x" + the hex digits of a natural number. */
  lemma BigIntOfHexDigits(n: nat)
    ensures BigIntOfString("0x" + ToDigits(n, 16)) == Some(n)
  {
    var d := ToDigits(n, 16);
    var h := "0x" + d;
    ValueOfToDigits(n, 16);
    assert !IsWhitespace(h[0]);
    assert TrimStart(h) == h;
    assert h[|h| - 1] == d[|d| - 1];
    assert !IsWhitespace(h[|h| - 1]);
    assert TrimEnd(h) == h;
    assert h[2..] == d;
  }

  lemma DecimalLedBigInt(t: string)
    requires Trim(t) == t && 1 <= |t| && IsDigit(t[0], 10)
    requires |t| >= 2 ==> IsDigit(t[1], 10)
    ensures BigIntOfString(t) == DigitsValue(t, 10)
  {
  }

  /** `BigInt` reads back the decimal digits of a natural number. */
  lemma BigIntOfDecimalDigits(n: nat)
    ensures BigIntOfString(ToDigits(n, 10)) == Some(n)
  {
    var d := ToDigits(n, 10);
    ValueOfToDigits(n, 10);
    TrimOfDigits(d, 10);
    assert IsDigit(d[0], 10);
    assert |d| >= 2 ==> IsDigit(d[1], 10);
    assert DigitsValue(d, 10) == Some(n);
    DecimalLedBigInt(d);
  }
}
