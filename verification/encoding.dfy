/** The byte and hex conversions of the library's encoding helpers:
    `toHex`, `hexToBytes`, `bytesToHex`, `estimateTransactions` and
    `hexToAscii`. `parseEther`/`formatEther` are decimal/float conversions
    of the viem library and are not part of this model. */
module Encoding {
  import opened Outcomes
  import opened Digits
  import opened JsText

  type byte = x: int | 0 <= x < 256

  /** `` `0x${BigInt(n).toString(16)}` ``: a sign, when there is one, comes
      after the prefix, exactly as JavaScript prints it. */
  function HexOfInt(n: int): (r: string)
    ensures HasRadixPrefix(r, 'x') && |r| >= 3
    ensures n < 0 <==> r[2] == '-'
  {
    "0x" + (if n < 0 then "-" + ToDigits(-n, 16) else ToDigits(n, 16))
  }

  /** `parseInt(_, 16)` and `BigInt` read the text of a natural number
      back, and read the text of a negative one as nothing at all. */
  lemma HexOfIntReadBack(n: int)
    ensures n >= 0 ==> ParseInt(HexOfInt(n), 16) == Some(n) && BigIntOfString(HexOfInt(n)) == Some(n)
    ensures n < 0 ==> ParseInt(HexOfInt(n), 16) == None && BigIntOfString(HexOfInt(n)) == None
  {
    if n < 0 {
      SignAfterPrefixUnreadable(ToDigits(-n, 16));
    } else {
      ParseIntPrefixedHexDigits(n);
      BigIntOfHexDigits(n);
    }
  }

  /** A natural number is printed as "0x" and its canonical digits: lower
      case, no leading zero; any canonical hex string of the same value is
      the very same string, so the rendering is the minimal one. */
  lemma HexOfNatIsCanonical(n: nat, digits: string)
    requires Canonical(digits, 16) && ValueOf(digits, 16) == n
    ensures HexOfInt(n) == "0x" + digits
    ensures Canonical(HexOfInt(n)[2..], 16)
    ensures BigIntOfString(HexOfInt(n)) == Some(n)
  {
    CanonicalIsToDigits(digits, 16);
    ToDigitsCanonical(n, 16);
    BigIntOfHexDigits(n);
    assert HexOfInt(n)[2..] == digits;
  }

  lemma HexOfZero()
    ensures HexOfInt(0) == "0x0"
  {
  }

  /** What `toHex` accepts: a JavaScript string, or a number/bigint. */
  datatype HexInput = Text(s: string) | Number(n: int)

  /** `toHex(value)`: a string already starting with "0x" is returned as
      it is; any other string goes through `BigInt(...)`, which may throw. */
  function ToHex(v: HexInput): (r: Result<string, Failure>)
    ensures v.Text? && HasRadixPrefix(v.s, 'x') ==> r == Ok(v.s)
    ensures v.Number? ==> r == Ok(HexOfInt(v.n))
    ensures v.Text? && !HasRadixPrefix(v.s, 'x') ==>
      (r.Ok? <==> BigIntOfString(v.s).Some?)
    ensures r.Ok? ==> HasRadixPrefix(r.value, 'x')
  {
    match v
    case Text(s) =>
      if HasRadixPrefix(s, 'x') then Ok(s)
      else (
        match BigIntOfString(s)
        case Some(n) => Ok(HexOfInt(n))
        case None => Err(InvalidNumber))
    case Number(n) => Ok(HexOfInt(n))
  }

  /** A decimal string is rendered exactly as the number it denotes. */
  lemma ToHexOfDecimalString(n: nat)
    ensures ToHex(Text(ToDigits(n, 10))) == ToHex(Number(n))
  {
    var d := ToDigits(n, 10);
    BigIntOfDecimalDigits(n);
    if |d| >= 2 {
      assert IsDigit(d[1], 10);
      NoHexPrefix(d);
    }
  }

  /** `hex.startsWith('0x') ? hex.slice(2) : hex`. */
  function StripHexPrefix(hex: string): (r: string)
    ensures HasRadixPrefix(hex, 'x') ==> "0x" + r == hex
    ensures !HasRadixPrefix(hex, 'x') ==> r == hex
  {
    if HasRadixPrefix(hex, 'x') then hex[2..] else hex
  }

  /** `parseInt(chunk, 16)` on a chunk of at most two characters: its
      magnitude is below 16^2. */
  function ChunkCode(chunk: string): (v: Option<int>)
    requires |chunk| <= 2
    ensures v.Some? ==> -256 < v.value < 256
  {
    ParseIntBound(chunk, 16);
    assert Pow(16, |chunk|) <= 256;
    ParseInt(chunk, 16)
  }

  /** Storing a chunk's value into a `Uint8Array` slot: NaN becomes 0,
      anything else is reduced modulo 256, which for the values a chunk can
      have adds 256 to a negative one. */
  function ToUint8(v: Option<int>): (r: byte)
    requires v.Some? ==> -256 < v.value < 256
    ensures v.Some? ==> r % 256 == v.value % 256
    ensures v.Some? && 0 <= v.value ==> r == v.value
  {
    match v
    case None => 0
    case Some(x) => if x < 0 then x + 256 else x
  }

  /** `parseInt(pair, 16)` stored into a byte. */
  function PairByte(pair: string): byte
    requires |pair| == 2
  {
    ToUint8(ChunkCode(pair))
  }

  /** `hexToBytes(hex)`: `floor(|clean| / 2)` bytes, byte `i` read from
      characters `2i` and `2i+1`; an odd trailing character is dropped
      because the typed-array store past the array's end is ignored. */
  function HexToBytes(hex: string): (r: seq<byte>)
    ensures |r| == |StripHexPrefix(hex)| / 2
    ensures forall i :: 0 <= i < |r| ==> r[i] == PairByte(StripHexPrefix(hex)[2 * i..2 * i + 2])
  {
    PairBytes(StripHexPrefix(hex))
  }

  /** The bytes of the two-character chunks of a cleaned string. */
  function PairBytes(clean: string): seq<byte> {
    MapPairs(PairByte, clean)
  }

  /** `f` applied to the two-character chunks of `s`, an odd last
      character left out. */
  function MapPairs<T>(f: string --> T, s: string): (r: seq<T>)
    requires forall p: string :: |p| == 2 ==> f.requires(p)
    ensures |r| == |s| / 2
    ensures forall i :: 0 <= i < |r| ==> r[i] == f(s[2 * i..2 * i + 2])
  {
    seq(|s| / 2, i requires 0 <= i < |s| / 2 => f(s[2 * i..2 * i + 2]))
  }

  lemma MapPairsCons<T>(f: string --> T, s: string)
    requires forall p: string :: |p| == 2 ==> f.requires(p)
    requires |s| >= 2
    ensures MapPairs(f, s) == [f(s[..2])] + MapPairs(f, s[2..])
  {
    var rest := s[2..];
    var whole := MapPairs(f, s);
    var split := [f(s[..2])] + MapPairs(f, rest);
    assert |whole| == |split|;
    forall i | 0 <= i < |whole|
      ensures whole[i] == split[i]
    {
      if i > 0 {
        var a, b := s[2 * i..2 * i + 2], rest[2 * i - 2..2 * i];
        assert a[0] == b[0] && a[1] == b[1];
        assert a == b;
      }
    }
  }

  /** Two hex digits in a row. */
  predicate IsHexPair(s: string) {
    |s| == 2 && IsDigit(s[0], 16) && IsDigit(s[1], 16)
  }

  /** The byte two hex digits denote, high digit first. */
  function PairValue(s: string): (v: byte)
    requires IsHexPair(s)
  {
    CharValue(s[0]) * 16 + CharValue(s[1])
  }

  /** `parseInt` reads two hex digits high digit first. */
  lemma ParseIntOfPair(s: string)
    requires IsHexPair(s)
    ensures ParseInt(s, 16) == Some(PairValue(s))
  {
    NoHexPrefix(s);
    ValueOfPair(s);
    DigitPrefixOfDigits(s, 16);
    ParseIntOfDigitLed(s, 16);
  }

  lemma ValueOfPair(s: string)
    requires IsHexPair(s)
    ensures AllDigits(s, 16) && ValueOf(s, 16) == PairValue(s)
  {
    var first := s[..1];
    assert s[..|s| - 1] == first && first[..0] == [];
    assert ValueOf(first, 16) == CharValue(s[0]);
  }

  /** Two hex digits are stored as the byte they denote. */
  lemma PairByteOfDigits(s: string)
    requires IsHexPair(s)
    ensures PairByte(s) == PairValue(s)
  {
    ParseIntOfPair(s);
  }

  /** On a hex string of 2n digits, `hexToBytes` yields n bytes, byte `i`
      being the value of digits `2i` and `2i+1`. */
  lemma HexToBytesOfDigits(hex: string)
    requires AllDigits(StripHexPrefix(hex), 16) && |StripHexPrefix(hex)| % 2 == 0
    ensures |HexToBytes(hex)| * 2 == |StripHexPrefix(hex)|
    ensures forall i :: 0 <= i < |HexToBytes(hex)| ==>
      HexToBytes(hex)[i] == CharValue(StripHexPrefix(hex)[2 * i]) * 16 + CharValue(StripHexPrefix(hex)[2 * i + 1])
  {
    var clean := StripHexPrefix(hex);
    forall i | 0 <= i < |clean| / 2
      ensures HexToBytes(hex)[i] == CharValue(clean[2 * i]) * 16 + CharValue(clean[2 * i + 1])
    {
      var pair := clean[2 * i..2 * i + 2];
      assert pair[0] == clean[2 * i] && pair[1] == clean[2 * i + 1];
      PairByteOfDigits(pair);
    }
  }

  /** The "0x" prefix is optional: with or without it the bytes are the same. */
  lemma HexToBytesPrefixOptional(h: string)
    requires !HasRadixPrefix(h, 'x')
    ensures HexToBytes("0x" + h) == HexToBytes(h)
  {
    assert HasRadixPrefix("0x" + h, 'x');
    assert ("0x" + h)[2..] == h;
  }

  /** `b.toString(16).padStart(2, '0')`: always two lower-case digits,
      high nibble first. */
  function ByteHex(x: byte): (r: string)
    ensures r == [DigitChar(x / 16), DigitChar(x % 16)]
  {
    var digits := ToDigits(x, 16);
    assert x >= 16 ==> digits == ToDigits(x / 16, 16) + [DigitChar(x % 16)];
    PadStart(digits, 2, '0')
  }

  /** The digits of `bytesToHex` after the prefix. */
  function HexBody(b: seq<byte>): (r: string)
    ensures |r| == 2 * |b|
    ensures forall i :: 0 <= i < |b| ==>
      r[2 * i] == DigitChar(b[i] / 16) && r[2 * i + 1] == DigitChar(b[i] % 16)
    ensures forall j :: 0 <= j < |r| ==> IsLowerHex(r[j])
  {
    if |b| == 0 then ""
    else HexBody(b[..|b| - 1]) + ByteHex(b[|b| - 1])
  }

  /** `bytesToHex(bytes)`: "0x" then two lower-case digits per byte. */
  function BytesToHex(b: seq<byte>): (r: string)
    ensures |r| == 2 + 2 * |b|
    ensures HasRadixPrefix(r, 'x')
    ensures forall i :: 2 <= i < |r| ==> IsLowerHex(r[i])
  {
    "0x" + HexBody(b)
  }

  /** Characters `2i` and `2i+1` of the body are the two digits of byte
      `i`. */
  lemma HexBodyPair(b: seq<byte>, i: nat)
    requires i < |b|
    ensures IsHexPair(HexBody(b)[2 * i..2 * i + 2])
    ensures PairValue(HexBody(b)[2 * i..2 * i + 2]) == b[i]
  {
    var r := HexBody(b);
    var hi, lo := DigitChar(b[i] / 16), DigitChar(b[i] % 16);
    assert r[2 * i] == hi && r[2 * i + 1] == lo;
    var pair := r[2 * i..2 * i + 2];
    assert pair[0] == hi && pair[1] == lo;
    assert CharValue(hi) * 16 + CharValue(lo) == b[i];
  }

  /** `hexToBytes(bytesToHex(b)) == b` for every byte sequence. */
  lemma HexRoundTrip(b: seq<byte>)
    ensures HexToBytes(BytesToHex(b)) == b
  {
    var body := HexBody(b);
    assert StripHexPrefix(BytesToHex(b)) == body by {
      assert BytesToHex(b)[2..] == body;
    }
    forall i | 0 <= i < |b|
      ensures HexToBytes(BytesToHex(b))[i] == b[i]
    {
      HexBodyPair(b, i);
      PairByteOfDigits(body[2 * i..2 * i + 2]);
    }
  }

  /** `estimateTransactions`: how many transactions of `gasLimit` gas at
      `gasPrice` the balance pays for; 0 whenever an argument is not
      positive. `Number(...)` of the quotient is taken as exact. */
  function EstimateTransactions(balance: int, gasPrice: int, gasLimit: int): (r: nat)
    ensures balance <= 0 || gasPrice <= 0 || gasLimit <= 0 ==> r == 0
    ensures balance > 0 && gasPrice > 0 && gasLimit > 0 ==>
      r * (gasPrice * gasLimit) <= balance < (r + 1) * (gasPrice * gasLimit)
  {
    if balance <= 0 || gasPrice <= 0 || gasLimit <= 0 then 0
    else
      var cost := gasPrice * gasLimit;
      MulMonotone(1, gasPrice, gasLimit);
      var q := balance / cost;
      assert q * cost + balance % cost == balance;
      assert (q + 1) * cost == q * cost + cost;
      q
  }

  /** `String.fromCharCode(v)` for the values a chunk can have: NaN is
      U+0000, negatives wrap modulo 2^16. */
  function FromCharCode(v: Option<int>): (c: char)
    requires v.Some? ==> -256 < v.value < 256
    ensures v.Some? ==> (c as int) % 65536 == v.value % 65536
  {
    match v
    case None => 0 as char
    case Some(x) => (if x < 0 then x + 65536 else x) as char
  }

  /** The text a chunk's value contributes: nothing for 0, its character
      otherwise (NaN included). */
  function CodeText(code: Option<int>): (r: string)
    requires code.Some? ==> -256 < code.value < 256
    ensures |r| <= 1
    ensures r == "" <==> code == Some(0)
  {
    if code == Some(0) then "" else [FromCharCode(code)]
  }

  /** The text one chunk of at most two characters contributes. */
  function ChunkText(chunk: string): string
    requires |chunk| <= 2
  {
    CodeText(ChunkCode(chunk))
  }

  /** Reference reading of `hexToAscii` on the cleaned string: chunks of
      two characters (the last may have one), each contributing its
      `ChunkText`. */
  function AsciiOf(s: string): string
    decreases |s|
  {
    if |s| == 0 then ""
    else
      var k := if |s| >= 2 then 2 else 1;
      ChunkText(s[..k]) + AsciiOf(s[k..])
  }

  /** Bytes as Latin-1 characters. */
  function Latin1(b: seq<byte>): (r: string)
    ensures |r| == |b|
    ensures forall i :: 0 <= i < |b| ==> r[i] as int == b[i]
  {
    seq(|b|, i requires 0 <= i < |b| => b[i] as char)
  }

  /** The bytes of `b` that are not zero, in their original order. */
  function DropZeros(b: seq<byte>): (r: seq<byte>)
    ensures forall i :: 0 <= i < |r| ==> r[i] != 0
  {
    if |b| == 0 then []
    else (if b[0] == 0 then [] else [b[0]]) + DropZeros(b[1..])
  }

  /** Exactly the zero bytes go: every other byte stays, as often as it
      occurs, so the length drops by the number of zeros. */
  lemma {:induction false} DropZerosCount(b: seq<byte>)
    ensures multiset(DropZeros(b)) == multiset(b)[0 := 0]
    ensures |DropZeros(b)| == |b| - multiset(b)[0]
  {
    if |b| > 0 {
      DropZerosCount(b[1..]);
      assert b == [b[0]] + b[1..];
    }
  }

  lemma {:induction false} DropZerosAppend(x: seq<byte>, y: seq<byte>)
    ensures DropZeros(x + y) == DropZeros(x) + DropZeros(y)
  {
    if |x| > 0 {
      DropZerosAppend(x[1..], y);
      assert (x + y)[0] == x[0] && (x + y)[1..] == x[1..] + y;
    } else {
      assert x + y == y;
    }
  }

  lemma Latin1Append(x: seq<byte>, y: seq<byte>)
    ensures Latin1(x + y) == Latin1(x) + Latin1(y)
  {
  }

  /** A string of at least two characters splits into its first byte and
      the bytes of the rest. */
  lemma PairBytesCons(clean: string)
    requires |clean| >= 2
    ensures PairBytes(clean) == [PairByte(clean[..2])] + PairBytes(clean[2..])
  {
    MapPairsCons(PairByte, clean);
  }

  lemma DropZerosSingleton(v: byte)
    ensures DropZeros([v]) == if v == 0 then [] else [v]
  {
    assert [v][1..] == [];
  }

  /** A pair of hex digits contributes the Latin-1 character of its byte,
      or nothing when the byte is zero. */
  lemma ChunkTextOfPair(s: string)
    requires IsHexPair(s)
    ensures ChunkText(s) == Latin1(DropZeros([PairByte(s)]))
  {
    var v := PairValue(s);
    ParseIntOfPair(s);
    assert PairByte(s) == v;
    DropZerosSingleton(v);
    if v == 0 {
      assert ChunkText(s) == "";
    } else {
      assert ChunkText(s) == [v as char];
      assert Latin1([v]) == [v as char];
    }
  }

  /** On an even-length hex string, `hexToAscii` is the Latin-1 text of
      the non-zero bytes `hexToBytes` reads: exactly the zero bytes are
      dropped and the others keep their order. */
  lemma {:induction false} AsciiOfHex(clean: string)
    requires AllDigits(clean, 16) && |clean| % 2 == 0
    ensures AsciiOf(clean) == Latin1(DropZeros(PairBytes(clean)))
    decreases |clean|
  {
    if |clean| > 0 {
      var pair, rest := clean[..2], clean[2..];
      assert IsHexPair(pair) by {
        assert pair[0] == clean[0] && pair[1] == clean[1];
      }
      AsciiOfHex(rest);
      assert AsciiOf(clean) == ChunkText(pair) + AsciiOf(rest);
      ChunkTextOfPair(pair);
      PairBytesCons(clean);
      DropZerosAppend([PairByte(pair)], PairBytes(rest));
      Latin1Append(DropZeros([PairByte(pair)]), DropZeros(PairBytes(rest)));
    }
  }

  /** `AsciiOfHex` stated on the string before its prefix is stripped. */
  lemma AsciiOfHexInput(hex: string)
    requires AllDigits(StripHexPrefix(hex), 16) && |StripHexPrefix(hex)| % 2 == 0
    ensures AsciiOf(StripHexPrefix(hex)) == Latin1(DropZeros(HexToBytes(hex)))
  {
    AsciiOfHex(StripHexPrefix(hex));
  }

  lemma AppendAssoc(a: string, b: string, c: string)
    ensures (a + b) + c == a + (b + c)
  {
  }

  /** What is left of `s` from index `i` on; nothing once `i` has passed
      the end. */
  function Rest(s: string, i: nat): (r: string)
    ensures i <= |s| ==> r == s[i..]
    ensures i > |s| ==> r == ""
  {
    if i <= |s| then s[i..] else ""
  }

  /** One step of the walk: the chunk at `i` and then what follows it. */
  lemma AsciiOfStep(s: string, i: nat)
    requires i < |s|
    ensures |Slice(s, i, i + 2)| <= 2
    ensures AsciiOf(Rest(s, i)) == ChunkText(Slice(s, i, i + 2)) + AsciiOf(Rest(s, i + 2))
  {
    var t := s[i..];
    var k := if |t| >= 2 then 2 else 1;
    assert Slice(s, i, i + 2) == t[..k];
    assert Rest(s, i + 2) == t[k..];
  }

  /** The walk's invariant survives one chunk. */
  lemma WalkStep(clean: string, i: nat, before: string)
    requires i < |clean| && before + AsciiOf(Rest(clean, i)) == AsciiOf(clean)
    ensures |Slice(clean, i, i + 2)| <= 2
    ensures before + ChunkText(Slice(clean, i, i + 2)) + AsciiOf(Rest(clean, i + 2)) == AsciiOf(clean)
  {
    AsciiOfStep(clean, i);
    AppendAssoc(before, ChunkText(Slice(clean, i, i + 2)), AsciiOf(Rest(clean, i + 2)));
  }

  /** The text so far with a chunk's character appended, unless the
      chunk's value is 0. */
  function Emit(ascii: string, code: Option<int>): (r: string)
    requires code.Some? ==> -256 < code.value < 256
    ensures r == ascii + CodeText(code)
  {
    if code != Some(0) then ascii + [FromCharCode(code)] else ascii
  }

  /** `hexToAscii(hex)`: walks the cleaned string two characters at a
      time, appending the character of every chunk that does not parse
      to 0. */
  method HexToAscii(hex: string) returns (ascii: string)
    ensures ascii == AsciiOf(StripHexPrefix(hex))
    ensures AllDigits(StripHexPrefix(hex), 16) && |StripHexPrefix(hex)| % 2 == 0 ==>
      ascii == Latin1(DropZeros(HexToBytes(hex)))
  {
    var clean := StripHexPrefix(hex);
    ascii := "";
    var i := 0;
    while i < |clean|
      invariant ascii + AsciiOf(Rest(clean, i)) == AsciiOf(clean)
    {
      var chunk := Slice(clean, i, i + 2);
      WalkStep(clean, i, ascii);
      var code := ChunkCode(chunk);
      ascii := Emit(ascii, code);
      i := i + 2;
    }
    assert Rest(clean, i) == "";
    if AllDigits(clean, 16) && |clean| % 2 == 0 {
      AsciiOfHexInput(hex);
    }
  }
}
