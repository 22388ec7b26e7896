/** Base 64 with the standard alphabet and `=` padding (section 4 of
    RFC 4648): what `btoa` produces for a string of Latin-1 characters,
    i.e. for the bytes those characters stand for. The decoder is the
    partner the encoder is proved against. */
module Base64 {
  import opened Outcomes
  import opened Digits
  import opened Encoding

  /** The character of a 6-bit value (Table 1 of RFC 4648): "A"-"Z",
      "a"-"z", "0"-"9", "+", "/". */
  function SextetChar(v: nat): (c: char)
    requires v < 64
    ensures c != '='
  {
    if v < 26 then ('A' as int + v) as char
    else if v < 52 then ('a' as int + v - 26) as char
    else if v < 62 then ('0' as int + v - 52) as char
    else if v == 62 then '+'
    else '/'
  }

  /** The 6-bit value of an alphabet character; `None` for any other. */
  function SextetValue(c: char): (r: Option<nat>)
    ensures r.Some? ==> r.value < 64
  {
    if 'A' <= c <= 'Z' then Some(c as int - 'A' as int)
    else if 'a' <= c <= 'z' then Some(c as int - 'a' as int + 26)
    else if '0' <= c <= '9' then Some(c as int - '0' as int + 52)
    else if c == '+' then Some(62)
    else if c == '/' then Some(63)
    else None
  }

  lemma SextetRoundTrip(v: nat)
    requires v < 64
    ensures SextetValue(SextetChar(v)) == Some(v)
  {
  }

  /** Three bytes as four characters. */
  function EncodeGroup(b0: byte, b1: byte, b2: byte): (r: string)
    ensures |r| == 4
  {
    [SextetChar(b0 / 4), SextetChar(b0 % 4 * 16 + b1 / 16),
     SextetChar(b1 % 16 * 4 + b2 / 64), SextetChar(b2 % 64)]
  }

  /** `b.length` not a multiple of 3: the final one or two bytes are
      padded with `=` to a full quantum of four characters. */
  function EncodeTail(b: seq<byte>): (r: string)
    requires 1 <= |b| <= 2
    ensures |r| == 4
  {
    if |b| == 1 then [SextetChar(b[0] / 4), SextetChar(b[0] % 4 * 16), '=', '=']
    else [SextetChar(b[0] / 4), SextetChar(b[0] % 4 * 16 + b[1] / 16), SextetChar(b[1] % 16 * 4), '=']
  }

  /** The base 64 text of `b`: four characters for every started group of
      three bytes. */
  function Encode(b: seq<byte>): (r: string)
    ensures |r| == 4 * ((|b| + 2) / 3)
    decreases |b|
  {
    if |b| == 0 then ""
    else if |b| >= 3 then
      assert (|b| + 2) / 3 == 1 + (|b| - 1) / 3;
      EncodeGroup(b[0], b[1], b[2]) + Encode(b[3..])
    else EncodeTail(b)
  }

  /** Four characters back to bytes: three for four alphabet characters,
      two for `xxx=` and one for `xx==`, padding only in the last quantum. */
  function DecodeQuantum(q: string, isLast: bool): (r: Option<seq<byte>>)
    requires |q| == 4
    ensures r.Some? ==> 1 <= |r.value| <= 3
  {
    var s0, s1, s2, s3 := SextetValue(q[0]), SextetValue(q[1]), SextetValue(q[2]), SextetValue(q[3]);
    if s0.None? || s1.None? then None
    else
      var v0, v1 := s0.value, s1.value;
      if s2.Some? && s3.Some? then
        Some([v0 * 4 + v1 / 16, v1 % 16 * 16 + s2.value / 4, s2.value % 4 * 64 + s3.value])
      else if s2.Some? && isLast && q[3] == '=' then
        Some([v0 * 4 + v1 / 16, v1 % 16 * 16 + s2.value / 4])
      else if isLast && q[2] == '=' && q[3] == '=' then
        Some([v0 * 4 + v1 / 16])
      else None
  }

  /** The bytes of a base 64 text; `None` when its length is not a multiple
      of four or a quantum is malformed. */
  function Decode(s: string): (r: Option<seq<byte>>)
    decreases |s|
  {
    if |s| == 0 then Some([])
    else if |s| < 4 then None
    else
      match DecodeQuantum(s[..4], |s| == 4)
      case None => None
      case Some(head) =>
        match Decode(s[4..])
        case None => None
        case Some(tail) => Some(head + tail)
  }

  lemma DecodeGroup(b0: byte, b1: byte, b2: byte, isLast: bool)
    ensures DecodeQuantum(EncodeGroup(b0, b1, b2), isLast) == Some([b0, b1, b2])
  {
    var v0, v1, v2, v3 := b0 / 4, b0 % 4 * 16 + b1 / 16, b1 % 16 * 4 + b2 / 64, b2 % 64;
    var q := EncodeGroup(b0, b1, b2);
    assert q[0] == SextetChar(v0) && q[1] == SextetChar(v1) && q[2] == SextetChar(v2) && q[3] == SextetChar(v3);
    SextetRoundTrip(v0);
    SextetRoundTrip(v1);
    SextetRoundTrip(v2);
    SextetRoundTrip(v3);
    DivModDigit(b0 % 4, b1 / 16, 16);
    DivModDigit(b1 % 16, b2 / 64, 4);
    assert v0 * 4 + v1 / 16 == b0;
    assert v1 % 16 * 16 + v2 / 4 == b1;
    assert v2 % 4 * 64 + v3 == b2;
  }

  lemma DecodeTail(b: seq<byte>)
    requires 1 <= |b| <= 2
    ensures DecodeQuantum(EncodeTail(b), true) == Some(b)
  {
    var q := EncodeTail(b);
    var v0 := b[0] / 4;
    SextetRoundTrip(v0);
    if |b| == 1 {
      var v1 := b[0] % 4 * 16;
      assert q[0] == SextetChar(v0) && q[1] == SextetChar(v1) && q[2] == '=' && q[3] == '=';
      SextetRoundTrip(v1);
      assert v0 * 4 + v1 / 16 == b[0];
      assert b == [b[0]];
    } else {
      var v1, v2 := b[0] % 4 * 16 + b[1] / 16, b[1] % 16 * 4;
      assert q[0] == SextetChar(v0) && q[1] == SextetChar(v1) && q[2] == SextetChar(v2) && q[3] == '=';
      SextetRoundTrip(v1);
      SextetRoundTrip(v2);
      DivModDigit(b[0] % 4, b[1] / 16, 16);
      assert v0 * 4 + v1 / 16 == b[0];
      assert v1 % 16 * 16 + v2 / 4 == b[1];
      assert b == [b[0], b[1]];
    }
  }

  /** Decoding undoes encoding: `atob(btoa(x)) == x`. */
  lemma {:induction false} DecodeEncode(b: seq<byte>)
    ensures Decode(Encode(b)) == Some(b)
    decreases |b|
  {
    if |b| >= 3 {
      var rest := b[3..];
      var g, tail := EncodeGroup(b[0], b[1], b[2]), Encode(rest);
      assert Encode(b) == g + tail;
      DecodeEncode(rest);
      DecodeGroup(b[0], b[1], b[2], |tail| == 0);
      DecodeCons(g, tail);
      SplitGroup(b);
    } else if |b| > 0 {
      DecodeTail(b);
      DecodeCons(EncodeTail(b), "");
      assert EncodeTail(b) + "" == EncodeTail(b);
      assert b + [] == b;
    }
  }

  lemma SplitGroup(b: seq<byte>)
    requires |b| >= 3
    ensures b == [b[0], b[1], b[2]] + b[3..]
  {
  }

  /** A well-formed quantum in front of a decodable text decodes to its
      bytes in front of the text's. */
  lemma DecodeCons(q: string, rest: string)
    requires |q| == 4 && DecodeQuantum(q, |rest| == 0).Some? && Decode(rest).Some?
    ensures Decode(q + rest) == Some(DecodeQuantum(q, |rest| == 0).value + Decode(rest).value)
  {
    var s := q + rest;
    assert s[..4] == q && s[4..] == rest;
  }

  /** Every character of the text is from the alphabet, apart from at most
      two trailing `=`. */
  lemma {:induction false} EncodeAlphabet(b: seq<byte>)
    ensures forall i :: 0 <= i < |Encode(b)| ==>
      SextetValue(Encode(b)[i]).Some? || (Encode(b)[i] == '=' && i >= |Encode(b)| - 2)
    decreases |b|
  {
    if |b| >= 3 {
      EncodeAlphabet(b[3..]);
      var g := EncodeGroup(b[0], b[1], b[2]);
      assert forall i :: 0 <= i < 4 ==> SextetValue(g[i]).Some?;
    }
  }
}
