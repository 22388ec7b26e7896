/** Steps 5-8 of `sendTransaction`: the unsigned EIP-1559 transaction as
    the twelve-item list handed to the RLP encoder, the EIP-2718 typed
    envelope `0x02 || RLP(list)`, and the base 64 text sent to the TEN
    session-key precompile. The RLP encoder itself is a library the model
    does not interpret; it enters as a function argument. */
module Transaction {
  import opened Outcomes
  import opened Digits
  import opened JsText
  import opened Encoding
  import opened Helpers
  import Base64

  /** What the RLP encoder is given: strings and (nested) lists. */
  datatype RlpItem = Str(s: string) | List(items: seq<RlpItem>)

  /** `TransactionParams`; `None` is an absent optional field. The fee
      fields are `string | bigint`, which `HexInput` already captures. */
  datatype TxParams = TxParams(
    to: string,
    data: Option<string>,
    value: Option<string>,
    nonce: Option<int>,
    gasLimit: Option<int>,
    maxFeePerGas: Option<HexInput>,
    maxPriorityFeePerGas: Option<HexInput>)

  /** JavaScript truthiness of an optional fee: not absent, not "", not 0n. */
  predicate FeeGiven(fee: Option<HexInput>) {
    match fee
    case None => false
    case Some(Text(s)) => s != ""
    case Some(Number(n)) => n != 0
  }

  /** `BigInt(fee)`: a bigint is itself, a string must be accepted by
      `BigInt(...)`. */
  function FeeValue(fee: HexInput): Result<int, Failure> {
    match fee
    case Number(n) => Ok(n)
    case Text(s) =>
      match BigIntOfString(s)
      case Some(n) => Ok(n)
      case None => Err(InvalidNumber)
  }

  /** The list item mapping applied to the assembled array: a non-empty
      string without "0x" gets the prefix, anything else is kept. */
  function Prefixed(s: string): (r: string)
    ensures r == "" || HasRadixPrefix(r, 'x')
    ensures s == "" || HasRadixPrefix(s, 'x') ==> r == s
  {
    if s != "" && !HasRadixPrefix(s, 'x') then "0x" + s else s
  }

  /** `x?.toLowerCase() || ''` and `x ? x.toLowerCase() : ''`: absent and
      empty both give "". */
  function LowerOrEmpty(x: Option<string>): (r: string)
    ensures x.None? ==> r == ""
    ensures x.Some? ==> r == Lower(x.value)
  {
    match x
    case None => ""
    case Some(v) => Lower(v)
  }

  /** The nonce item: 0 is written "0x" (the empty byte string), any
      other nonce as `toHex(nonce)`. */
  function NonceField(nonce: int): string {
    if nonce == 0 then "0x" else HexOfInt(nonce)
  }

  /** The five quantity items `[chainId, nonce, maxPriorityFeePerGas,
      maxFeePerGas, gasLimit]` after the prefix mapping. */
  function QuantityItems(chainId: int, nonce: int, fees: GasFees, gasLimit: int): (r: seq<RlpItem>)
    ensures |r| == 5
    ensures r[0] == Str(HexOfInt(chainId))
    ensures r[1] == Str(NonceField(nonce))
    ensures r[2] == Str(HexOfInt(fees.maxPriorityFeePerGas))
    ensures r[3] == Str(HexOfInt(fees.maxFeePerGas))
    ensures r[4] == Str(HexOfInt(gasLimit))
  {
    PrefixedHex(chainId);
    PrefixedNonce(nonce);
    PrefixedRlpHex(fees.maxPriorityFeePerGas);
    PrefixedRlpHex(fees.maxFeePerGas);
    PrefixedRlpHex(gasLimit);
    [Str(Prefixed(HexOfInt(chainId))), Str(Prefixed(NonceField(nonce))),
     Str(Prefixed(ToRlpHex(fees.maxPriorityFeePerGas))), Str(Prefixed(ToRlpHex(fees.maxFeePerGas))),
     Str(Prefixed(ToRlpHex(gasLimit)))]
  }

  /** The items `[to, value, data]` after the prefix mapping. */
  function CallItems(to: string, value: Option<string>, data: Option<string>): (r: seq<RlpItem>)
    ensures r == [Str(Prefixed(Lower(to))), Str(Prefixed(LowerOrEmpty(value))), Str(Prefixed(LowerOrEmpty(data)))]
    ensures forall i :: 0 <= i < |r| ==> r[i].Str? && (r[i].s == "" || HasRadixPrefix(r[i].s, 'x'))
  {
    [Str(Prefixed(Lower(to))), Str(Prefixed(LowerOrEmpty(value))), Str(Prefixed(LowerOrEmpty(data)))]
  }

  /** The empty access list and the three empty signature fields of an
      unsigned transaction. */
  const Trailer: seq<RlpItem> := [List([]), Str(""), Str(""), Str("")]

  /** The twelve items `[chainId, nonce, maxPriorityFeePerGas, maxFeePerGas,
      gasLimit, to, value, data, accessList, v, r, s]` after the prefix
      mapping. */
  function BuildTuple(chainId: int, nonce: int, fees: GasFees, gasLimit: int,
                      to: string, value: Option<string>, data: Option<string>): (r: seq<RlpItem>)
    ensures |r| == 12
    ensures r[..5] == QuantityItems(chainId, nonce, fees, gasLimit)
    ensures r[5..8] == CallItems(to, value, data)
    ensures r[8..] == Trailer
  {
    var q, c := QuantityItems(chainId, nonce, fees, gasLimit), CallItems(to, value, data);
    var r := q + c + Trailer;
    assert r[..5] == q;
    assert r[5..8] == c;
    r
  }

  /** `toHex` output already carries its prefix and is kept. */
  lemma PrefixedHex(n: int)
    ensures Prefixed(HexOfInt(n)) == HexOfInt(n)
  {
  }

  lemma PrefixedNonce(nonce: int)
    ensures Prefixed(NonceField(nonce)) == NonceField(nonce)
  {
  }

  /** The map puts back the prefix `toRlpHex` removed. */
  lemma PrefixedRlpHex(n: int)
    ensures Prefixed(ToRlpHex(n)) == HexOfInt(n)
  {
  }

  /** The integer an "0x" item stands for once the encoder turns it into
      bytes: "0x" alone is the empty byte string, i.e. 0. */
  function QuantityValue(field: string): (r: Option<nat>)
  {
    if !HasRadixPrefix(field, 'x') then None
    else if |field| == 2 then Some(0)
    else if AllDigits(field[2..], 16) then Some(ValueOf(field[2..], 16))
    else None
  }

  /** The digits after "0x" carry no leading zero, as RLP requires of
      integers; "0x" alone has no digits at all. */
  predicate MinimalQuantity(field: string) {
    HasRadixPrefix(field, 'x') && (|field| == 2 || (field[2] != '0' && Canonical(field[2..], 16)))
  }

  lemma HexOfNatQuantity(n: nat)
    ensures QuantityValue(HexOfInt(n)) == Some(n)
    ensures n > 0 ==> MinimalQuantity(HexOfInt(n))
  {
    var h := HexOfInt(n);
    assert h[2..] == ToDigits(n, 16);
    ValueOfToDigits(n, 16);
    ToDigitsCanonical(n, 16);
  }

  /** Reading the quantity items back gives the nonce, the fees and the
      gas limit the tuple was built from, each in minimal form (the
      nonce 0 as the empty string, which `toHex(0)` = "0x0" would not be). */
  lemma TupleQuantitiesRecovered(chainId: nat, nonce: nat, fees: GasFees, gasLimit: nat,
                                 to: string, value: Option<string>, data: Option<string>)
    requires fees.maxFeePerGas >= 0 && fees.maxPriorityFeePerGas >= 0
    ensures var t := BuildTuple(chainId, nonce, fees, gasLimit, to, value, data)[..5];
      && QuantityValue(t[0].s) == Some(chainId)
      && QuantityValue(t[1].s) == Some(nonce) && MinimalQuantity(t[1].s)
      && QuantityValue(t[2].s) == Some(fees.maxPriorityFeePerGas)
      && QuantityValue(t[3].s) == Some(fees.maxFeePerGas)
      && QuantityValue(t[4].s) == Some(gasLimit)
  {
    HexOfNatQuantity(chainId);
    HexOfNatQuantity(nonce);
    HexOfNatQuantity(fees.maxPriorityFeePerGas);
    HexOfNatQuantity(fees.maxFeePerGas);
    HexOfNatQuantity(gasLimit);
  }

  /** The typed envelope as the code assembles it: the encoder's bytes
      written out as hex, read back by `hexToBytes`, behind the type byte 2. */
  function Envelope(rlp: seq<byte>): (r: seq<byte>)
    ensures r == [2] + rlp
  {
    HexRoundTrip(rlp);
    [2] + HexToBytes("0x" + HexBody(rlp))
  }

  /** `btoa(String.fromCharCode(...txBytes))`: the base 64 text of the
      envelope's bytes. */
  function Payload(rlp: seq<byte>): (r: string)
    ensures Base64.Decode(r) == Some([2] + rlp)
    ensures |r| == 4 * ((|rlp| + 3) / 3)
  {
    Base64.DecodeEncode(Envelope(rlp));
    Base64.Encode(Envelope(rlp))
  }
}
