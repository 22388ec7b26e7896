/** The pure parts of the library's provider helpers: `toRlpHex`, the
    chain check of `checkTenNetwork`, and the fee estimate of
    `calculateGasFees` computed from an `eth_feeHistory` reply. */
module Helpers {
  import opened Outcomes
  import opened Digits
  import opened JsText
  import opened Encoding
  import opened Sorting

  /** Chain id of the TEN network. */
  const TenChainId: nat := 8443
  const Gwei: nat := 1000000000

  /** `eth_feeHistory` parameters: ten blocks back, and the 25th, 50th and
      75th reward percentiles. */
  const FeeHistoryBlocks: nat := 10
  const RewardPercentiles: seq<nat> := [25, 50, 75]

  /** `toRlpHex(value)`: the `toHex` rendering without its "0x"; it is
      never empty and putting the prefix back gives `toHex` again. */
  function ToRlpHex(n: int): (r: string)
    ensures "0x" + r == HexOfInt(n)
    ensures |r| >= 1 && !HasRadixPrefix(r, 'x')
    ensures n >= 0 ==> r == ToDigits(n, 16)
  {
    var hex := HexOfInt(n);
    assert |hex| >= 4 ==> IsLowerHex(hex[3]);
    SliceFrom(hex, 2)
  }

  lemma ToRlpHexOfZero()
    ensures ToRlpHex(0) == "0"
  {
  }

  /** `checkTenNetwork`: the `eth_chainId` answer read by `parseInt(_, 16)`
      must be 8443; a rejected request propagates its failure. */
  function CheckTenNetwork(chainId: Reply<string>): (r: Result<(), Failure>)
    ensures r.Ok? <==> chainId.Ok? && ParseInt(chainId.value, 16) == Some(TenChainId)
    ensures chainId.Err? ==> r == Err(chainId.error)
    ensures chainId.Ok? && r.Err? ==> r.error == WrongNetwork
  {
    match chainId
    case Err(e) => Err(e)
    case Ok(hex) => if ParseInt(hex, 16) == Some(TenChainId) then Ok(()) else Err(WrongNetwork)
  }

  /** A provider that reports its chain id as `toHex(n)` passes the check
      exactly when `n` is the TEN chain id. */
  lemma CheckTenNetworkOfHex(n: nat)
    ensures CheckTenNetwork(Ok(HexOfInt(n))).Ok? <==> n == TenChainId
  {
    ParseIntPrefixedHexDigits(n);
  }

  /** The urgency tier `calculateGasFees` is asked for. */
  datatype Urgency = Low | Medium | High

  /** The reward column the tier reads: its percentile's position. */
  function RewardColumn(u: Urgency): (k: nat)
    ensures k < |RewardPercentiles|
    ensures RewardPercentiles[k] == match u case Low => 25 case Medium => 50 case High => 75
  {
    match u
    case Low => 0
    case Medium => 1
    case High => 2
  }

  /** The base-fee multiplier 1.1 / 1.2 / 1.5, in tenths. */
  function MultiplierTenths(u: Urgency): nat {
    match u
    case Low => 11
    case Medium => 12
    case High => 15
  }

  /** The priority fee of the fallback quote: 1, 2 or 3 gwei. */
  function FallbackPriority(u: Urgency): nat {
    match u
    case Low => Gwei
    case Medium => 2 * Gwei
    case High => 3 * Gwei
  }

  /** The fields of an `eth_feeHistory` answer the estimate reads; each
      entry is a JSON string still to be read by `BigInt(...)`. */
  datatype FeeHistory = FeeHistory(baseFeePerGas: seq<string>, reward: seq<seq<string>>)

  datatype GasFees = GasFees(maxFeePerGas: int, maxPriorityFeePerGas: int)

  /** The quote used whenever anything in the estimate throws. */
  function Fallback(u: Urgency): (r: GasFees)
    ensures r.maxPriorityFeePerGas > 0
    ensures r.maxFeePerGas == Gwei + r.maxPriorityFeePerGas
  {
    GasFees(Gwei + FallbackPriority(u), FallbackPriority(u))
  }

  /** `BigInt` of the last `baseFeePerGas` entry; an empty list gives
      `BigInt(undefined)`, which throws. */
  function LatestBaseFee(h: FeeHistory): (r: Option<int>)
    ensures |h.baseFeePerGas| == 0 ==> r == None
    ensures |h.baseFeePerGas| > 0 && h.baseFeePerGas[|h.baseFeePerGas| - 1] == "" ==> r == Some(0)
  {
    if |h.baseFeePerGas| == 0 then None
    else BigIntOfString(h.baseFeePerGas[|h.baseFeePerGas| - 1])
  }

  /** Every reward entry of every block is accepted by `BigInt(...)`. */
  predicate AllRewardsParse(rows: seq<seq<string>>) {
    forall row :: row in rows ==> forall j :: 0 <= j < |row| ==> BigIntOfString(row[j]).Some?
  }

  /** `block[k]` of one parsed block: `undefined` past its end. */
  function Cell(row: seq<string>, k: nat): Option<int> {
    if k < |row| then BigIntOfString(row[k]) else None
  }

  /** The selected column of the reward matrix, block by block. */
  function Column(rows: seq<seq<string>>, k: nat): (r: seq<Option<int>>)
    ensures |r| == |rows|
    ensures forall i :: 0 <= i < |rows| ==> r[i] == Cell(rows[i], k)
  {
    MapSeq(row => Cell(row, k), rows)
  }

  /** The priority fee and the base fee raised by the tier's multiplier.
      `Math.floor(Number(base) * multiplier)` is taken as the exact floor of
      `base * tenths / 10` (Dafny's `/` floors for a positive divisor). */
  function Quote(latestBase: int, median: Option<int>, u: Urgency): (r: GasFees)
    ensures median.Some? && median.value > 0 ==> r.maxPriorityFeePerGas == median.value
    ensures !(median.Some? && median.value > 0) ==> r.maxPriorityFeePerGas == Gwei
    ensures r.maxFeePerGas - r.maxPriorityFeePerGas == (latestBase * MultiplierTenths(u)) / 10
    ensures r.maxPriorityFeePerGas > 0
    ensures latestBase >= 0 ==> r.maxFeePerGas >= r.maxPriorityFeePerGas
  {
    var priority := if median.Some? && median.value > 0 then median.value else Gwei;
    GasFees((latestBase * MultiplierTenths(u)) / 10 + priority, priority)
  }

  /** `calculateGasFees(provider, u)` given the `eth_feeHistory` reply:
      the median of the tier's reward column (ascending sort, entry at
      `floor(n / 2)`) as priority fee, 1 gwei when that entry is missing or
      not positive; the fallback table when the request fails, the base fee
      list is empty, or any `BigInt(...)` throws. */
  function CalculateGasFees(reply: Reply<FeeHistory>, u: Urgency): (r: GasFees)
    ensures r.maxPriorityFeePerGas > 0
    ensures reply.Err? ==> r == Fallback(u)
    ensures reply.Ok? && (LatestBaseFee(reply.value).None? || !AllRewardsParse(reply.value.reward)) ==>
      r == Fallback(u)
    ensures reply.Ok? && LatestBaseFee(reply.value).Some? && AllRewardsParse(reply.value.reward) ==>
      r == Quote(LatestBaseFee(reply.value).value,
                 Middle(Sort(Column(reply.value.reward, RewardColumn(u)))), u)
    ensures reply.Ok? && LatestBaseFee(reply.value).Some? && LatestBaseFee(reply.value).value >= 0 ==>
      r.maxFeePerGas >= r.maxPriorityFeePerGas
    ensures (reply.Err? || LatestBaseFee(reply.value).None?) ==> r.maxFeePerGas >= r.maxPriorityFeePerGas
  {
    match reply
    case Err(_) => Fallback(u)
    case Ok(h) =>
      match LatestBaseFee(h)
      case None => Fallback(u)
      case Some(base) =>
        if !AllRewardsParse(h.reward) then Fallback(u)
        else Quote(base, Middle(Sort(Column(h.reward, RewardColumn(u)))), u)
  }

  /** Each tier raises the latest base fee by a fixed fraction, rounded
      down: a tenth for LOW, a fifth for MEDIUM, a half for HIGH. A base fee
      of 100 wei and a MEDIUM median of 5 wei thus quote (125, 5). */
  lemma QuoteByTier(base: int, median: Option<int>)
    ensures Quote(base, median, Low).maxFeePerGas == base + base / 10 + Quote(base, median, Low).maxPriorityFeePerGas
    ensures Quote(base, median, Medium).maxFeePerGas == base + base / 5 + Quote(base, median, Medium).maxPriorityFeePerGas
    ensures Quote(base, median, High).maxFeePerGas == base + base / 2 + Quote(base, median, High).maxPriorityFeePerGas
    ensures Quote(100, Some(5), Medium) == GasFees(125, 5)
  {
  }

  /** A positive median below 1 gwei is kept as it is: 1 gwei only
      replaces a missing or non-positive median. */
  lemma SmallMedianIsKept(base: int, m: int, u: Urgency)
    requires 0 < m < Gwei
    ensures Quote(base, Some(m), u).maxPriorityFeePerGas == m
  {
  }

  /** The estimate does not depend on the order of the blocks in the
      reward matrix: the selected column is sorted before its median is
      taken. */
  lemma FeesIgnoreBlockOrder(base: seq<string>, r1: seq<seq<string>>, r2: seq<seq<string>>, u: Urgency)
    requires multiset(r1) == multiset(r2)
    ensures CalculateGasFees(Ok(FeeHistory(base, r1)), u) == CalculateGasFees(Ok(FeeHistory(base, r2)), u)
  {
    assert forall row :: row in r1 <==> row in r2 by {
      forall row
        ensures row in r1 <==> row in r2
      {
        assert row in r1 <==> row in multiset(r1);
        assert row in r2 <==> row in multiset(r2);
      }
    }
    assert LatestBaseFee(FeeHistory(base, r1)) == LatestBaseFee(FeeHistory(base, r2));
    assert AllRewardsParse(r1) == AllRewardsParse(r2);
    MapPermutation(row => Cell(row, RewardColumn(u)), r1, r2);
    SortPermutationInvariant(Column(r1, RewardColumn(u)), Column(r2, RewardColumn(u)));
  }
}
