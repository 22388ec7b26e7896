/** The world the stores talk to. Every answer the wallet provider, the
    public TEN RPC endpoint, `localStorage` or the RLP library could give
    is fixed in advance in an `Env`; every request a store makes is
    recorded as a `Call`, so that the order and the parameters of the
    requests can be stated. */
module Provider {
  import opened Outcomes
  import opened Encoding
  import opened Helpers
  import opened Transaction

  /** The TEN session-key precompiles, reached through `eth_getStorageAt`. */
  const SessionKeyCreate: string := "0x0000000000000000000000000000000000000003"
  const SessionKeyDelete: string := "0x0000000000000000000000000000000000000004"
  const SessionKeyExecute: string := "0x0000000000000000000000000000000000000005"

  /** The `localStorage` entry a previously created session key is read from. */
  const LocalStorageKey: string := "TEN_SESSION_KEY"

  /** The storage "slot" argument of an `eth_getStorageAt` call to a
      precompile: the literal "0x0", `JSON.stringify({ sessionKeyAddress })`,
      or `JSON.stringify({ sessionKeyAddress, tx })`. */
  datatype Slot = ZeroSlot | KeySlot(sessionKeyAddress: string) | ExecuteSlot(sessionKeyAddress: string, tx: string)

  /** The `from` field of a funding transfer: an address, or the provider
      object itself. */
  datatype Sender = FromAddress(address: string) | FromProvider

  /** A transaction receipt; only its `status` is read. */
  datatype Receipt = Receipt(status: string)

  /** One request, with its parameters. */
  datatype Call =
    | ChainId
    | GetStorageAt(address: string, slot: Slot)
    | GetBalance(address: string, blockTag: string)
    | DirectBlockNumber
    | BlockNumber
    | TransactionCount(address: string, blockTag: string)
    | FeeHistoryRequest(blockCount: string, newest: string, percentiles: seq<nat>)
    | EstimateGas(to: string, data: Option<string>, value: string, from: string)
    | SendTransactionRequest(recipient: string, amount: string, sender: Sender)
    | TransactionReceipt(hash: string)

  /** The answers of the outside world. Each RPC method answers the same
      way every time it is asked within one operation, with two exceptions:
      `eth_getTransactionReceipt`, whose n-th answer within one polling loop
      is `receipt(n)`, and the second `eth_chainId` request of
      `sendTransaction`, answered by `secondChainId` (the wallet may have
      switched networks since the first request, answered by `chainId`).
      `directBlockNumber` is the `result` of the POST to the public RPC
      endpoint (`None` when it failed); `storedKey` is the `localStorage`
      entry under `LocalStorageKey`; `rlp` is the RLP encoder. */
  datatype Env = Env(
    chainId: Reply<string>,
    secondChainId: Reply<string>,
    createReply: Reply<string>,
    deleteReply: Reply<string>,
    executeReply: Reply<string>,
    balance: Reply<string>,
    directBlockNumber: Option<string>,
    blockNumber: Reply<string>,
    transactionCount: Reply<string>,
    feeHistory: Reply<FeeHistory>,
    estimateGas: Reply<string>,
    sendTransaction: Reply<string>,
    receipt: nat -> Reply<Option<Receipt>>,
    storedKey: Option<string>,
    rlp: seq<RlpItem> -> seq<byte>)

  /** The `eth_feeHistory` request of `calculateGasFees`. */
  function FeeHistoryCall(): (c: Call)
    ensures c.FeeHistoryRequest? && c.percentiles == RewardPercentiles
  {
    FeeHistoryRequest(HexOfInt(FeeHistoryBlocks), "latest", RewardPercentiles)
  }

  /** `n` receipt queries for the same transaction. */
  function ReceiptQueries(hash: string, n: nat): (r: seq<Call>)
    ensures |r| == n
    ensures forall i :: 0 <= i < n ==> r[i] == TransactionReceipt(hash)
  {
    seq(n, _ => TransactionReceipt(hash))
  }
}
