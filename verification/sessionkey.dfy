/** The session-key store (`useSessionKeyStore`): the session key's address,
    its balance and the loading / error flags, and the operations that
    create, fund, delete and use the key through the TEN precompiles.

    Each asynchronous operation is a function from the state before the
    call and the world's answers to a `Step`: the state after the promise
    settles, what it resolves to (or the failure it rejects with) and the
    requests it made in order. */
module SessionKeyStore {
  import opened Outcomes
  import opened JsText
  import opened Encoding
  import opened Helpers
  import opened Transaction
  import opened Provider
  import Base64

  /** `SessionBalanceObject`; `eth` is `parseFloat(formatEther(wei))`. */
  datatype Balance = Balance(eth: real, estimatedTransactions: nat)

  /** The store's state; `hasProvider` says whether `provider` is set. */
  datatype Session = Session(
    sessionKey: Option<string>,
    isActive: bool,
    balance: Option<Balance>,
    isLoading: bool,
    error: Option<Failure>,
    hasProvider: bool)

  datatype Step<T> = Step(state: Session, result: Result<T, Failure>, calls: seq<Call>)

  /** A value found by one phase of an operation, with the requests that
      found it. */
  datatype Found<T> = Found(value: Result<T, Failure>, calls: seq<Call>)

  /** Wei in one ether. */
  const WeiPerEther: int := 1000000000000000000

  /** The state before any call: no key, no balance, no provider. */
  const Initial: Session := Session(None, false, None, false, None, false)

  /** `!sessionKeyAddress` fails: the key is set and not "". */
  predicate HasKey(s: Session) {
    s.sessionKey.Some? && s.sessionKey.value != ""
  }

  /** The `catch` block shared by the operations: the error is recorded,
      loading stops, and nothing else of the state changes (the earlier
      `set({ isLoading: true, error: null })` is overwritten). */
  function Fail<T>(s: Session, e: Failure, calls: seq<Call>): (r: Step<T>)
    ensures r.result == Err(e) && r.state.error == Some(e) && !r.state.isLoading
    ensures r.state.sessionKey == s.sessionKey && r.state.balance == s.balance
    ensures r.state.isActive == s.isActive && r.state.hasProvider == s.hasProvider
  {
    Step(s.(error := Some(e), isLoading := false), Err(e), calls)
  }

  /** `reset()`: the initial values, with the provider kept. */
  function Reset(s: Session): (r: Session)
    ensures r.hasProvider == s.hasProvider
    ensures r == Initial.(hasProvider := s.hasProvider)
    ensures !HasKey(r) && r.balance.None? && r.error.None? && !r.isLoading && !r.isActive
  {
    Session(None, false, None, false, None, s.hasProvider)
  }

  /** `updateBalance()`: the key's balance at the pending block, as ether.
      It never rejects: any failure (no key, no provider, a rejected request,
      an answer `BigInt` refuses) resolves to `null` with the state untouched. */
  function UpdateBalance(s: Session, env: Env): (r: Step<Option<Balance>>)
    ensures r.result.Ok?
    ensures r.result.value.Some? <==>
      HasKey(s) && s.hasProvider && env.balance.Ok? && BigIntOfString(env.balance.value).Some?
    ensures r.result.value.Some? ==>
      r.result.value.value.eth * (WeiPerEther as real) == BigIntOfString(env.balance.value).value as real
      && r.result.value.value.estimatedTransactions == 0
      && r.state == s.(balance := r.result.value)
    ensures r.result.value.None? ==> r.state == s
    ensures HasKey(s) && s.hasProvider ==> r.calls == [GetBalance(s.sessionKey.value, "pending")]
    ensures !(HasKey(s) && s.hasProvider) ==> r.calls == []
  {
    if !HasKey(s) || !s.hasProvider then Step(s, Ok(None), [])
    else
      var calls := [GetBalance(s.sessionKey.value, "pending")];
      match env.balance
      case Err(_) => Step(s, Ok(None), calls)
      case Ok(hex) =>
        match BigIntOfString(hex)
        case None => Step(s, Ok(None), calls)
        case Some(wei) =>
          var b := Balance(wei as real / WeiPerEther as real, 0);
          Step(s.(balance := Some(b)), Ok(Some(b)), calls)
  }

  /** `initSession(provider)`: a provider is kept, and with a key already
      present the balance is refreshed. */
  function InitSession(s: Session, env: Env, provider: bool): (r: Step<()>)
    ensures r.result.Ok?
    ensures r.state.hasProvider == (s.hasProvider || provider)
    ensures r.state.sessionKey == s.sessionKey
    ensures provider && HasKey(s) ==> r.calls == [GetBalance(s.sessionKey.value, "pending")]
    ensures !(provider && s.sessionKey.Some? && s.sessionKey.value != "") ==> r.calls == [] && r.state == s.(hasProvider := s.hasProvider || provider)
  {
    var s1 := if provider then s.(hasProvider := true) else s;
    if provider && HasKey(s1) then
      var u := UpdateBalance(s1, env);
      Step(u.state, Ok(()), u.calls)
    else Step(s1, Ok(()), [])
  }

  /** A key read back from storage is used unless it is empty or "0x". */
  predicate UsableStoredKey(k: Option<string>) {
    k.Some? && k.value != "" && k.value != "0x"
  }

  /** The address the create precompile's answer stands for: "0x" and its
      last 40 characters (all of it when shorter). */
  function KeyFromResponse(response: string): (r: string)
    ensures |response| >= 40 ==> |r| == 42 && r[2..] == response[|response| - 40..]
    ensures |response| < 40 ==> r == "0x" + response
    ensures HasRadixPrefix(r, 'x')
  {
    "0x" + SliceFrom(response, -40)
  }

  /** The key `createSessionKey` settles on: the stored one when usable,
      otherwise the one the create precompile answers with. */
  function ObtainKey(env: Env): (r: Found<string>)
    ensures UsableStoredKey(env.storedKey) ==> r == Found(Ok(env.storedKey.value), [])
    ensures !UsableStoredKey(env.storedKey) ==>
      && r.calls == [GetStorageAt(SessionKeyCreate, ZeroSlot)]
      && (r.value.Ok? <==> env.createReply.Ok?)
      && (r.value.Ok? ==> r.value.value == KeyFromResponse(env.createReply.value))
  {
    if UsableStoredKey(env.storedKey) then Found(Ok(env.storedKey.value), [])
    else
      var calls := [GetStorageAt(SessionKeyCreate, ZeroSlot)];
      match env.createReply
      case Err(e) => Found(Err(e), calls)
      case Ok(response) => Found(Ok(KeyFromResponse(response)), calls)
  }

  /** `createSessionKey()`: after the network check, the stored key when
      there is a usable one, otherwise a key created by the create
      precompile; the key is then recorded and its balance refreshed. */
  function CreateSessionKey(s: Session, env: Env): (r: Step<string>)
    ensures r.result.Err? ==> r == Fail(s, r.result.error, r.calls)
    ensures r.result.Ok? <==> s.hasProvider && CheckTenNetwork(env.chainId).Ok? && ObtainKey(env).value.Ok?
    ensures r.result.Ok? ==>
      && r.result.value == ObtainKey(env).value.value
      && r.state.sessionKey == Some(r.result.value) && r.state.error.None? && !r.state.isLoading
      && |r.calls| >= 2
      && r.calls[..|r.calls| - 1] == [ChainId] + ObtainKey(env).calls
      && r.calls[|r.calls| - 1] == GetBalance(r.result.value, "pending")
  {
    if !s.hasProvider then Fail(s, NoProvider, [])
    else CreateChecked(s, env, CheckTenNetwork(env.chainId))
  }

  /** `createSessionKey()` from the network check on, given its verdict. */
  function CreateChecked(s: Session, env: Env, check: Result<(), Failure>): (r: Step<string>)
    requires s.hasProvider
    ensures r.result.Err? ==> r == Fail(s, r.result.error, r.calls)
    ensures r.result.Ok? <==> check.Ok? && ObtainKey(env).value.Ok?
    ensures r.result.Ok? ==>
      && r.result.value == ObtainKey(env).value.value
      && r.state.sessionKey == Some(r.result.value) && r.state.error.None? && !r.state.isLoading
      && |r.calls| >= 2
      && r.calls[..|r.calls| - 1] == [ChainId] + ObtainKey(env).calls
      && r.calls[|r.calls| - 1] == GetBalance(r.result.value, "pending")
  {
    match check
    case Err(e) => Fail(s, e, [ChainId])
    case Ok(_) =>
      var found := ObtainKey(env);
      var calls := [ChainId] + found.calls;
      match found.value
      case Err(e) => Fail(s, e, calls)
      case Ok(key) =>
        assert key != "" by {
          if !UsableStoredKey(env.storedKey) {
            assert HasRadixPrefix(key, 'x');
          }
        }
        RecordKey(s, env, key, calls)
  }

  /** The key is recorded, then its balance refreshed. */
  function RecordKey(s: Session, env: Env, key: string, calls: seq<Call>): (r: Step<string>)
    requires key != "" && s.hasProvider
    ensures r.result == Ok(key)
    ensures r.state.sessionKey == Some(key) && r.state.error.None? && !r.state.isLoading
    ensures |r.calls| == |calls| + 1 && r.calls[..|calls|] == calls
    ensures r.calls[|calls|] == GetBalance(key, "pending")
  {
    var u := UpdateBalance(s.(sessionKey := Some(key), isLoading := false, error := None), env);
    assert (calls + u.calls)[..|calls|] == calls;
    Step(u.state, Ok(key), calls + u.calls)
  }

  lemma CallsSplitLast(calls: seq<Call>)
    requires |calls| > 0
    ensures calls == calls[..|calls| - 1] + [calls[|calls| - 1]]
  {
  }

  /** A usable stored key is reused: the create precompile is asked only
      when there is none. */
  lemma CreateAsksPrecompileOnlyWithoutStoredKey(s: Session, env: Env)
    ensures var r := CreateSessionKey(s, env);
      GetStorageAt(SessionKeyCreate, ZeroSlot) in r.calls <==>
        s.hasProvider && CheckTenNetwork(env.chainId).Ok? && !UsableStoredKey(env.storedKey)
  {
    var r := CreateSessionKey(s, env);
    if s.hasProvider && CheckTenNetwork(env.chainId).Ok? && ObtainKey(env).value.Ok? {
      CallsSplitLast(r.calls);
    }
  }

  /** What a funding receipt poll came to: the receipt arrived or a query
      was rejected, after `queries` queries. */
  datatype Polled = Polled(outcome: Result<(), Failure>, queries: nat)

  /** `checkTx()` from the `n`-th receipt query on, with `fuel` queries
      left: it asks until the answer is a receipt, and a rejected query
      rejects the whole poll. `None` when `fuel` queries were not enough. */
  function AwaitReceipt(env: Env, n: nat, fuel: nat): (r: Option<Polled>)
    ensures r.Some? ==> 1 <= r.value.queries <= fuel
    decreases fuel
  {
    if fuel == 0 then None
    else
      match env.receipt(n)
      case Err(e) => Some(Polled(Err(e), 1))
      case Ok(Some(_)) => Some(Polled(Ok(()), 1))
      case Ok(None) =>
        match AwaitReceipt(env, n + 1, fuel - 1)
        case None => None
        case Some(p) => Some(Polled(p.outcome, p.queries + 1))
  }

  /** A finished poll saw "no receipt yet" on every query but its last;
      the last one brought the receipt or the rejection the poll ends with. */
  lemma {:induction false} AwaitReceiptStops(env: Env, n: nat, fuel: nat)
    requires AwaitReceipt(env, n, fuel).Some?
    ensures var p := AwaitReceipt(env, n, fuel).value;
      && (forall j :: n <= j < n + p.queries - 1 ==> env.receipt(j) == Ok(None))
      && env.receipt(n + p.queries - 1) != Ok(None)
      && (p.outcome.Ok? <==> env.receipt(n + p.queries - 1).Ok?)
      && (p.outcome.Err? ==> env.receipt(n + p.queries - 1) == Err(p.outcome.error))
    decreases fuel
  {
    if env.receipt(n) == Ok(None) {
      AwaitReceiptStops(env, n + 1, fuel - 1);
    }
  }

  /** More fuel does not change a poll that already finished. */
  lemma {:induction false} AwaitReceiptFuel(env: Env, n: nat, f: nat, g: nat)
    requires AwaitReceipt(env, n, f).Some? && f <= g
    ensures AwaitReceipt(env, n, g) == AwaitReceipt(env, n, f)
    decreases f
  {
    if env.receipt(n).Ok? && env.receipt(n).value.None? {
      AwaitReceiptFuel(env, n + 1, f - 1, g - 1);
    }
  }

  /** The poll finishes as soon as one answer is not "no receipt yet". */
  lemma {:induction false} AwaitReceiptFinishes(env: Env, n: nat, k: nat)
    requires forall j :: n <= j < n + k ==> env.receipt(j) == Ok(None)
    requires env.receipt(n + k) != Ok(None)
    ensures AwaitReceipt(env, n, k + 1).Some?
    ensures AwaitReceipt(env, n, k + 1).value.queries == k + 1
    decreases k
  {
    if k > 0 {
      assert env.receipt(n) == Ok(None);
      AwaitReceiptFinishes(env, n + 1, k - 1);
    }
  }

  /** `fundSessionKey(amount, userAddress)`: a transfer of `parseEther(amount)`
      wei from `from` to the session key, then a wait for its receipt.
      `ether` is `parseEther(amount)`, `None` when it throws. `None` as a
      whole when the receipt has not come within `fuel` queries. */
  function FundSessionKey(s: Session, env: Env, ether: Option<int>, from: Sender, fuel: nat): (r: Option<Step<string>>)
    ensures r.Some? && r.value.result.Err? ==> r.value == Fail(s, r.value.result.error, r.value.calls)
    ensures r.Some? && r.value.result.Ok? ==>
      && HasKey(s) && s.hasProvider && CheckTenNetwork(env.chainId).Ok? && ether.Some?
      && env.sendTransaction == Ok(r.value.result.value)
      && r.value.state == s.(isLoading := false, error := None)
      && |r.value.calls| >= 3
      && r.value.calls[1] == SendTransactionRequest(s.sessionKey.value, HexOfInt(ether.value), from)
      && env.receipt(|r.value.calls| - 3).Ok? && env.receipt(|r.value.calls| - 3).value.Some?
      && (forall j :: 0 <= j < |r.value.calls| - 3 ==> env.receipt(j) == Ok(None))
    ensures r.None? ==> HasKey(s) && s.hasProvider && env.sendTransaction.Ok?
  {
    if !HasKey(s) then Some(Fail(s, NoSessionKey, []))
    else if !s.hasProvider then Some(Fail(s, NoProvider, []))
    else FundChecked(s, env, CheckTenNetwork(env.chainId), ether, from, fuel)
  }

  /** Once the checks pass, the second request of a funding is the transfer
      of `ether` wei from `from` to the session key, whatever follows. */
  lemma FundAsksTransfer(s: Session, env: Env, ether: Option<int>, from: Sender, fuel: nat)
    requires HasKey(s) && s.hasProvider && CheckTenNetwork(env.chainId).Ok? && ether.Some?
    requires FundSessionKey(s, env, ether, from, fuel).Some?
    ensures var r := FundSessionKey(s, env, ether, from, fuel).value;
      |r.calls| >= 2 && r.calls[1] == SendTransactionRequest(s.sessionKey.value, HexOfInt(ether.value), from)
  {
    assert FundSessionKey(s, env, ether, from, fuel) == FundChecked(s, env, CheckTenNetwork(env.chainId), ether, from, fuel);
  }

  /** Whatever a funding comes to, a transfer request it makes is sent
      from `from`. */
  lemma FundTransferSender(s: Session, env: Env, ether: Option<int>, from: Sender, fuel: nat)
    ensures var r := FundSessionKey(s, env, ether, from, fuel);
      r.Some? && |r.value.calls| >= 2 && r.value.calls[1].SendTransactionRequest? ==> r.value.calls[1].sender == from
  {
    var r := FundSessionKey(s, env, ether, from, fuel);
    if HasKey(s) && s.hasProvider && CheckTenNetwork(env.chainId).Ok? && ether.Some? && r.Some? {
      FundAsksTransfer(s, env, ether, from, fuel);
    }
  }

  /** `fundSessionKey` from the network check on, given its verdict. */
  function FundChecked(s: Session, env: Env, check: Result<(), Failure>, ether: Option<int>, from: Sender,
                       fuel: nat): (r: Option<Step<string>>)
    requires HasKey(s) && s.hasProvider
    ensures r.Some? && r.value.result.Err? ==> r.value == Fail(s, r.value.result.error, r.value.calls)
    ensures r.Some? && r.value.result.Ok? ==>
      && check.Ok? && ether.Some?
      && env.sendTransaction == Ok(r.value.result.value)
      && r.value.state == s.(isLoading := false, error := None)
      && |r.value.calls| >= 3
      && r.value.calls[1] == SendTransactionRequest(s.sessionKey.value, HexOfInt(ether.value), from)
      && env.receipt(|r.value.calls| - 3).Ok? && env.receipt(|r.value.calls| - 3).value.Some?
      && (forall j :: 0 <= j < |r.value.calls| - 3 ==> env.receipt(j) == Ok(None))
    ensures r.None? ==> env.sendTransaction.Ok?
    ensures r.Some? && check.Ok? && ether.Some? ==>
      |r.value.calls| >= 2 && r.value.calls[1] == SendTransactionRequest(s.sessionKey.value, HexOfInt(ether.value), from)
  {
    match check
    case Err(e) => Some(Fail(s, e, [ChainId]))
    case Ok(_) =>
      match ether
      case None => Some(Fail(s, InvalidNumber, [ChainId]))
      case Some(wei) =>
        var calls := [ChainId, SendTransactionRequest(s.sessionKey.value, HexOfInt(wei), from)];
        match env.sendTransaction
        case Err(e) => Some(Fail(s, e, calls))
        case Ok(hash) => AwaitTransfer(s, env, hash, calls, fuel)
  }

  /** The wait for the funding transfer `hash`, after the requests `calls`. */
  function AwaitTransfer(s: Session, env: Env, hash: string, calls: seq<Call>, fuel: nat): (r: Option<Step<string>>)
    ensures r.Some? ==>
      && |r.value.calls| > |calls|
      && env.receipt(|r.value.calls| - |calls| - 1) != Ok(None)
      && (forall j :: 0 <= j < |r.value.calls| - |calls| - 1 ==> env.receipt(j) == Ok(None))
      && r.value.calls == calls + ReceiptQueries(hash, |r.value.calls| - |calls|)
    ensures r.Some? && r.value.result.Err? ==> r.value == Fail(s, r.value.result.error, r.value.calls)
    ensures r.Some? && r.value.result.Ok? ==>
      && r.value == Step(s.(isLoading := false, error := None), Ok(hash), r.value.calls)
      && env.receipt(|r.value.calls| - |calls| - 1).Ok?
  {
    match AwaitReceipt(env, 0, fuel)
    case None => None
    case Some(p) =>
      AwaitReceiptStops(env, 0, fuel);
      var all := calls + ReceiptQueries(hash, p.queries);
      match p.outcome
      case Err(e) => Some(Fail(s, e, all))
      case Ok(_) => Some(Step(s.(isLoading := false, error := None), Ok(hash), all))
  }

  /** The session key leaves the state only through a confirmed deletion:
      `deleteSessionKey()` after the delete precompile answered. */
  function DeleteSessionKey(s: Session, env: Env): (r: Step<()>)
    ensures r.result.Err? ==> r == Fail(s, r.result.error, r.calls)
    ensures r.result.Ok? <==> HasKey(s) && s.hasProvider && CheckTenNetwork(env.chainId).Ok? && env.deleteReply.Ok?
    ensures r.result.Ok? ==>
      r.state == s.(sessionKey := None, isActive := false, balance := None, isLoading := false, error := None)
    ensures r.result.Ok? ==> r.calls == [ChainId, GetStorageAt(SessionKeyDelete, KeySlot(s.sessionKey.value))]
  {
    if !HasKey(s) then Fail(s, NoSessionKey, [])
    else if !s.hasProvider then Fail(s, NoProvider, [])
    else
      match CheckTenNetwork(env.chainId)
      case Err(e) => Fail(s, e, [ChainId])
      case Ok(_) =>
        var calls := [ChainId, GetStorageAt(SessionKeyDelete, KeySlot(s.sessionKey.value))];
        match env.deleteReply
        case Err(e) => Fail(s, e, calls)
        case Ok(_) => Step(s.(sessionKey := None, isActive := false, balance := None, isLoading := false, error := None), Ok(()), calls)
  }

  /** `cleanupSessionKey()`: like deletion, but asks the delete precompile
      with the zero slot and needs no key. */
  function CleanupSessionKey(s: Session, env: Env): (r: Step<()>)
    ensures r.result.Err? ==> r == Fail(s, r.result.error, r.calls)
    ensures r.result.Ok? <==> s.hasProvider && CheckTenNetwork(env.chainId).Ok? && env.deleteReply.Ok?
    ensures r.result.Ok? ==>
      r.state == s.(sessionKey := None, isActive := false, balance := None, isLoading := false, error := None)
    ensures r.result.Ok? ==> r.calls == [ChainId, GetStorageAt(SessionKeyDelete, ZeroSlot)]
  {
    if !s.hasProvider then Fail(s, NoProvider, [])
    else
      match CheckTenNetwork(env.chainId)
      case Err(e) => Fail(s, e, [ChainId])
      case Ok(_) =>
        var calls := [ChainId, GetStorageAt(SessionKeyDelete, ZeroSlot)];
        match env.deleteReply
        case Err(e) => Fail(s, e, calls)
        case Ok(_) => Step(s.(sessionKey := None, isActive := false, balance := None, isLoading := false, error := None), Ok(()), calls)
  }

  /** The block tag the nonce is read at: the public endpoint's answer when
      it is truthy, otherwise the provider's `eth_blockNumber`. */
  function LatestBlock(env: Env): (r: Found<string>)
    ensures env.directBlockNumber.Some? && env.directBlockNumber.value != "" ==>
      r == Found(Ok(env.directBlockNumber.value), [DirectBlockNumber])
    ensures !(env.directBlockNumber.Some? && env.directBlockNumber.value != "") ==>
      r == Found(env.blockNumber, [DirectBlockNumber, BlockNumber])
  {
    match env.directBlockNumber
    case Some(tag) => if tag != "" then Found(Ok(tag), [DirectBlockNumber]) else Found(env.blockNumber, [DirectBlockNumber, BlockNumber])
    case None => Found(env.blockNumber, [DirectBlockNumber, BlockNumber])
  }

  /** Step 2: the caller's nonce, or the key's transaction count at the
      latest block read with `parseInt(_, 16)` (`None` is `NaN`). */
  function ResolveNonce(env: Env, key: string, given: Option<int>): (r: Found<Option<int>>)
    ensures given.Some? ==> r == Found(Ok(given), [])
    ensures given.None? && r.value.Ok? ==>
      && LatestBlock(env).value.Ok? && env.transactionCount.Ok?
      && r.value.value == ParseInt(env.transactionCount.value, 16)
      && r.calls == LatestBlock(env).calls + [TransactionCount(key, LatestBlock(env).value.value)]
  {
    match given
    case Some(n) => Found(Ok(Some(n)), [])
    case None =>
      var block := LatestBlock(env);
      match block.value
      case Err(e) => Found(Err(e), block.calls)
      case Ok(tag) =>
        var calls := block.calls + [TransactionCount(key, tag)];
        match env.transactionCount
        case Err(e) => Found(Err(e), calls)
        case Ok(hex) => Found(Ok(ParseInt(hex, 16)), calls)
  }

  /** Step 3: the caller's fees when both are truthy (each read by
      `BigInt`, which may throw), otherwise the MEDIUM estimate. */
  function ResolveFees(env: Env, tx: TxParams): (r: Found<GasFees>)
    ensures FeeGiven(tx.maxFeePerGas) && FeeGiven(tx.maxPriorityFeePerGas) ==> r.calls == []
    ensures FeeGiven(tx.maxFeePerGas) && FeeGiven(tx.maxPriorityFeePerGas) && r.value.Ok? ==>
      && FeeValue(tx.maxFeePerGas.value) == Ok(r.value.value.maxFeePerGas)
      && FeeValue(tx.maxPriorityFeePerGas.value) == Ok(r.value.value.maxPriorityFeePerGas)
    ensures !(FeeGiven(tx.maxFeePerGas) && FeeGiven(tx.maxPriorityFeePerGas)) ==>
      r == Found(Ok(CalculateGasFees(env.feeHistory, Medium)), [FeeHistoryCall()])
  {
    if FeeGiven(tx.maxFeePerGas) && FeeGiven(tx.maxPriorityFeePerGas) then
      match FeeValue(tx.maxFeePerGas.value)
      case Err(e) => Found(Err(e), [])
      case Ok(maxFee) =>
        match FeeValue(tx.maxPriorityFeePerGas.value)
        case Err(e) => Found(Err(e), [])
        case Ok(priority) => Found(Ok(GasFees(maxFee, priority)), [])
    else Found(Ok(CalculateGasFees(env.feeHistory, Medium)), [FeeHistoryCall()])
  }

  /** Step 4: the caller's gas limit when truthy, otherwise the provider's
      estimate read with `parseInt(_, 16)` (`None` is `NaN`). */
  function ResolveGasLimit(env: Env, key: string, tx: TxParams): (r: Found<Option<int>>)
    ensures tx.gasLimit.Some? && tx.gasLimit.value != 0 ==> r == Found(Ok(tx.gasLimit), [])
    ensures !(tx.gasLimit.Some? && tx.gasLimit.value != 0) ==>
      && r.calls == [EstimateGas(tx.to, tx.data, if tx.value.Some? && tx.value.value != "" then tx.value.value else "0x0", key)]
      && (r.value.Ok? <==> env.estimateGas.Ok?)
      && (r.value.Ok? ==> r.value.value == ParseInt(env.estimateGas.value, 16))
  {
    if tx.gasLimit.Some? && tx.gasLimit.value != 0 then Found(Ok(tx.gasLimit), [])
    else
      var value := if tx.value.Some? && tx.value.value != "" then tx.value.value else "0x0";
      var calls := [EstimateGas(tx.to, tx.data, value, key)];
      match env.estimateGas
      case Err(e) => Found(Err(e), calls)
      case Ok(hex) => Found(Ok(ParseInt(hex, 16)), calls)
  }

  /** Steps 5-9 once every input is known: the tuple, its RLP encoding in
      the typed envelope, and the execute precompile's answer. A `NaN`
      chain id, nonce or gas limit makes `toHex` throw. */
  function Submit(s: Session, env: Env, key: string, tx: TxParams, chainId: Option<int>,
                  nonce: Option<int>, fees: GasFees, gasLimit: Option<int>, calls: seq<Call>): (r: Step<string>)
    ensures r.result.Err? ==> r == Fail(s, r.result.error, r.calls)
    ensures r.result.Ok? <==> chainId.Some? && nonce.Some? && gasLimit.Some? && env.executeReply.Ok?
    ensures r.result.Ok? ==>
      var tuple := BuildTuple(chainId.value, nonce.value, fees, gasLimit.value, tx.to, tx.value, tx.data);
      && r.calls == calls + [GetStorageAt(SessionKeyExecute, ExecuteSlot(key, Payload(env.rlp(tuple))))]
      && r.result.value == env.executeReply.value
      && r.state == s.(isLoading := false, error := None)
  {
    if chainId.None? || nonce.None? || gasLimit.None? then Fail(s, InvalidNumber, calls)
    else
      var tuple := BuildTuple(chainId.value, nonce.value, fees, gasLimit.value, tx.to, tx.value, tx.data);
      var all := calls + [GetStorageAt(SessionKeyExecute, ExecuteSlot(key, Payload(env.rlp(tuple))))];
      match env.executeReply
      case Err(e) => Fail(s, e, all)
      case Ok(hash) => Step(s.(isLoading := false, error := None), Ok(hash), all)
  }

  /** Steps 2-9 for the key `key`: the nonce, the fees and the gas limit are
      found in this order, each after the previous one succeeded, and the
      transaction built from them is submitted. */
  function SendWithKey(s: Session, env: Env, tx: TxParams, key: string, chainId: Option<int>,
                       calls: seq<Call>): (r: Step<string>)
    ensures r.result.Err? ==> r == Fail(s, r.result.error, r.calls)
    ensures r.result.Ok? ==>
      var nonce, fees, gas := ResolveNonce(env, key, tx.nonce), ResolveFees(env, tx), ResolveGasLimit(env, key, tx);
      && nonce.value.Ok? && fees.value.Ok? && gas.value.Ok?
      && r == Submit(s, env, key, tx, chainId, nonce.value.value, fees.value.value, gas.value.value,
                     calls + nonce.calls + fees.calls + gas.calls)
  {
    var nonce := ResolveNonce(env, key, tx.nonce);
    var c1 := calls + nonce.calls;
    match nonce.value
    case Err(e) => Fail(s, e, c1)
    case Ok(n) =>
      var fees := ResolveFees(env, tx);
      var c2 := c1 + fees.calls;
      match fees.value
      case Err(e) => Fail(s, e, c2)
      case Ok(f) =>
        var gas := ResolveGasLimit(env, key, tx);
        var c3 := c2 + gas.calls;
        match gas.value
        case Err(e) => Fail(s, e, c3)
        case Ok(g) => Submit(s, env, key, tx, chainId, n, f, g, c3)
  }

  /** The second `eth_chainId` request of `sendTransaction`, read with
      `parseInt(_, 16)`: a failed request fails, and an answer that would
      pass the network check reads as the TEN chain id. */
  function ChainIdAnswer(reply: Reply<string>): (r: Reply<Option<int>>)
    ensures reply.Err? ==> r == Err(reply.error)
    ensures reply.Ok? ==> r.Ok? && (r.value.Some? <==> ParseInt(reply.value, 16).Some?)
    ensures CheckTenNetwork(reply).Ok? ==> r == Ok(Some(TenChainId))
  {
    match reply
    case Err(e) => Err(e)
    case Ok(hex) => Ok(ParseInt(hex, 16))
  }

  /** `sendTransaction(txParams)`: the network check, the key, a second
      chain id request, the nonce, the fees and the gas limit, then
      submission through the execute precompile. The transaction carries
      the chain id of the second answer, which is not checked again. */
  function SendTransaction(s: Session, env: Env, tx: TxParams): (r: Step<string>)
    ensures r.result.Err? ==> r == Fail(s, r.result.error, r.calls)
    ensures r.result.Ok? ==>
      && s.hasProvider && CheckTenNetwork(env.chainId).Ok? && HasKey(s) && env.secondChainId.Ok?
      && r == SendWithKey(s, env, tx, s.sessionKey.value, ParseInt(env.secondChainId.value, 16), [ChainId, ChainId])
  {
    if !s.hasProvider then Fail(s, NoProvider, [])
    else SendChecked(s, env, tx, CheckTenNetwork(env.chainId), ChainIdAnswer(env.secondChainId))
  }

  /** `sendTransaction` from the network check on, given its verdict and
      the answer to the second chain id request. */
  function SendChecked(s: Session, env: Env, tx: TxParams, check: Result<(), Failure>,
                       chainId: Reply<Option<int>>): (r: Step<string>)
    ensures r.result.Err? ==> r == Fail(s, r.result.error, r.calls)
    ensures r.result.Ok? ==>
      && check.Ok? && HasKey(s) && chainId.Ok?
      && r == SendWithKey(s, env, tx, s.sessionKey.value, chainId.value, [ChainId, ChainId])
  {
    match check
    case Err(e) => Fail(s, e, [ChainId])
    case Ok(_) =>
      if !HasKey(s) then Fail(s, NoSessionKey, [ChainId])
      else
        match chainId
        case Err(e) => Fail(s, e, [ChainId, ChainId])
        case Ok(c) => SendWithKey(s, env, tx, s.sessionKey.value, c, [ChainId, ChainId])
  }

  /** What a successful `sendTransaction` submits: the execute precompile
      receives the session key and a base 64 text that decodes to the type
      byte 2 followed by the RLP encoding of an unsigned transaction for
      the chain of the second chain id answer, with an empty access list and
      empty signature. That chain is TEN's when the second answer would
      itself pass the network check. */
  lemma SendTransactionSubmitsEnvelope(s: Session, env: Env, tx: TxParams)
    requires SendTransaction(s, env, tx).result.Ok?
    ensures env.secondChainId.Ok? && ParseInt(env.secondChainId.value, 16).Some?
    ensures CheckTenNetwork(env.secondChainId).Ok? ==> ParseInt(env.secondChainId.value, 16) == Some(TenChainId)
    ensures var r := SendTransaction(s, env, tx);
      && |r.calls| >= 3 && r.calls[0] == ChainId && r.calls[1] == ChainId
      && r.calls[|r.calls| - 1].GetStorageAt? && r.calls[|r.calls| - 1].address == SessionKeyExecute
      && r.calls[|r.calls| - 1].slot.ExecuteSlot? && r.calls[|r.calls| - 1].slot.sessionKeyAddress == s.sessionKey.value
      && exists t: seq<RlpItem> ::
           && |t| == 12 && t[0] == Str(HexOfInt(ParseInt(env.secondChainId.value, 16).value)) && t[8..] == Trailer
           && Base64.Decode(r.calls[|r.calls| - 1].slot.tx) == Some([2] + env.rlp(t))
  {
    var r := SendTransaction(s, env, tx);
    var key := s.sessionKey.value;
    var chainId := ParseInt(env.secondChainId.value, 16);
    var nonce, fees, gas := ResolveNonce(env, key, tx.nonce), ResolveFees(env, tx), ResolveGasLimit(env, key, tx);
    var prefix := [ChainId, ChainId] + nonce.calls + fees.calls + gas.calls;
    SubmitsEnvelope(s, env, key, tx, chainId, nonce.value.value, fees.value.value, gas.value.value, prefix);
    var sub := Submit(s, env, key, tx, chainId, nonce.value.value, fees.value.value, gas.value.value, prefix);
    assert r == sub;
    FrontOfConcat([ChainId, ChainId], nonce.calls, fees.calls, gas.calls);
    assert sub.calls[0] == sub.calls[..|prefix|][0] && sub.calls[1] == sub.calls[..|prefix|][1];
  }

  lemma FrontOfConcat<T>(a: seq<T>, b: seq<T>, c: seq<T>, d: seq<T>)
    requires |a| == 2
    ensures |a + b + c + d| >= 2 && (a + b + c + d)[0] == a[0] && (a + b + c + d)[1] == a[1]
  {
  }

  /** A successful submission adds one request: the execute precompile
      with the key and the base 64 text of the typed envelope of a tuple
      carrying the chain id. */
  lemma SubmitsEnvelope(s: Session, env: Env, key: string, tx: TxParams, chainId: Option<int>,
                        nonce: Option<int>, fees: GasFees, gasLimit: Option<int>, calls: seq<Call>)
    requires Submit(s, env, key, tx, chainId, nonce, fees, gasLimit, calls).result.Ok?
    ensures var r := Submit(s, env, key, tx, chainId, nonce, fees, gasLimit, calls);
      && |r.calls| == |calls| + 1 && r.calls[..|calls|] == calls
      && r.calls[|calls|].GetStorageAt? && r.calls[|calls|].address == SessionKeyExecute
      && r.calls[|calls|].slot.ExecuteSlot? && r.calls[|calls|].slot.sessionKeyAddress == key
      && exists t: seq<RlpItem> ::
           && |t| == 12 && t[0] == Str(HexOfInt(chainId.value)) && t[8..] == Trailer
           && Base64.Decode(r.calls[|calls|].slot.tx) == Some([2] + env.rlp(t))
  {
    var t := BuildTuple(chainId.value, nonce.value, fees, gasLimit.value, tx.to, tx.value, tx.data);
    assert t[0] == t[..5][0];
    var r := Submit(s, env, key, tx, chainId, nonce, fees, gasLimit, calls);
    assert r.calls[..|calls|] == calls;
  }

}
