/** The session-key manager store (`useSessionKeyManagerStore`): the user
    actions on top of the session-key store — start, fund, withdraw, the
    withdraw-then-delete saga — and the flags the interface shows while
    they run. An action sees both stores; the manager snapshots it
    publishes are recorded in order, since the interface renders each. */
module SessionKeyManager {
  import opened Outcomes
  import opened JsText
  import opened Encoding
  import opened Helpers
  import opened Sorting
  import opened Transaction
  import opened Provider
  import opened SessionKeyStore

  /** Wei kept back for gas when withdrawing: 0.0002 ether. */
  const GasReserve: int := 200000000000000

  /** Receipt queries `waitForConfirmation` makes at most. */
  const ConfirmationAttempts: nat := 30

  /** The receipt status of a successful transaction. */
  const SuccessStatus: string := "0x1"

  datatype DeletionState = Idle | Active | Withdrawing | Deleting | Completed | Error

  datatype Manager = Manager(isRefreshingBalance: bool, balance: real, deletionState: DeletionState, isTransacting: bool)

  const InitialManager: Manager := Manager(false, 0.0, Idle, false)

  /** What the user typed as an amount, with what `parseFloat` and
      `parseEther` make of it (`None`: `NaN`, or `parseEther` throws). */
  datatype Amount = Amount(text: string, float: Option<real>, ether: Option<int>)

  /** `amount` left out (`undefined`), read like the empty text. */
  const NoAmount: Amount := Amount("", None, None)

  /** The `alert(...)` a rejected action shows. */
  datatype Alert = ConnectWalletFirst | StartSessionFirst | EnterValidAmount

  /** What a manager action leaves behind: both stores, the requests made,
      every manager state it set in order, the alert it raised, and whether
      it scheduled a later balance refresh. */
  datatype Run = Run(session: Session, manager: Manager, calls: seq<Call>,
                     published: seq<Manager>, alert: Option<Alert>, refreshScheduled: bool)

  /** The action returned at a guard: nothing changed. */
  function Rejected(s: Session, m: Manager, alert: Option<Alert>): (r: Run)
    ensures r.session == s && r.manager == m && r.calls == [] && r.published == [] && !r.refreshScheduled
  {
    Run(s, m, [], [], alert, false)
  }

  /** `!provider || !isConnected || !address`. */
  predicate Connected(provider: bool, address: string, isConnected: bool) {
    provider && isConnected && address != ""
  }

  /** `!amount || parseFloat(amount) <= 0` fails; a `NaN` reading passes. */
  predicate ValidAmount(a: Amount)
    ensures a.text == "" ==> !ValidAmount(a)
    ensures a.text != "" && a.float.None? ==> ValidAmount(a)
    ensures a.text != "" && a.float.Some? ==> (ValidAmount(a) <==> a.float.value > 0.0)
  {
    a.text != "" && !(a.float.Some? && a.float.value <= 0.0)
  }

  /** The state of the deletion saga each published snapshot shows. */
  function DeletionStates(published: seq<Manager>): seq<DeletionState> {
    MapSeq((m: Manager) => m.deletionState, published)
  }

  /** How one receipt answer ends `waitForConfirmation`: `None` to keep
      waiting (no receipt yet, or the query was rejected), otherwise whether
      the receipt reports success. */
  function Verdict(reply: Reply<Option<Receipt>>): Option<bool> {
    match reply
    case Ok(Some(receipt)) => Some(receipt.status == SuccessStatus)
    case _ => None
  }

  /** No verdict among the first `k` receipt answers. */
  predicate Pending(env: Env, k: nat) {
    forall j :: 0 <= j < k ==> Verdict(env.receipt(j)).None?
  }

  /** `waitForConfirmation()` from query `i` on: whether the transaction was
      confirmed, and how many queries were made in all. It ends at the first
      receipt, with its status, or after the 30th query with `false`. */
  function Confirmation(env: Env, i: nat): (r: (bool, nat))
    requires i <= ConfirmationAttempts && Pending(env, i)
    ensures 1 <= r.1 <= ConfirmationAttempts && i <= r.1
    ensures r.0 ==> r.1 >= 1 && Verdict(env.receipt(r.1 - 1)) == Some(true) && Pending(env, r.1 - 1)
    ensures !r.0 ==> (r.1 == ConfirmationAttempts && Pending(env, ConfirmationAttempts))
                     || (r.1 >= 1 && Verdict(env.receipt(r.1 - 1)) == Some(false) && Pending(env, r.1 - 1))
    decreases ConfirmationAttempts - i
  {
    if i == ConfirmationAttempts then (false, ConfirmationAttempts)
    else
      match Verdict(env.receipt(i))
      case Some(ok) => (ok, i + 1)
      case None => Confirmation(env, i + 1)
  }

  /** A query without a verdict extends the pending prefix by one, and
      the poll carries on from the next query. */
  lemma PendingStep(env: Env, i: nat)
    requires i < ConfirmationAttempts && Pending(env, i) && Verdict(env.receipt(i)).None?
    ensures Pending(env, i + 1)
    ensures Confirmation(env, i) == Confirmation(env, i + 1)
  {
  }

  /** The `for` loop of `waitForConfirmation`. */
  method WaitForConfirmation(env: Env) returns (confirmed: bool, queries: nat)
    ensures (confirmed, queries) == Confirmation(env, 0)
    ensures 1 <= queries <= ConfirmationAttempts
  {
    var i := 0;
    while i < ConfirmationAttempts
      invariant 0 <= i <= ConfirmationAttempts
      invariant Pending(env, i)
      invariant Confirmation(env, i) == Confirmation(env, 0)
      decreases ConfirmationAttempts - i
    {
      var verdict := Verdict(env.receipt(i));
      if verdict.Some? {
        confirmed, queries := verdict.value, i + 1;
        return;
      }
      PendingStep(env, i);
      i := i + 1;
    }
    confirmed, queries := false, ConfirmationAttempts;
  }

  /** What `withdrawFromSessionKey` decides to send given the balance in wei:
      `Ok(None)` to send nothing, `Ok(Some(v))` to send `v` wei. With an
      amount, `floor(parseFloat(amount) * 1e18)` must leave the reserve;
      without one, everything above the reserve is swept. */
  function WithdrawalValue(balance: int, amount: Amount): (r: Result<Option<int>, Failure>)
    ensures r.Ok? && r.value.Some? ==> r.value.value + GasReserve <= balance
    ensures amount.text == "" ==> r.Ok?
    ensures amount.text == "" ==> (r.value.None? <==> balance <= GasReserve)
    ensures amount.text == "" && r.value.Some? ==> r.value.value == balance - GasReserve && r.value.value > 0
    ensures amount.text != "" ==> r != Ok(None)
    ensures amount.text != "" && amount.float.None? ==> r == Err(InvalidNumber)
    ensures amount.text != "" && amount.float.Some? ==>
      var wei := (amount.float.value * WeiPerEther as real).Floor;
      (r.Ok? <==> balance >= wei + GasReserve)
      && (r.Ok? ==> r.value == Some(wei))
      && (r.Err? ==> r.error == InsufficientBalance(balance, wei + GasReserve))
  {
    if amount.text != "" then
      match amount.float
      case None => Err(InvalidNumber)
      case Some(x) =>
        var wei := (x * WeiPerEther as real).Floor;
        if balance < wei + GasReserve then Err(InsufficientBalance(balance, wei + GasReserve))
        else Ok(Some(wei))
    else if balance <= GasReserve then Ok(None)
    else Ok(Some(balance - GasReserve))
  }

  /** The transfer a withdrawal sends: `value` wei to the recipient, every
      other parameter left for `sendTransaction` to find. */
  function WithdrawalTx(recipient: string, value: int): (tx: TxParams)
    ensures tx.to == recipient && tx.value == Some(HexOfInt(value)) && tx.data.None? && tx.nonce.None?
    ensures !FeeGiven(tx.maxFeePerGas) && tx.gasLimit.None?
  {
    TxParams(recipient, None, Some(HexOfInt(value)), None, None, None, None)
  }

  /** `withdrawFromSessionKey(provider, recipient, amount)`: reads the key's
      balance, sends what `WithdrawalValue` decides through `sendTransaction`
      and waits for the receipt. It resolves to `true` or rejects; the
      session state changes only through `sendTransaction`. */
  function WithdrawFromSessionKey(s: Session, env: Env, provider: bool, recipient: string, amount: Amount): (r: Step<bool>)
    ensures r.result.Ok? ==> r.result.value
    ensures r.state.sessionKey == s.sessionKey
    ensures !HasKey(s) ==> r == Step(s, Err(NoSessionKey), [])
    ensures r.result.Ok? ==> HasKey(s) && provider && env.balance.Ok? && BigIntOfString(env.balance.value).Some?
    ensures r.result.Ok? ==> WithdrawalValue(BigIntOfString(env.balance.value).value, amount).Ok?
    ensures r.result.Ok? && WithdrawalValue(BigIntOfString(env.balance.value).value, amount) == Ok(None) ==>
      r == Step(s, Ok(true), [GetBalance(s.sessionKey.value, "pending")])
  {
    if !HasKey(s) then Step(s, Err(NoSessionKey), [])
    else if !provider then Step(s, Err(NoProvider), [])
    else
      var calls := [GetBalance(s.sessionKey.value, "pending")];
      match env.balance
      case Err(e) => Step(s, Err(e), calls)
      case Ok(hex) =>
        match BigIntOfString(hex)
        case None => Step(s, Err(InvalidNumber), calls)
        case Some(balance) =>
          match WithdrawalValue(balance, amount)
          case Err(e) => Step(s, Err(e), calls)
          case Ok(None) => Step(s, Ok(true), calls)
          case Ok(Some(value)) => AfterTransfer(env, calls, SendTransaction(s, env, WithdrawalTx(recipient, value)))
  }

  /** The withdrawal once `sendTransaction` has settled as `sent`: a
      submitted transfer is polled for its receipt. */
  function AfterTransfer(env: Env, calls: seq<Call>, sent: Step<string>): (r: Step<bool>)
    ensures r.state == sent.state
    ensures r.result.Ok? <==> sent.result.Ok? && Confirmation(env, 0).0
    ensures r.result.Ok? ==> r.result.value
    ensures sent.result.Err? ==> r.result == Err(sent.result.error) && r.calls == calls + sent.calls
    ensures sent.result.Ok? ==> r.calls == calls + sent.calls + ReceiptQueries(sent.result.value, Confirmation(env, 0).1)
  {
    match sent.result
    case Err(e) => Step(sent.state, Err(e), calls + sent.calls)
    case Ok(hash) =>
      var (confirmed, queries) := Confirmation(env, 0);
      var all := calls + sent.calls + ReceiptQueries(hash, queries);
      if confirmed then Step(sent.state, Ok(true), all)
      else Step(sent.state, Err(WithdrawalNotConfirmed), all)
  }

  /** A successful withdrawal of `value` wei is the balance query, the
      transfer `sendTransaction` submitted and the receipt queries of a
      confirmed poll. */
  lemma WithdrawSendsTransfer(s: Session, env: Env, provider: bool, recipient: string, amount: Amount, balance: int, value: int)
    requires env.balance.Ok? && BigIntOfString(env.balance.value) == Some(balance)
    requires WithdrawalValue(balance, amount) == Ok(Some(value))
    requires WithdrawFromSessionKey(s, env, provider, recipient, amount).result.Ok?
    ensures var r := WithdrawFromSessionKey(s, env, provider, recipient, amount);
      var sent := SendTransaction(s, env, WithdrawalTx(recipient, value));
      && sent.result.Ok? && r.state == sent.state
      && Confirmation(env, 0).0
      && r.calls == [GetBalance(s.sessionKey.value, "pending")] + sent.calls
                    + ReceiptQueries(sent.result.value, Confirmation(env, 0).1)
  {
    assert WithdrawFromSessionKey(s, env, provider, recipient, amount) ==
      AfterTransfer(env, [GetBalance(s.sessionKey.value, "pending")], SendTransaction(s, env, WithdrawalTx(recipient, value)));
  }

  /** The execute precompile is asked to send only when the balance was
      read and `WithdrawalValue` decided on a transfer. */
  lemma WithdrawExecutesOnlyTransfer(s: Session, env: Env, provider: bool, recipient: string, amount: Amount, c: Call)
    requires c in WithdrawFromSessionKey(s, env, provider, recipient, amount).calls
    requires c.GetStorageAt? && c.address == SessionKeyExecute
    ensures HasKey(s) && provider && env.balance.Ok? && BigIntOfString(env.balance.value).Some?
    ensures WithdrawalValue(BigIntOfString(env.balance.value).value, amount).Ok?
    ensures WithdrawalValue(BigIntOfString(env.balance.value).value, amount).value.Some?
  {
  }

  /** `withdrawFromSessionKey` never reports `false`: the `!withdrawalSuccess`
      branch of `confirmDeleteSession` cannot be taken. */
  lemma WithdrawNeverFalse(s: Session, env: Env, provider: bool, recipient: string, amount: Amount)
    ensures WithdrawFromSessionKey(s, env, provider, recipient, amount) != Step(s, Ok(false), [])
    ensures WithdrawFromSessionKey(s, env, provider, recipient, amount).result != Ok(false)
  {
  }

  /** `confirmDeleteSession(provider, address, isConnected)`: ACTIVE, then
      WITHDRAWING while everything above the reserve is sent back to
      `address`, then DELETING while the key is deleted, then COMPLETED; any
      rejection ends the saga in ERROR. It never rejects itself. The
      provider answers the withdrawal as `env` and the deletion, which asks
      for the chain id again, as `later`. */
  function ConfirmDeleteSession(s: Session, m: Manager, env: Env, later: Env, provider: bool, address: string, isConnected: bool): (r: Run)
    ensures !Connected(provider, address, isConnected) ==> r == Rejected(s, m, None)
    ensures Connected(provider, address, isConnected) ==>
      && |r.published| >= 3
      && r.published[0] == m.(deletionState := Active)
      && r.published[1] == m.(deletionState := Withdrawing)
      && r.manager == r.published[|r.published| - 1]
      && r.manager == m.(deletionState := r.manager.deletionState)
    ensures Connected(provider, address, isConnected) ==>
      DeletionStates(r.published) in {[Active, Withdrawing, Error], [Active, Withdrawing, Deleting, Error],
                                      [Active, Withdrawing, Deleting, Completed]}
    ensures Connected(provider, address, isConnected) ==>
      (r.manager.deletionState == Completed <==>
        && WithdrawFromSessionKey(s, env, true, address, NoAmount).result.Ok?
        && DeleteSessionKey(WithdrawFromSessionKey(s, env, true, address, NoAmount).state, later).result.Ok?)
    ensures Connected(provider, address, isConnected) && r.manager.deletionState == Completed ==>
      r.session.sessionKey.None?
    ensures Connected(provider, address, isConnected) && r.manager.deletionState == Error ==>
      r.session.sessionKey == s.sessionKey
    ensures r.alert.None? && !r.refreshScheduled
  {
    if !Connected(provider, address, isConnected) then Rejected(s, m, None)
    else
      var w := WithdrawFromSessionKey(s, env, true, address, NoAmount);
      AfterWithdrawal(m, w, DeleteSessionKey(w.state, later))
  }

  /** The saga once the withdrawal `w` has settled; `d` is what the
      deletion that follows a successful withdrawal comes to. */
  function AfterWithdrawal(m: Manager, w: Step<bool>, d: Step<()>): (r: Run)
    requires d.result.Err? ==> d.state.sessionKey == w.state.sessionKey
    requires d.result.Ok? ==> d.state.sessionKey.None?
    ensures |r.published| >= 3
    ensures r.published[0] == m.(deletionState := Active) && r.published[1] == m.(deletionState := Withdrawing)
    ensures r.manager == r.published[|r.published| - 1] && r.manager == m.(deletionState := r.manager.deletionState)
    ensures DeletionStates(r.published) in {[Active, Withdrawing, Error], [Active, Withdrawing, Deleting, Error],
                                            [Active, Withdrawing, Deleting, Completed]}
    ensures r.manager.deletionState == Completed <==> w.result == Ok(true) && d.result.Ok?
    ensures r.manager.deletionState == Completed ==> r.session.sessionKey.None?
    ensures r.manager.deletionState == Error ==> r.session.sessionKey == w.state.sessionKey
    ensures (Deleting in DeletionStates(r.published)) <==> w.result == Ok(true)
    ensures r.alert.None? && !r.refreshScheduled
  {
    var active := m.(deletionState := Active);
    var withdrawing := m.(deletionState := Withdrawing);
    var failed := m.(deletionState := Error);
    assert DeletionStates([active, withdrawing, failed]) == [Active, Withdrawing, Error];
    match w.result
    case Err(_) => Run(w.state, failed, w.calls, [active, withdrawing, failed], None, false)
    case Ok(success) =>
      if !success then
        Run(w.state.(error := Some(WithdrawalRefused), isLoading := false), failed, w.calls,
            [active, withdrawing, failed], None, false)
      else AfterDeletion(m, w, d)
  }

  /** The saga's end once the withdrawal succeeded and the deletion `d` has
      settled. */
  function AfterDeletion(m: Manager, w: Step<bool>, d: Step<()>): (r: Run)
    requires d.result.Err? ==> d.state.sessionKey == w.state.sessionKey
    requires d.result.Ok? ==> d.state.sessionKey.None?
    ensures r.published == [m.(deletionState := Active), m.(deletionState := Withdrawing),
                            m.(deletionState := Deleting), r.manager]
    ensures r.manager == m.(deletionState := if d.result.Ok? then Completed else Error)
    ensures DeletionStates(r.published) == [Active, Withdrawing, Deleting, r.manager.deletionState]
    ensures r.session == d.state && r.calls == w.calls + d.calls
    ensures r.alert.None? && !r.refreshScheduled
  {
    var last := m.(deletionState := if d.result.Ok? then Completed else Error);
    var published := [m.(deletionState := Active), m.(deletionState := Withdrawing), m.(deletionState := Deleting), last];
    assert DeletionStates(published) == [Active, Withdrawing, Deleting, last.deletionState];
    Run(d.state, last, w.calls + d.calls, published, None, false)
  }

  /** The delete precompile is asked only after the withdrawal succeeded,
      so a session key still holding more than the reserve is never
      deleted by the saga. */
  lemma DeleteOnlyAfterWithdrawal(s: Session, m: Manager, env: Env, later: Env, address: string)
    requires Deleting in DeletionStates(ConfirmDeleteSession(s, m, env, later, true, address, true).published)
    ensures WithdrawFromSessionKey(s, env, true, address, NoAmount).result == Ok(true)
  {
  }

  /** A wallet that leaves the TEN network after a successful withdrawal
      fails the deletion's own network check: the saga reaches DELETING and
      ends in ERROR, keeping the key. */
  lemma NetworkSwitchFailsDeletion(s: Session, m: Manager, env: Env, later: Env, address: string)
    requires address != ""
    requires WithdrawFromSessionKey(s, env, true, address, NoAmount).result == Ok(true)
    requires CheckTenNetwork(later.chainId).Err?
    ensures var r := ConfirmDeleteSession(s, m, env, later, true, address, true);
      && DeletionStates(r.published) == [Active, Withdrawing, Deleting, Error]
      && r.session.sessionKey == s.sessionKey
  {
    var w := WithdrawFromSessionKey(s, env, true, address, NoAmount);
    var d := DeleteSessionKey(w.state, later);
    assert d.result.Err?;
  }

  /** `updateSessionKeyBalance(provider)`: with a key and no refresh under
      way, the refreshing flag is raised, the balance (0 when unknown) is
      stored, and the flag is lowered; otherwise nothing happens. */
  function UpdateSessionKeyBalance(s: Session, m: Manager, env: Env): (r: Run)
    ensures !HasKey(s) || m.isRefreshingBalance ==> r == Rejected(s, m, None)
    ensures HasKey(s) && !m.isRefreshingBalance ==>
      && |r.published| == 3
      && r.published[0].isRefreshingBalance && r.published[1].isRefreshingBalance
      && !r.published[2].isRefreshingBalance && r.manager == r.published[2]
      && r.session == UpdateBalance(s, env).state
      && r.manager == m.(balance := r.manager.balance)
      && (UpdateBalance(s, env).result.value.Some? ==> r.manager.balance == UpdateBalance(s, env).result.value.value.eth)
      && (UpdateBalance(s, env).result.value.None? ==> r.manager.balance == 0.0)
    ensures r.alert.None? && !r.refreshScheduled
  {
    if !HasKey(s) || m.isRefreshingBalance then Rejected(s, m, None)
    else
      var refreshing := m.(isRefreshingBalance := true);
      var u := UpdateBalance(s, env);
      var stored := refreshing.(balance := match u.result.value case Some(b) => b.eth case None => 0.0);
      var done := stored.(isRefreshingBalance := false);
      Run(u.state, done, u.calls, [refreshing, stored, done], None, false)
  }

  /** The refreshing flag makes the refresh single-flight: a second
      refresh that starts from any state published while one is under way
      does nothing, and once it has ended the next refresh with a key runs
      again. */
  lemma RefreshIsSingleFlight(s: Session, m: Manager, env: Env, s2: Session, env2: Env)
    requires HasKey(s) && !m.isRefreshingBalance
    ensures var r := UpdateSessionKeyBalance(s, m, env);
      && UpdateSessionKeyBalance(s2, r.published[0], env2) == Rejected(s2, r.published[0], None)
      && UpdateSessionKeyBalance(s2, r.published[1], env2) == Rejected(s2, r.published[1], None)
      && (HasKey(s2) ==> |UpdateSessionKeyBalance(s2, r.manager, env2).published| == 3)
  {
  }

  /** `startSession(provider, isConnected)`: creates (or reuses) the session
      key. The later balance refresh is scheduled only when a key was
      already present before the call, since the callback tests the key
      read at the start. */
  function StartSession(s: Session, m: Manager, env: Env, provider: bool, isConnected: bool): (r: Run)
    ensures !(provider && isConnected) ==> r == Rejected(s, m, Some(ConnectWalletFirst))
    ensures provider && isConnected ==>
      && r.manager == m && r.published == [] && r.alert.None?
      && r.session == CreateSessionKey(s, env).state
      && r.calls == CreateSessionKey(s, env).calls
      && (r.refreshScheduled <==> CreateSessionKey(s, env).result.Ok? && HasKey(s))
  {
    if !(provider && isConnected) then Rejected(s, m, Some(ConnectWalletFirst))
    else
      var c := CreateSessionKey(s, env);
      match c.result
      case Err(e) => Run(c.state.(error := Some(e), isLoading := false), m, c.calls, [], None, false)
      case Ok(_) => Run(c.state, m, c.calls, [], None, HasKey(s))
  }

  /** Starting a session on a store without a key never schedules the
      balance refresh, even when the key is created. */
  lemma FreshStartSchedulesNoRefresh(s: Session, m: Manager, env: Env)
    requires !HasKey(s)
    ensures !StartSession(s, m, env, true, true).refreshScheduled
  {
  }

  /** The guards shared by `fundSession` and `withdrawAmountAction`; `None`
      when the action may go ahead. */
  function AmountActionGuard(s: Session, provider: bool, address: string, isConnected: bool, amount: Amount): (r: Option<Alert>)
    ensures r.None? <==> Connected(provider, address, isConnected) && HasKey(s) && ValidAmount(amount)
  {
    if !Connected(provider, address, isConnected) then Some(ConnectWalletFirst)
    else if !HasKey(s) then Some(StartSessionFirst)
    else if !ValidAmount(amount) then Some(EnterValidAmount)
    else None
  }

  /** `fundSession(fundAmount, provider, address, isConnected)` with the
      funding transfer sent from `sender`; `None` when the receipt has not
      come within `fuel` queries. `isTransacting` is raised around the
      transfer, and a failure is recorded in the session store. */
  function FundSessionFrom(s: Session, m: Manager, env: Env, amount: Amount, provider: bool, address: string,
                           isConnected: bool, sender: Sender, fuel: nat): (r: Option<Run>)
    ensures AmountActionGuard(s, provider, address, isConnected, amount).Some? ==>
      r == Some(Rejected(s, m, AmountActionGuard(s, provider, address, isConnected, amount)))
    ensures AmountActionGuard(s, provider, address, isConnected, amount).None? ==>
      (r.None? <==> FundSessionKey(s, env, amount.ether, sender, fuel).None?)
    ensures AmountActionGuard(s, provider, address, isConnected, amount).None? && r.Some? ==>
      var f := FundSessionKey(s, env, amount.ether, sender, fuel).value;
      && r.value.published == [m.(isTransacting := true), m.(isTransacting := false)]
      && r.value.manager == m.(isTransacting := false)
      && r.value.calls == f.calls
      && r.value.refreshScheduled == f.result.Ok?
      && r.value.session == f.state
  {
    match AmountActionGuard(s, provider, address, isConnected, amount)
    case Some(alert) => Some(Rejected(s, m, Some(alert)))
    case None =>
      var transacting := m.(isTransacting := true);
      var settled := m.(isTransacting := false);
      match FundSessionKey(s, env, amount.ether, sender, fuel)
      case None => None
      case Some(f) =>
        var session := if f.result.Err? then f.state.(error := Some(f.result.error), isLoading := false) else f.state;
        Some(Run(session, settled, f.calls, [transacting, settled], None, f.result.Ok?))
  }

  /** `fundSession` as written: `fundSessionKey(fundAmount, provider, address)`
      lands the provider object in the `userAddress` parameter, so the
      transfer's `from` is the provider, not the connected address. */
  function FundSessionAsWritten(s: Session, m: Manager, env: Env, amount: Amount, provider: bool, address: string,
                                isConnected: bool, fuel: nat): (r: Option<Run>)
    ensures AmountActionGuard(s, provider, address, isConnected, amount).Some? ==> TransferOf(r).None?
    ensures TransferOf(r).Some? ==> TransferOf(r).value.sender == FromProvider
  {
    FundTransferSender(s, env, amount.ether, FromProvider, fuel);
    FundSessionFrom(s, m, env, amount, provider, address, isConnected, FromProvider, fuel)
  }

  /** `fundSession` as intended: the transfer is sent from the connected
      address. */
  function FundSession(s: Session, m: Manager, env: Env, amount: Amount, provider: bool, address: string,
                       isConnected: bool, fuel: nat): (r: Option<Run>)
    ensures AmountActionGuard(s, provider, address, isConnected, amount).Some? ==> TransferOf(r).None?
    ensures TransferOf(r).Some? ==> TransferOf(r).value.sender == FromAddress(address)
  {
    FundTransferSender(s, env, amount.ether, FromAddress(address), fuel);
    FundSessionFrom(s, m, env, amount, provider, address, isConnected, FromAddress(address), fuel)
  }

  /** The transfer request `fundSession` makes, if it makes one. */
  function TransferOf(r: Option<Run>): (c: Option<Call>)
    ensures c.Some? ==> c.value.SendTransactionRequest?
  {
    if r.Some? && |r.value.calls| >= 2 && r.value.calls[1].SendTransactionRequest? then Some(r.value.calls[1]) else None
  }

  /** As written, a funding transfer that goes out names the provider object
      as its sender: the wallet is never asked to send from `address`. */
  lemma FundSessionAsWrittenSendsFromProvider(s: Session, m: Manager, env: Env, amount: Amount, address: string, fuel: nat)
    requires HasKey(s) && s.hasProvider && CheckTenNetwork(env.chainId).Ok? && amount.ether.Some?
    requires AmountActionGuard(s, true, address, true, amount).None?
    requires FundSessionAsWritten(s, m, env, amount, true, address, true, fuel).Some?
    ensures TransferOf(FundSessionAsWritten(s, m, env, amount, true, address, true, fuel)) ==
      Some(SendTransactionRequest(s.sessionKey.value, HexOfInt(amount.ether.value), FromProvider))
    ensures TransferOf(FundSessionAsWritten(s, m, env, amount, true, address, true, fuel)).value.sender != FromAddress(address)
  {
    FundAsksTransfer(s, env, amount.ether, FromProvider, fuel);
  }

  /** Corrected, the transfer moves `parseEther(fundAmount)` wei from the
      connected address to the session key. */
  lemma FundSessionSendsFromAddress(s: Session, m: Manager, env: Env, amount: Amount, address: string, fuel: nat)
    requires HasKey(s) && s.hasProvider && CheckTenNetwork(env.chainId).Ok? && amount.ether.Some?
    requires AmountActionGuard(s, true, address, true, amount).None?
    requires FundSession(s, m, env, amount, true, address, true, fuel).Some?
    ensures TransferOf(FundSession(s, m, env, amount, true, address, true, fuel)) ==
      Some(SendTransactionRequest(s.sessionKey.value, HexOfInt(amount.ether.value), FromAddress(address)))
  {
    FundAsksTransfer(s, env, amount.ether, FromAddress(address), fuel);
  }

  /** `withdrawAmountAction(withdrawAmount, provider, address, isConnected)`:
      withdraws the amount to `address` with `isTransacting` raised around
      it; a failure is recorded in the session store. */
  function WithdrawAmountAction(s: Session, m: Manager, env: Env, amount: Amount, provider: bool, address: string,
                                isConnected: bool): (r: Run)
    ensures AmountActionGuard(s, provider, address, isConnected, amount).Some? ==>
      r == Rejected(s, m, AmountActionGuard(s, provider, address, isConnected, amount))
    ensures AmountActionGuard(s, provider, address, isConnected, amount).None? ==>
      var w := WithdrawFromSessionKey(s, env, provider, address, amount);
      && r.published == [m.(isTransacting := true), m.(isTransacting := false)]
      && r.manager == m.(isTransacting := false)
      && r.calls == w.calls
      && r.refreshScheduled == w.result.Ok?
      && (w.result.Err? ==> r.session == w.state.(error := Some(w.result.error), isLoading := false))
      && (w.result.Ok? ==> r.session == w.state)
  {
    match AmountActionGuard(s, provider, address, isConnected, amount)
    case Some(alert) => Rejected(s, m, Some(alert))
    case None =>
      var transacting := m.(isTransacting := true);
      var settled := m.(isTransacting := false);
      var w := WithdrawFromSessionKey(s, env, provider, address, amount);
      var session := if w.result.Err? then w.state.(error := Some(w.result.error), isLoading := false) else w.state;
      Run(session, settled, w.calls, [transacting, settled], None, w.result.Ok?)
  }

  /** A withdrawal of an explicit amount that would not leave the reserve
      in the key is refused with the balance and the amount it would need,
      after the balance query alone. */
  lemma WithdrawAmountKeepsReserve(s: Session, m: Manager, env: Env, amount: Amount, address: string, balance: int, wei: int)
    requires AmountActionGuard(s, true, address, true, amount).None? && amount.float.Some?
    requires env.balance.Ok? && BigIntOfString(env.balance.value) == Some(balance)
    requires wei == (amount.float.value * WeiPerEther as real).Floor && balance < wei + GasReserve
    ensures var r := WithdrawAmountAction(s, m, env, amount, true, address, true);
      r.session.error == Some(InsufficientBalance(balance, wei + GasReserve))
      && r.calls == [GetBalance(s.sessionKey.value, "pending")]
  {
    BelowReserveRefused(balance, amount, wei);
    WithdrawRefused(s, env, address, amount, balance);
    ActionRecordsRefusal(s, m, env, amount, address, InsufficientBalance(balance, wei + GasReserve));
  }

  /** An amount that would eat into the reserve is refused, naming the
      balance and the wei the withdrawal would need. */
  lemma BelowReserveRefused(balance: int, amount: Amount, wei: int)
    requires amount.text != "" && amount.float.Some?
    requires wei == (amount.float.value * WeiPerEther as real).Floor && balance < wei + GasReserve
    ensures WithdrawalValue(balance, amount) == Err(InsufficientBalance(balance, wei + GasReserve))
  {
  }

  /** A withdrawal refused after the balance query is recorded as the
      session's error, with no request beyond that query. */
  lemma ActionRecordsRefusal(s: Session, m: Manager, env: Env, amount: Amount, address: string, e: Failure)
    requires AmountActionGuard(s, true, address, true, amount).None?
    requires WithdrawFromSessionKey(s, env, true, address, amount) == Step(s, Err(e), [GetBalance(s.sessionKey.value, "pending")])
    ensures var r := WithdrawAmountAction(s, m, env, amount, true, address, true);
      r.session.error == Some(e) && r.calls == [GetBalance(s.sessionKey.value, "pending")]
  {
  }

  /** A withdrawal `WithdrawalValue` refuses stops after the balance query
      and leaves the session untouched. */
  lemma WithdrawRefused(s: Session, env: Env, recipient: string, amount: Amount, balance: int)
    requires HasKey(s) && env.balance.Ok? && BigIntOfString(env.balance.value) == Some(balance)
    requires WithdrawalValue(balance, amount).Err?
    ensures WithdrawFromSessionKey(s, env, true, recipient, amount) ==
      Step(s, Err(WithdrawalValue(balance, amount).error), [GetBalance(s.sessionKey.value, "pending")])
  {
  }

  /** `resetDeletionState()`: back to IDLE, everything else kept. */
  function ResetDeletionState(m: Manager): (r: Manager)
    ensures r.deletionState == Idle
    ensures r.isRefreshingBalance == m.isRefreshingBalance && r.balance == m.balance && r.isTransacting == m.isTransacting
  {
    m.(deletionState := Idle)
  }
}
