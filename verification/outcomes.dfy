/** Failure-carrying datatypes shared by every module of the model, and the
    failures the session-key library raises. A JavaScript `throw` becomes a
    `Err(failure)` result; `null`/`undefined` becomes `None`. */
module Outcomes {

  datatype Option<+T> = None | Some(value: T) {
    function GetOr(default: T): T {
      match this
      case Some(v) => v
      case None => default
    }
  }

  datatype Result<+T, +E> = Ok(value: T) | Err(error: E)

  /** The errors the library throws, one variant per distinct cause. */
  datatype Failure =
    | NoProvider                                  // no EIP-1193 provider in the store
    | NoSessionKey                                // session key missing or empty
    | WrongNetwork                                // eth_chainId is not the TEN chain
    | RpcFailed                                   // provider.request or fetch rejected
    | InvalidNumber                               // BigInt(...) threw (NaN, bad digits)
    | InsufficientBalance(available: int, required: int)
    | WithdrawalNotConfirmed                      // receipt failed or poll timed out
    | WithdrawalRefused                           // the withdrawal reported `false`
    | TokenUnavailable                            // fetchNewToken exhausted its retries

  /** Result of a provider request: the JSON answer, or a rejected promise. */
  type Reply<T> = Result<T, Failure>
}
