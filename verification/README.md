# ten-kit session keys, modelled in Dafny

This project models the session-key library of ten-kit, a TypeScript toolkit
for dapps on the TEN network. A session key is an account that the TEN node
creates, funds and deletes through three precompile addresses. Once it exists,
the dapp sends transactions through it without asking the wallet to sign each
one. The model covers the following parts:

- **`Encoding`, `Digits`, `JsText`** — the byte and hex helpers (`toHex`,
  `hexToBytes`, `bytesToHex`, `estimateTransactions`, `hexToAscii`), and the
  JavaScript built-ins they rest on:
  - `parseInt`, `BigInt(string)`, `Number#toString(16)`;
  - `slice`, `trim`, `padStart`.
- **`Helpers`, `Sorting`** — `toRlpHex`, the TEN chain-id check, and the fee
  estimator `calculateGasFees`:
  - the reward column of the urgency tier is sorted, and its lower median is
    taken;
  - the base fee is multiplied by the tier's factor;
  - a fixed table is the fallback.
- **`Transaction`, `Base64`** — the transaction that `sendTransaction` builds:
  - the twelve-item unsigned EIP-1559 list;
  - the EIP-2718 typed envelope `0x02 || RLP(list)`;
  - its base 64 text, per section 4 of RFC 4648.
- **`Provider`, `SessionKeyStore`** — the session-key store: create (reusing a
  stored key), fund, delete, clean up, refresh the balance, and send a
  transaction through the execute precompile.
- **`SessionKeyManager`** — the manager store built on top of it:
  - start, fund and withdraw, each behind its guards and `isTransacting`
    bracket;
  - the single-flight balance refresh;
  - the withdrawal arithmetic around the 0.0002 ether gas reserve;
  - the 30-query confirmation poll;
  - the withdraw-then-delete saga over `DeletionState`.
- **`TrashProgress`** — the saga's progress display.
- **`TokenCache`** — the bearer-token cache for the public RPC endpoint:
  - the one-day expiry;
  - refresh and revoke;
  - the retry loop with linearly growing pauses.
- **`Utils`** — `shortenAddress`.

The outside world is an `Env` value. It fixes every answer the wallet
provider, the public RPC endpoint, `localStorage` and the RLP encoder could
give. Every asynchronous store operation is a function:

- its inputs are the state before the call and an `Env`;
- its output is a `Step`: the state after the promise settles, what the promise
  resolves to (or the `Failure` it rejects with), and the `Call`s it made, in
  order.

A manager action returns a `Run`. A `Run` also records every manager snapshot
the action published, the `alert` it raised, and whether it scheduled the
delayed balance refresh.

The second `eth_chainId` request of `sendTransaction` has an answer of its
own, since the wallet may switch networks between the two requests. The
deletion at the end of the delete saga sees the provider as a later `Env`.

### Where the code departs from its own comments and signatures

In each case below, the model follows the code.

- **Priority fee floor.** The comment at `helpers.ts:79-80` calls 1 gwei the
  minimum priority fee. The code at `helpers.ts:81` replaces the median only
  when it is missing or not positive, so a median of 5 wei stays 5 wei
  (`Helpers.SmallMedianIsKept`).
- **Sender of the funding transfer.** The store's type at `types.ts:46` is
  `fundSessionKey(amount, userAddress)`. `fundSession` passes the provider
  object in the `userAddress` place (see Findings).

## Model

All paths are relative to the repository root.

| member | source | states |
|---|---|---|
| Encoding.ToHex | src/lib/encoding.ts:3-13 | A string that already starts with "0x" is returned unchanged. A number is printed as "0x" and its hex digits. Any other string succeeds exactly when `BigInt` accepts it. Every result carries the "0x" prefix. |
| Encoding.HexOfInt | src/lib/encoding.ts:12 | The text starts with "0x" and has at least one more character. A minus sign follows the prefix exactly when the number is negative. |
| Encoding.HexOfIntReadBack | src/lib/encoding.ts:12 | `parseInt(_, 16)` and `BigInt` read the text of a non-negative number back as that number. Both fail on the text of a negative one. |
| Encoding.HexOfNatIsCanonical | src/lib/encoding.ts:12 | `toHex` of a non-negative integer is "0x" plus the one canonical (lower-case, no leading zero) hex digit string of that value, and `BigInt` reads it back as the same number. |
| Encoding.HexOfZero | src/lib/encoding.ts:12 | `toHex(0)` is "0x0". |
| Encoding.ToHexOfDecimalString | src/lib/encoding.ts:9-12 | A decimal string is rendered exactly like the number it denotes. |
| Encoding.BytesToHex | src/lib/encoding.ts:24-28 | The text is "0x" followed by only lower-case hex digits, two per byte, so its length is 2 + 2·\|b\|. |
| Encoding.HexBodyPair | src/lib/encoding.ts:24-28 | Characters 2i and 2i+1 after the prefix are two hex digits, and they denote byte i. |
| Encoding.HexToBytes | src/lib/encoding.ts:14-21 | The result has floor(n / 2) bytes for n characters after the optional "0x". Byte i is `parseInt` of characters 2i and 2i+1 stored into a byte, and an odd last character is dropped. |
| Encoding.HexRoundTrip | src/lib/encoding.ts:15-28 | `hexToBytes(bytesToHex(b)) == b` for every byte sequence. |
| Encoding.HexToBytesPrefixOptional | src/lib/encoding.ts:16 | `hexToBytes` gives the same bytes with or without the "0x" prefix. |
| Encoding.HexToBytesOfDigits | src/lib/encoding.ts:17-20 | On 2n hex digits, `hexToBytes` yields n bytes, and byte i is 16 × digit 2i + digit 2i+1. |
| Encoding.ToUint8 | src/lib/encoding.ts:19 | Storing into a `Uint8Array` slot keeps the value modulo 256, and keeps a value in 0..255 exactly. |
| Encoding.ParseIntOfPair | src/lib/encoding.ts:19 | `parseInt` reads two hex digits as one byte, high digit first. |
| Encoding.EstimateTransactions | src/lib/encoding.ts:38-42 | The result is 0 if any argument is ≤ 0. Otherwise it is the largest count r with r · gasPrice · gasLimit ≤ balance. |
| Encoding.CodeText | src/lib/encoding.ts:48-51 | A chunk contributes at most one character, and contributes nothing exactly when its value is 0. |
| Encoding.DropZerosCount | src/lib/encoding.ts:49 | Exactly the zero bytes are skipped: every other byte survives as often as it occurs, and the length shrinks by the number of zeros. |
| Encoding.AsciiOfHex | src/lib/encoding.ts:44-54 | On an even-length hex string, the decoded text is the Latin-1 text of the non-zero bytes of `hexToBytes`, in their original order. |
| Encoding.HexToAscii | src/lib/encoding.ts:44-54 | The two-characters-at-a-time loop computes the reference reading of the cleaned string. On even-length hex, that is the Latin-1 text of the non-zero bytes. |
| Digits.ValueOfToDigits | src/lib/encoding.ts:10-12 | Reading back the digits `toString(radix)` prints gives the original number. |
| Digits.ToDigitsCanonical | src/lib/encoding.ts:10-12 | `toString(radix)` prints no leading zero. Its first digit is '0' only for zero. |
| Digits.CanonicalIsToDigits | src/lib/encoding.ts:10-12 | Any canonical digit string is the `toString(radix)` rendering of its value, so that rendering is the unique minimal one. |
| JsText.PadStart | src/lib/encoding.ts:26 | Padding leaves a long enough string alone. Otherwise the result has the requested width, ends in the original, and starts with filler. |
| JsText.ParseInt | src/lib/helpers.ts:35 | `parseInt("")` is NaN. So is any text whose first character is neither whitespace, a sign nor a digit of the radix. |
| JsText.SignAfterPrefixUnreadable | src/lib/encoding.ts:12 | After "0x", a minus sign makes `parseInt(_, 16)` find no digits and `BigInt` reject the text. |
| JsText.BigIntOfString | src/lib/helpers.ts:61 | `BigInt("")` is 0. A "0x" text with no trailing whitespace is read as its hex digits, and is rejected unless they are all hex digits. |
| JsText.ParseIntPrefixedHexDigits | src/lib/helpers.ts:35 | `parseInt(_, 16)` reads "0x" plus the hex digits of n as n. |
| JsText.ParseIntHexDigits | src/stores/sessionKey.store.ts:301 | `parseInt(_, 16)` reads the bare hex digits of n as n. |
| JsText.BigIntOfHexDigits | src/stores/sessionKeyManager.store.ts:235 | `BigInt` reads "0x" plus the hex digits of n as n. |
| JsText.ParseIntDecimalDigits | src/lib/contractReadFunctions.ts:28 | `parseInt(_, 10)` reads the decimal digits of n as n. |
| JsText.TrimEmptyIffBlank | src/lib/contractReadFunctions.ts:76 | `trim()` gives "" exactly when every character is whitespace. |
| JsText.Slice | src/lib/utils.ts:17 | `slice(start, end)` resolves negative indices against the length, and gives "" when the resolved start is not before the resolved end. |
| Helpers.ToRlpHex | src/lib/helpers.ts:27-31 | Putting "0x" back in front gives `toHex(v)`. The result is never empty and carries no prefix. For v ≥ 0 it is the plain hex digits of v. |
| Helpers.ToRlpHexOfZero | src/lib/helpers.ts:27-31 | `toRlpHex(0)` is "0". |
| Helpers.CheckTenNetwork | src/lib/helpers.ts:33-40 | The check passes exactly when the chain-id answer parses as 8443. A rejected request passes its error on. Any other answer is a wrong-network failure. |
| Helpers.CheckTenNetworkOfHex | src/lib/helpers.ts:33-40 | A provider reporting `toHex(n)` passes exactly when n is 8443. |
| Helpers.RewardColumn | src/lib/helpers.ts:69 | LOW, MEDIUM and HIGH read the columns of the 25th, 50th and 75th reward percentiles. |
| Helpers.Fallback | src/lib/helpers.ts:90-99 | The fallback quote has a positive priority fee, and its max fee is 1 gwei above that fee. |
| Helpers.Quote | src/lib/helpers.ts:76-86 | A positive median is kept and a missing or non-positive one becomes 1 gwei. The max fee exceeds the priority fee by floor(base × multiplier). With a non-negative base, max fee ≥ priority fee. |
| Helpers.CalculateGasFees | src/lib/helpers.ts:42-101 | On a rejected request, an empty base-fee list or an unparsable reward, the result is the fallback table. Otherwise it is the quote from the latest base fee and the lower median of the tier's sorted column. The priority fee is always positive. |
| Helpers.LatestBaseFee | src/lib/helpers.ts:61 | An empty `baseFeePerGas` list throws. A blank last entry reads as 0, since `BigInt("")` is 0. |
| Helpers.QuoteByTier | src/lib/helpers.ts:75-86 | For every base fee and median, the max fee is the base fee plus a tenth (LOW), a fifth (MEDIUM) or a half (HIGH) of it, rounded down, plus the priority fee. So base fee 100 and MEDIUM median 5 quote (125, 5). |
| Helpers.SmallMedianIsKept | src/lib/helpers.ts:80-81 | A positive median below 1 gwei is used as it is. The 1 gwei floor applies only to missing or non-positive medians. |
| Helpers.FeesIgnoreBlockOrder | src/lib/helpers.ts:64-73 | Reordering the blocks of the reward matrix does not change the quote. |
| Helpers.Column | src/lib/helpers.ts:70 | The selected column has one entry per block: that block's entry at the tier's index, or `undefined` past its end. |
| Sorting.LeTotal | src/lib/helpers.ts:71-72 | The comparator orders any two values one way or the other. |
| Sorting.Sort | src/lib/helpers.ts:71-73 | The sorted column is ascending and is a permutation of the column. |
| Sorting.SortedUnique | src/lib/helpers.ts:71-73 | Two ascending arrangements of the same entries are identical. |
| Sorting.SortPermutationInvariant | src/lib/helpers.ts:71-73 | The sorted column depends only on the multiset of entries. |
| Sorting.SortedHeadIsLeast | src/lib/helpers.ts:71-73 | The first element of the sorted column is at most every entry. |
| Sorting.Middle | src/lib/helpers.ts:73 | The pick at `floor(n / 2)` is `undefined` on an empty column. |
| Sorting.MapPermutation | src/lib/helpers.ts:64-70 | Mapping a permutation of the blocks gives a permutation of the mapped entries. |
| Base64.SextetRoundTrip | src/stores/sessionKey.store.ts:386 | Every 6-bit value maps to an alphabet character that reads back as the same value. |
| Base64.Encode | src/stores/sessionKey.store.ts:386 | The text has four characters for every started group of three bytes. |
| Base64.EncodeAlphabet | src/stores/sessionKey.store.ts:386 | Every character is from the base 64 alphabet, except at most two trailing `=`. |
| Base64.DecodeEncode | src/stores/sessionKey.store.ts:386 | Decoding the text gives back exactly the bytes that were encoded. |
| Transaction.Prefixed | src/stores/sessionKey.store.ts:352-358 | After the item mapping, every string is empty or starts with "0x". Strings that already were either are unchanged. |
| Transaction.LowerOrEmpty | src/stores/sessionKey.store.ts:346-347 | An absent value or data field becomes "", and a present one is lower-cased. |
| Transaction.PrefixedRlpHex | src/stores/sessionKey.store.ts:342-358 | The mapping restores exactly the prefix `toRlpHex` removed, so each fee and gas item is `toHex` of its value. |
| Transaction.QuantityItems | src/stores/sessionKey.store.ts:340-344 | The five quantity items are chainId, nonce ("0x" for 0), priority fee, max fee and gas limit, each as `toHex` of its value. |
| Transaction.CallItems | src/stores/sessionKey.store.ts:345-347 | `to`, `value` and `data` are lower-cased and prefixed, with absent fields as "". |
| Transaction.BuildTuple | src/stores/sessionKey.store.ts:339-358 | The list has 12 items in EIP-1559 order: quantities, call fields, then the empty access list and three empty signature fields. |
| Transaction.HexOfNatQuantity | src/stores/sessionKey.store.ts:340-341 | `toHex(n)` is a minimal "0x" quantity that denotes n. |
| Transaction.TupleQuantitiesRecovered | src/stores/sessionKey.store.ts:339-358 | Reading the quantity items back gives the chain id, nonce, fees and gas limit the list was built from. The nonce is in minimal form. |
| Transaction.Envelope | src/stores/sessionKey.store.ts:365-383 | The detour through hex text and `hexToBytes` is the identity, so the raw bytes are `0x02 ‖ RLP(list)`. |
| Transaction.Payload | src/stores/sessionKey.store.ts:380-386 | The base 64 payload decodes to `0x02 ‖ RLP(list)` and has the matching length. |
| Provider.FeeHistoryCall | src/lib/helpers.ts:51-58 | The fee-history request asks for the 25th, 50th and 75th percentiles. |
| SessionKeyStore.Fail | src/stores/sessionKey.store.ts:99-104 | A rejection records the error and clears `isLoading`. It leaves key, balance, activity and provider as they were. |
| SessionKeyStore.Reset | src/stores/sessionKey.store.ts:52 | `reset()` restores the initial values, so there is no key, balance, error or loading, and keeps the provider. |
| SessionKeyStore.UpdateBalance | src/stores/sessionKey.store.ts:230-258 | A balance is produced exactly when there is a key and a provider and the pending balance parses. It equals wei / 10^18 with `estimatedTransactions` 0, and it replaces the stored balance. Every failure resolves to `null` with the state untouched. |
| SessionKeyStore.InitSession | src/stores/sessionKey.store.ts:39-48 | A given provider is kept. The balance is queried only when a provider is given and a key is present. The key is never changed. |
| SessionKeyStore.KeyFromResponse | src/stores/sessionKey.store.ts:86 | The new key is "0x" followed by the last 40 characters of the create precompile's answer. |
| SessionKeyStore.ObtainKey | src/stores/sessionKey.store.ts:73-88 | A usable stored key (not empty, not "0x") is taken with no request. Otherwise the create precompile is asked once, and its answer gives the key. |
| SessionKeyStore.CreateSessionKey | src/stores/sessionKey.store.ts:54-105 | It succeeds exactly when there is a provider, the network is TEN and a key is obtained. The key is then recorded with no error and not loading, after the chain-id check, the key lookup and a final balance query. Failures go through the common rejection. |
| SessionKeyStore.CreateChecked | src/stores/sessionKey.store.ts:68-98 | From the network check on, it succeeds exactly when the check passed and a key was obtained, with the same requests and state as above. |
| SessionKeyStore.RecordKey | src/stores/sessionKey.store.ts:90-96 | The key is stored with no error and not loading, and exactly one balance query for it follows. |
| SessionKeyStore.CreateAsksPrecompileOnlyWithoutStoredKey | src/stores/sessionKey.store.ts:73-88 | The create precompile is asked if and only if there is a provider, the network is TEN and no usable key is stored. |
| SessionKeyStore.AwaitReceipt | src/stores/sessionKey.store.ts:137-149 | A poll that finishes within the fuel has made between 1 and fuel queries. |
| SessionKeyStore.AwaitReceiptStops | src/stores/sessionKey.store.ts:137-149 | A finished poll saw "no receipt yet" on every query but its last. The last query brought the receipt, which means success, or the rejection the poll ends with. |
| SessionKeyStore.AwaitReceiptFuel | src/stores/sessionKey.store.ts:137-149 | Extra fuel does not change a poll that already finished. |
| SessionKeyStore.AwaitReceiptFinishes | src/stores/sessionKey.store.ts:137-149 | If the k-th answer is the first that is not "no receipt yet", the poll finishes after exactly k+1 queries. |
| SessionKeyStore.FundSessionKey | src/stores/sessionKey.store.ts:107-159 | Funding succeeds only with a key, a provider, the TEN network and a parsable amount. The transfer of `parseEther(amount)` wei to the key is the second request, and the hash it returns is the result. Every receipt answer before the last was "no receipt yet", and the last one was a receipt. Failures go through the common rejection. |
| SessionKeyStore.FundAsksTransfer | src/stores/sessionKey.store.ts:117-133 | Once the checks pass and the amount parses, the second request is the transfer from the given sender to the session key. |
| SessionKeyStore.FundTransferSender | src/stores/sessionKey.store.ts:117-133 | Whatever the funding comes to, a transfer request it made is sent from the given sender. |
| SessionKeyStore.FundChecked | src/stores/sessionKey.store.ts:117-158 | From the network check on, funding asks for the transfer and then polls for its receipt. It succeeds only if both did: every receipt answer before the last was "no receipt yet", and the last one was a receipt. |
| SessionKeyStore.AwaitTransfer | src/stores/sessionKey.store.ts:137-153 | After the transfer, only receipt queries for its hash follow. Every answer but the last was "no receipt yet", and the last answer ends the wait. A receipt resolves to the hash with loading cleared. |
| SessionKeyStore.DeleteSessionKey | src/stores/sessionKey.store.ts:161-199 | Deletion succeeds exactly when there is a key and a provider, the network is TEN and the delete precompile answers. Key and balance are then cleared and the key is inactive, after exactly the chain-id check and the delete request. A failure keeps the key. |
| SessionKeyStore.CleanupSessionKey | src/stores/sessionKey.store.ts:201-228 | Cleanup succeeds exactly when there is a provider, the network is TEN and the delete precompile (zero slot) answers. It needs no key. The same fields are cleared as in deletion. |
| SessionKeyStore.LatestBlock | src/stores/sessionKey.store.ts:287-295 | A truthy answer from the public endpoint is used as the block tag. Otherwise the provider's `eth_blockNumber` is asked as well. |
| SessionKeyStore.ResolveNonce | src/stores/sessionKey.store.ts:282-302 | An explicit nonce is used with no request. Otherwise the nonce is the transaction count at the latest block tag, read as hex. |
| SessionKeyStore.ResolveFees | src/stores/sessionKey.store.ts:305-317 | The caller's fees are used (with no request) only when both are truthy. Otherwise both come from the MEDIUM estimate. |
| SessionKeyStore.ResolveGasLimit | src/stores/sessionKey.store.ts:320-336 | A truthy gas limit is used with no request. Otherwise the gas is estimated for the transaction, with value defaulting to "0x0" and the key as sender, and the estimate is read as hex. |
| SessionKeyStore.Submit | src/stores/sessionKey.store.ts:338-402 | It succeeds exactly when the chain id, nonce and gas limit are numbers and the execute precompile answers. The one added request carries the key and the base 64 typed envelope of the built list. |
| SessionKeyStore.SendWithKey | src/stores/sessionKey.store.ts:281-336 | A sent transaction resolved the nonce, fees and gas limit in this order, each after the previous succeeded. What it submits is built from exactly those values. |
| SessionKeyStore.ChainIdAnswer | src/stores/sessionKey.store.ts:278-279 | A rejected second request passes its error on. An answer is read by `parseInt(_, 16)`, and is a number exactly when that reads one. An answer that would pass the network check reads as 8443. |
| SessionKeyStore.SendTransaction | src/stores/sessionKey.store.ts:260-408 | A sent transaction had a provider, passed the network check on the first chain-id answer, had a key and got a second chain-id answer. It carries the chain id that second answer parses to, which is not checked again. Failures go through the common rejection. |
| SessionKeyStore.SendChecked | src/stores/sessionKey.store.ts:268-279 | From the network check on, sending needs the check, the key and the second chain-id answer, in that order. |
| SessionKeyStore.SendTransactionSubmitsEnvelope | src/stores/sessionKey.store.ts:278-399 | A successful send ends with the execute request for the session key. Its payload decodes to 0x02 followed by the RLP of a 12-item list with an empty access list and empty signature fields. The list's chain id is the number the second chain-id answer parses to, and that is 8443 when that answer would pass the network check. |
| SessionKeyStore.SubmitsEnvelope | src/stores/sessionKey.store.ts:380-399 | Submission adds exactly one request: the execute precompile, with the key and the base 64 envelope of a list carrying the chain id. |
| SessionKeyManager.Confirmation | src/stores/sessionKeyManager.store.ts:276-302 | The poll makes between 1 and 30 queries. It reports success only for a first receipt with status "0x1". It reports failure on a first receipt with any other status, or after 30 queries with no verdict, where rejected queries count as misses. |
| SessionKeyManager.WaitForConfirmation | src/stores/sessionKeyManager.store.ts:276-302 | The 30-iteration loop computes the recursive reading of the poll, with at most 30 queries. |
| SessionKeyManager.WithdrawalValue | src/stores/sessionKeyManager.store.ts:236-260 | Anything sent leaves the 0.0002 ether reserve. An explicit amount is refused as insufficient exactly when balance < amount + reserve, and is otherwise sent exactly. Without an amount, nothing is sent when the balance is at most the reserve, and everything above the reserve is sent otherwise. |
| SessionKeyManager.WithdrawalTx | src/stores/sessionKeyManager.store.ts:262-270 | The transfer has the recipient, `toHex` of the value, and no data, nonce, fees or gas limit, which `sendTransaction` then resolves. |
| SessionKeyManager.WithdrawFromSessionKey | src/stores/sessionKeyManager.store.ts:223-315 | A withdrawal resolves only to `true`, and never changes the key. Without a key it rejects with no request. Success needs a parsable balance that `WithdrawalValue` accepts. When nothing is to be sent, it resolves after the balance query alone. |
| SessionKeyManager.AfterTransfer | src/stores/sessionKeyManager.store.ts:262-310 | A withdrawal succeeds exactly when the transfer was submitted and the poll confirmed it. The receipt queries for its hash follow the transfer's requests. |
| SessionKeyManager.WithdrawSendsTransfer | src/stores/sessionKeyManager.store.ts:262-310 | A successful withdrawal is: the balance query, the requests of the submitted transfer, then the receipt queries of a poll that confirmed. |
| SessionKeyManager.WithdrawExecutesOnlyTransfer | src/stores/sessionKeyManager.store.ts:240-270 | The execute precompile is asked only when the balance was read and a positive transfer was decided on. |
| SessionKeyManager.WithdrawNeverFalse | src/stores/sessionKeyManager.store.ts:223-315 | No path of the withdrawal resolves to `false`. |
| SessionKeyManager.ConfirmDeleteSession | src/stores/sessionKeyManager.store.ts:166-205 | If not connected, nothing changes. Otherwise the published states are ACTIVE, WITHDRAWING, then ERROR, or DELETING then COMPLETED or ERROR. COMPLETED is reached exactly when the sweep succeeded and the deletion succeeded against the provider's later answers, and then the key is gone. On ERROR the key is the one the saga started with. |
| SessionKeyManager.AfterWithdrawal | src/stores/sessionKeyManager.store.ts:179-204 | DELETING is entered if and only if the withdrawal resolved to `true`. Only the deletion state changes in the manager. |
| SessionKeyManager.AfterDeletion | src/stores/sessionKeyManager.store.ts:192-204 | After a successful withdrawal the saga publishes ACTIVE, WITHDRAWING, DELETING, then COMPLETED if the deletion succeeded, and ERROR if not. |
| SessionKeyManager.DeleteOnlyAfterWithdrawal | src/stores/sessionKeyManager.store.ts:179-196 | The saga reaches DELETING, and so asks for deletion, only after the sweep resolved to `true`. |
| SessionKeyManager.NetworkSwitchFailsDeletion | src/stores/sessionKey.store.ts:165-171 | If the wallet leaves the TEN network after a successful sweep, the deletion's own network check fails. The saga then goes through DELETING to ERROR and keeps the key. |
| SessionKeyManager.UpdateSessionKeyBalance | src/stores/sessionKeyManager.store.ts:207-221 | Without a key, or while a refresh is in flight, nothing happens. Otherwise the flag is raised, the balance is stored (0 when unknown), and the flag is lowered again. |
| SessionKeyManager.RefreshIsSingleFlight | src/stores/sessionKeyManager.store.ts:207-221 | A second refresh that starts from a state published while a refresh is under way does nothing. Once the refresh has ended, the next refresh with a key runs in full. |
| SessionKeyManager.StartSession | src/stores/sessionKeyManager.store.ts:55-81 | If not connected, it alerts and changes nothing. Otherwise it creates the key. The delayed refresh is scheduled only when creation succeeded and a key existed before the call. |
| SessionKeyManager.FreshStartSchedulesNoRefresh | src/stores/sessionKeyManager.store.ts:67-71 | Starting without a key never schedules the balance refresh, even when the key is created. |
| SessionKeyManager.AmountActionGuard | src/stores/sessionKeyManager.store.ts:86-99 | The action goes ahead exactly when provider, connection, address, key and a valid amount are all present. |
| SessionKeyManager.ValidAmount | src/stores/sessionKeyManager.store.ts:96-99 | An empty amount is refused. A NaN reading of a non-empty amount passes. Otherwise the amount passes exactly when its reading is positive. |
| SessionKeyManager.FundSessionFrom | src/stores/sessionKeyManager.store.ts:83-124 | A guard failure alerts and changes nothing. Otherwise `isTransacting` is published as raised, then lowered, whatever the funding did. A refresh is scheduled exactly when the funding succeeded. |
| SessionKeyManager.FundSessionAsWritten | src/stores/sessionKeyManager.store.ts:83-124 | A guard failure asks for no transfer. Any transfer it does ask for names the provider object as its sender. |
| SessionKeyManager.FundSession | src/stores/sessionKeyManager.store.ts:83-124 | A guard failure asks for no transfer. Any transfer it does ask for is sent from the connected address. |
| SessionKeyManager.FundSessionAsWrittenSendsFromProvider | src/stores/sessionKeyManager.store.ts:103-107 | As written, the funding transfer names the provider object as its sender, not the connected address. |
| SessionKeyManager.FundSessionSendsFromAddress | src/stores/sessionKeyManager.store.ts:103-107 | Corrected, the transfer moves `parseEther(fundAmount)` wei from the connected address to the session key. |
| SessionKeyManager.WithdrawAmountAction | src/stores/sessionKeyManager.store.ts:126-164 | A guard failure alerts and changes nothing. Otherwise `isTransacting` is raised, then lowered. A failed withdrawal is recorded as the session's error, and a refresh is scheduled exactly on success. |
| SessionKeyManager.WithdrawAmountKeepsReserve | src/stores/sessionKeyManager.store.ts:236-250 | An amount that would eat into the reserve is refused after the balance query alone, with the balance and the total it would need recorded as the error. |
| SessionKeyManager.BelowReserveRefused | src/stores/sessionKeyManager.store.ts:244-248 | balance < amount + reserve gives the insufficient-balance failure naming both numbers. |
| SessionKeyManager.ActionRecordsRefusal | src/stores/sessionKeyManager.store.ts:153-160 | A withdrawal refused after the balance query is stored as the session's error, and nothing else is asked. |
| SessionKeyManager.WithdrawRefused | src/stores/sessionKeyManager.store.ts:240-248 | A refused amount stops the withdrawal after the balance query and leaves the session untouched. |
| SessionKeyManager.ResetDeletionState | src/stores/sessionKeyManager.store.ts:327-329 | The state returns to IDLE, and balance and flags are kept. |
| TrashProgress.StepIndex | src/components/SessionKeyManager/SessionKeyTrashProgress.tsx:15-31 | The index is -1 exactly for IDLE and ERROR. It is never 2. |
| TrashProgress.CurrentStep | src/components/SessionKeyManager/SessionKeyTrashProgress.tsx:33-37 | No label is shown exactly for IDLE and ERROR. A shown label is one of the steps, and never "Clearing data". |
| TrashProgress.ProgressPercentage | src/components/SessionKeyManager/SessionKeyTrashProgress.tsx:39-43 | The bar is only ever 0, 25, 50 or 100. It is 0 exactly for IDLE and ERROR, and 100 exactly for COMPLETED. |
| TrashProgress.ShowResetButton | src/components/SessionKeyManager/SessionKeyTrashProgress.tsx:45-46 | The button shows exactly when the bar is full, or was emptied by a failure rather than never started. |
| TrashProgress.ResetReturnsToIdle | src/components/SessionKeyManager/SessionKeyTrashProgress.tsx:45-46 | Once the button shows, pressing it brings back no step, 0 % and no button. |
| TrashProgress.SagaRunProgress | src/components/SessionKeyManager/SessionKeyTrashProgress.tsx:39-43 | On the three possible saga runs, the completed run shows 25, 25, 50, 100, never moving back, and a failed run ends at 0. |
| TrashProgress.SagaProgressMonotone | src/components/SessionKeyManager/SessionKeyTrashProgress.tsx:15-46 | Along every saga the bar never moves back on the way to COMPLETED, and it is emptied on ERROR. Either way the reset button shows at the end. |
| TokenCache.GetStoredToken | src/lib/contractReadFunctions.ts:18-30 | A token is read exactly when both entries are present and non-empty, with the timestamp read by `parseInt(_, 10)`. |
| TokenCache.StoreToken | src/lib/contractReadFunctions.ts:32-38 | The token entry holds the token. A non-empty token reads back as itself with the time it was stored. |
| TokenCache.IsTokenExpired | src/lib/contractReadFunctions.ts:47-50 | A NaN timestamp never expires. Otherwise a token expires exactly when more than one day has passed since its timestamp. |
| TokenCache.StoreThenRead | src/lib/contractReadFunctions.ts:32-50 | A stored token reads back with its storage time. It expires exactly when more than 86 400 000 ms have passed, a strict comparison. |
| TokenCache.Accepted | src/lib/contractReadFunctions.ts:70-78 | An ok response whose body has a character that is not whitespace is accepted. An accepted answer is an ok response with a non-empty body. |
| TokenCache.BlankRefused | src/lib/contractReadFunctions.ts:76-78 | A body made only of whitespace is refused, however ok the response. |
| TokenCache.FetchFrom | src/lib/contractReadFunctions.ts:66-89 | A token comes from an accepted answer, and is that answer's body. |
| TokenCache.FetchFromAnswers | src/lib/contractReadFunctions.ts:66-89 | A token is the body of the first accepted answer, meaning ok and not blank. No token means every attempt up to `retries` was refused. |
| TokenCache.FetchFromDelays | src/lib/contractReadFunctions.ts:86-88 | The pause after refused attempt k is `delayMs · k`, with no pause after the last attempt. |
| TokenCache.FetchNewToken | src/lib/contractReadFunctions.ts:63-93 | The loop makes at most `retries` attempts. It returns a non-blank token with every earlier attempt refused, or fails with every attempt refused. |
| TokenCache.FetchOutcome | src/lib/contractReadFunctions.ts:63-93 | The whole run is bounded by `retries`. A token comes after refused attempts only, and no token means all were refused. |
| TokenCache.FetchDefault | src/lib/contractReadFunctions.ts:63 | The default fetch makes at most 3 attempts and never yields an empty token. |
| TokenCache.GetOrRefreshToken | src/lib/contractReadFunctions.ts:95-134 | With no stored token, a fetched token is stored and returned, and a failed fetch throws. A live token is returned with no fetch. An expired token is replaced (the old one revoked) when a fetch succeeds, and otherwise returned as it is. |
| TokenCache.RefreshThenReuse | src/lib/contractReadFunctions.ts:95-134 | Within a day of storing a new token, asking again returns the same token with no fetch and no storage change. |
| Utils.ShortenAddress | src/lib/utils.ts:15-18 | An empty address gives "". Otherwise the result is the head up to `chars + 2`, then "...", then the last `chars` characters, with JavaScript's relative slice indices. For chars ≥ 1 on a long enough address, it is 2·chars + 5 long and keeps the first chars + 2 and the last chars characters around the ellipsis. |
| Utils.ShortenKeepsEnds | src/lib/utils.ts:17 | For chars ≥ 1 on a long enough address, the result is 2·chars + 5 long and keeps both ends around the ellipsis. |
| Utils.ShortenZeroKeepsAll | src/lib/utils.ts:17 | With chars = 0, `slice(-0)` keeps the whole address after the ellipsis. |
| Utils.ShortenDefaultAddress | src/lib/utils.ts:15-17 | With the default of 4 on a 42-character address, the result keeps the first 6 and the last 4 characters and is 13 long. |

## Left out

- **I/O.** `provider.request`, `fetch`, `localStorage`, `Date.now` and the `setTimeout` sleeps are inputs, not effects. Their answers are fields of `Env`, or parameters: the clock, the token storage and the join answers. The 1 s and 2 s delays are not modelled, and neither is the 2 s wait between receipt queries.
- **The zustand `persist` middleware** and `updateState`. An error is recorded by setting the session's fields directly.
- **`setupProviderListeners` and `providerCleanupRef`** (src/lib/helpers.ts:103-128). These are event plumbing and do not change the outcome of any operation.
- **`getLatestBlockNumber`** (src/lib/helpers.ts:5-25). It is an HTTP POST to the public endpoint; its `result`, or `null`, is the `directBlockNumber` input.
- **`alert`** is recorded as an `Alert` value.
- **The `console` logging** is not modelled.
- **`clearLocalStorage`** uses `window.location.reload`. It and **`setTransacting`** are a storage wipe and a plain setter with no logic.
- **`clearStoredToken` and `revokeToken`.** Clearing before rewriting leaves the same storage as rewriting. The revoke request is recorded only as the token it names, since its errors are swallowed.
- **`typeof window === 'undefined'`** checks in the token functions. Only the browser path is modelled.
- **`CreatePublicClients`, `cn` and `formatBalance`** (src/lib/utils.ts:8-13). These are viem and clsx wiring, and floating-point display formatting.
- **Floating point.**
  - `parseFloat` and `parseEther` are inputs of an `Amount` (its `float` and `ether` readings).
  - `parseFloat(formatEther(wei))` is the exact rational wei / 10^18.
  - `Math.floor(parseFloat(amount) * 1e18)` is the floor of an exact real product.
  - The fee multiplier `Math.floor(Number(base) * 1.2)` is the exact `floor(base · 12 / 10)`.
  - `Number(...)` of the transaction estimate is exact.
  - The `Number` that `parseInt` returns is taken as the exact integer. This
    applies to the chain id, the nonce and the gas limit
    (src/stores/sessionKey.store.ts:279, 301, 335) and to the token timestamp
    (src/lib/contractReadFunctions.ts:28). Above 2^53 JavaScript rounds, so
    `parseInt("20000000000001", 16)` is 9007199254740992 there and
    9007199254740993 here.
- **The RLP encoder** is the uninterpreted `rlp` field of `Env`.
- **The "unexpected RLP encoding result" branch** (src/stores/sessionKey.store.ts:374-377) is left out, because the encoder always returns bytes.
- **Provider answers within one operation.** Apart from the receipt queries and the second chain-id request of `sendTransaction`, every RPC method answers the same way each time one operation asks it. The manager store and the session-key store talk to the same provider, one `Env`. Only the delete saga gives its deletion step an `Env` of its own.
- **Concurrency.** `isRefreshingBalance` and `isTransacting` are state flags only. Interleavings of concurrent callers are not modelled.
- **UI components** other than the deletion progress display.
- **Lower-casing.** `toLowerCase` is modelled on ASCII letters only. Addresses and hex data are ASCII.
- SessionKeyStore.AwaitReceipt: the funding poll has no attempt cap and need not terminate, so it runs on `fuel` queries. `None` (also from `SessionKeyStore.FundSessionKey` and `SessionKeyManager.FundSessionFrom`) means the receipt did not come within the fuel. Only finished polls are described.
- Helpers.CalculateGasFees: `maxFeePerGas ≥ maxPriorityFeePerGas` is stated for a non-negative latest base fee only. `BigInt` accepts a negative `baseFeePerGas` string, and then the bound fails in the code as well.

## Findings

| source | as written | input that shows it | evidently intended | confidence | as-written member | corrected member |
|---|---|---|---|---|---|---|
| src/stores/sessionKeyManager.store.ts:103-107 | `fundSessionKey(fundAmount, provider, address)` is called against the signature `fundSessionKey(amount, userAddress)`. The provider object therefore lands in `userAddress`, and the transfer's `from` is the provider, not the connected address. | Any connected call with a started session, a positive amount and the TEN chain that reaches the transfer | `from` is the connected wallet address | not executed | SessionKeyManager.FundSessionAsWrittenSendsFromProvider | SessionKeyManager.FundSessionSendsFromAddress |
