/** The bearer token for the public TEN RPC endpoint
    (`contractReadFunctions.ts`): kept in `localStorage` with the time it
    was stored, refetched from the join endpoint once it is more than a day
    old, and fetched with a bounded number of attempts and a growing pause
    between them. The clock, the two storage entries and the join
    endpoint's answers are inputs. */
module TokenCache {
  import opened Outcomes
  import opened Digits
  import opened JsText

  /** A token is refetched once it is older than this: one day, in
      milliseconds. */
  const TokenMaxAgeMs: int := 24 * 60 * 60 * 1000

  /** `fetchNewToken()`'s defaults: three attempts, a one-second step in
      the pause between them. */
  const DefaultRetries: int := 3
  const DefaultDelayMs: int := 1000

  /** The two `localStorage` entries, `TEN_PUBLIC_TOKEN` and
      `TEN_PUBLIC_TOKEN_TIMESTAMP`; `None` is an absent entry. */
  datatype Storage = Storage(token: Option<string>, timestamp: Option<string>)

  /** `StoredToken`; the timestamp is `None` when `parseInt` gives `NaN`. */
  datatype StoredToken = StoredToken(token: string, timestamp: Option<int>)

  /** One answer of the join endpoint: a response with its `ok` flag and
      body text, or a rejected `fetch`. */
  datatype JoinReply = Response(ok: bool, body: string) | NetworkError

  /** `getStoredToken()`: both entries must be present and non-empty; the
      timestamp is read with `parseInt(_, 10)`. */
  function GetStoredToken(st: Storage): (r: Option<StoredToken>)
    ensures r.Some? <==> st.token.Some? && st.token.value != "" && st.timestamp.Some? && st.timestamp.value != ""
    ensures r.Some? ==> r.value.token == st.token.value && r.value.timestamp == ParseInt(st.timestamp.value, 10)
  {
    match (st.token, st.timestamp)
    case (Some(token), Some(timestamp)) =>
      if token == "" || timestamp == "" then None else Some(StoredToken(token, ParseInt(timestamp, 10)))
    case _ => None
  }

  /** `storeToken(token)` at time `now`: both entries are written, the
      time as its decimal digits. */
  function StoreToken(token: string, now: nat): (r: Storage)
    ensures r.token == Some(token)
    ensures token != "" ==> GetStoredToken(r) == Some(StoredToken(token, Some(now)))
  {
    ParseIntDecimalDigits(now);
    Storage(Some(token), Some(ToDigits(now, 10)))
  }

  /** `isTokenExpired(timestamp)` at time `now`. A `NaN` timestamp makes
      the age `NaN`, and `NaN > x` is false: such a token never expires. */
  predicate IsTokenExpired(now: int, timestamp: Option<int>)
    ensures timestamp.None? ==> !IsTokenExpired(now, timestamp)
    ensures timestamp.Some? ==> (IsTokenExpired(now, timestamp) <==> now > timestamp.value + TokenMaxAgeMs)
  {
    timestamp.Some? && now - timestamp.value > TokenMaxAgeMs
  }

  /** What storing a non-empty token puts in storage is read back as that
      token with the time it was stored, and it is not expired for exactly
      one day after that (the comparison is strict). */
  lemma StoreThenRead(token: string, storedAt: nat, now: int)
    requires token != ""
    ensures GetStoredToken(StoreToken(token, storedAt)) == Some(StoredToken(token, Some(storedAt)))
    ensures IsTokenExpired(now, Some(storedAt)) <==> now > storedAt + TokenMaxAgeMs
  {
    ParseIntDecimalDigits(storedAt);
  }

  /** An answer `fetchNewToken` accepts: an `ok` response whose body is
      not empty and not only whitespace. */
  predicate Accepted(reply: JoinReply)
    ensures reply.Response? && reply.ok && !Blank(reply.body) ==> Accepted(reply)
    ensures Accepted(reply) ==> reply.Response? && reply.ok && reply.body != ""
  {
    if reply.Response? then
      TrimEmptyIffBlank(reply.body);
      reply.ok && reply.body != "" && Trim(reply.body) != ""
    else false
  }

  /** A body made only of whitespace is refused, however `ok` the
      response. */
  lemma BlankRefused(reply: JoinReply)
    ensures reply.Response? && Blank(reply.body) ==> !Accepted(reply)
  {
    if reply.Response? {
      TrimEmptyIffBlank(reply.body);
    }
  }

  /** The result of `fetchNewToken`: the token, or `None` when it throws;
      how many attempts it made; the pauses it asked for, in order. */
  datatype Fetched = Fetched(token: Option<string>, attempts: nat, delays: seq<int>)

  /** The attempts of `fetchNewToken(retries, delayMs)` from attempt
      number `attempt` on, `join(k)` being the answer to attempt `k`. A
      rejected attempt `k` is followed by a pause of `delayMs * k` unless
      it was the last one. */
  function FetchFrom(join: nat -> JoinReply, retries: int, delayMs: int, attempt: nat): (r: Fetched)
    requires attempt >= 1
    ensures r.token.Some? ==> Accepted(join(r.attempts)) && r.token.value == join(r.attempts).body
    decreases if attempt > retries then 0 else retries - attempt + 1
  {
    if attempt > retries then Fetched(None, attempt - 1, [])
    else if Accepted(join(attempt)) then Fetched(Some(join(attempt).body), attempt, [])
    else
      var rest := FetchFrom(join, retries, delayMs, attempt + 1);
      var pause := if attempt < retries then [delayMs * attempt] else [];
      Fetched(rest.token, rest.attempts, pause + rest.delays)
  }

  /** The run from `attempt` on: a token is the body of the first accepted
      answer, and no token means every remaining attempt up to `retries`
      was refused. */
  lemma {:induction false} FetchFromAnswers(join: nat -> JoinReply, retries: int, delayMs: int, attempt: nat)
    requires attempt >= 1
    ensures var r := FetchFrom(join, retries, delayMs, attempt);
      && attempt - 1 <= r.attempts
      && (r.token.Some? ==> attempt <= r.attempts <= retries && Accepted(join(r.attempts))
                            && r.token.value == join(r.attempts).body)
      && (r.token.None? ==> r.attempts == if retries < attempt then attempt - 1 else retries)
      && (forall k :: attempt <= k < r.attempts ==> !Accepted(join(k)))
      && (r.token.None? ==> forall k :: attempt <= k <= retries ==> !Accepted(join(k)))
    decreases if attempt > retries then 0 else retries - attempt + 1
  {
    if attempt <= retries && !Accepted(join(attempt)) {
      FetchFromAnswers(join, retries, delayMs, attempt + 1);
    }
  }

  /** The pauses of the run from `attempt` on grow linearly, one after
      each refused attempt but the last. */
  lemma {:induction false} FetchFromDelays(join: nat -> JoinReply, retries: int, delayMs: int, attempt: nat)
    requires attempt >= 1
    ensures var r := FetchFrom(join, retries, delayMs, attempt);
      && (r.token.Some? ==> |r.delays| == r.attempts - attempt)
      && (r.token.None? ==> |r.delays| == if retries < attempt then 0 else retries - attempt)
      && (forall i :: 0 <= i < |r.delays| ==> r.delays[i] == delayMs * (attempt + i))
    decreases if attempt > retries then 0 else retries - attempt + 1
  {
    if attempt <= retries && !Accepted(join(attempt)) {
      FetchFromDelays(join, retries, delayMs, attempt + 1);
      FetchFromAnswers(join, retries, delayMs, attempt + 1);
      var r, rest := FetchFrom(join, retries, delayMs, attempt), FetchFrom(join, retries, delayMs, attempt + 1);
      var pause := if attempt < retries then [delayMs * attempt] else [];
      assert r.delays == pause + rest.delays;
      forall i | 0 <= i < |r.delays|
        ensures r.delays[i] == delayMs * (attempt + i)
      {
        if i >= |pause| {
          assert r.delays[i] == rest.delays[i - |pause|];
        }
      }
    }
  }

  /** `fetchNewToken(retries, delayMs)`: the `for` loop over the attempts. */
  method FetchNewToken(join: nat -> JoinReply, retries: int, delayMs: int) returns (f: Fetched)
    ensures f == FetchFrom(join, retries, delayMs, 1)
    ensures f.attempts <= if retries < 0 then 0 else retries
    ensures f.token.Some? ==> Trim(f.token.value) != "" && forall k :: 1 <= k < f.attempts ==> !Accepted(join(k))
    ensures f.token.None? ==> forall k :: 1 <= k <= retries ==> !Accepted(join(k))
  {
    var attempt := 1;
    var delays: seq<int> := [];
    while attempt <= retries
      invariant 1 <= attempt
      invariant retries >= 0 ==> attempt <= retries + 1
      invariant retries < 0 ==> attempt == 1
      invariant var rest := FetchFrom(join, retries, delayMs, attempt);
        FetchFrom(join, retries, delayMs, 1) == Fetched(rest.token, rest.attempts, delays + rest.delays)
      decreases retries - attempt + 1
    {
      var reply := join(attempt);
      FetchStep(join, retries, delayMs, attempt);
      if Accepted(reply) {
        assert delays + [] == delays;
        f := Fetched(Some(reply.body), attempt, delays);
        FetchOutcome(join, retries, delayMs, f);
        return;
      }
      var rest := FetchFrom(join, retries, delayMs, attempt + 1);
      if attempt < retries {
        assert delays + ([delayMs * attempt] + rest.delays) == (delays + [delayMs * attempt]) + rest.delays;
        delays := delays + [delayMs * attempt];
      } else {
        assert [] + rest.delays == rest.delays;
      }
      attempt := attempt + 1;
    }
    assert delays + [] == delays;
    f := Fetched(None, attempt - 1, delays);
    FetchOutcome(join, retries, delayMs, f);
  }

  /** One attempt of the run: an accepted answer ends it, a refused one
      is followed by the pause (unless it was the last) and the rest. */
  lemma FetchStep(join: nat -> JoinReply, retries: int, delayMs: int, attempt: nat)
    requires 1 <= attempt <= retries
    ensures Accepted(join(attempt)) ==>
      FetchFrom(join, retries, delayMs, attempt) == Fetched(Some(join(attempt).body), attempt, [])
    ensures !Accepted(join(attempt)) ==>
      var rest := FetchFrom(join, retries, delayMs, attempt + 1);
      FetchFrom(join, retries, delayMs, attempt)
        == Fetched(rest.token, rest.attempts, (if attempt < retries then [delayMs * attempt] else []) + rest.delays)
  {
  }

  /** What the whole run of attempts tells about the answers: a token is
      the first accepted answer, no token means every attempt was refused. */
  lemma FetchOutcome(join: nat -> JoinReply, retries: int, delayMs: int, f: Fetched)
    requires f == FetchFrom(join, retries, delayMs, 1)
    ensures f.attempts <= if retries < 0 then 0 else retries
    ensures f.token.Some? ==> Trim(f.token.value) != "" && forall k :: 1 <= k < f.attempts ==> !Accepted(join(k))
    ensures f.token.None? ==> forall k :: 1 <= k <= retries ==> !Accepted(join(k))
  {
    FetchFromAnswers(join, retries, delayMs, 1);
  }

  /** What `getOrRefreshToken()` leaves behind: the token or the error it
      throws, the storage afterwards, the fetch it made (if any) and the
      token it asked the endpoint to revoke (if any). */
  datatype Refresh = Refresh(token: Result<string, Failure>, storage: Storage, fetched: Option<Fetched>,
                             revoked: Option<string>)

  /** `fetchNewToken()` with its default arguments. */
  function FetchDefault(join: nat -> JoinReply): (f: Fetched)
    ensures f.attempts <= DefaultRetries
    ensures f.token.Some? ==> f.token.value != ""
  {
    FetchFromAnswers(join, DefaultRetries, DefaultDelayMs, 1);
    FetchFrom(join, DefaultRetries, DefaultDelayMs, 1)
  }

  /** `getOrRefreshToken()` at time `now`, storing a new token at time
      `storedAt`. With no stored token a new one is fetched, and failing
      that the call throws; an expired token is replaced when a new one can
      be fetched (the old one revoked, whether or not that works) and is
      returned as it is when not; a live token is returned untouched.
      Clearing the two entries before writing both anew leaves the same
      storage as writing them, so the model writes them. */
  function GetOrRefreshToken(st: Storage, now: int, storedAt: nat, join: nat -> JoinReply): (r: Refresh)
    ensures r.token.Ok? ==> r.token.value != ""
    ensures GetStoredToken(st).None? ==>
      var f := FetchDefault(join);
      && r.fetched == Some(f) && r.revoked.None?
      && (f.token.Some? ==> r.token == Ok(f.token.value) && r.storage == StoreToken(f.token.value, storedAt))
      && (f.token.None? ==> r.token == Err(TokenUnavailable) && r.storage == st)
    ensures GetStoredToken(st).Some? && !IsTokenExpired(now, GetStoredToken(st).value.timestamp) ==>
      r == Refresh(Ok(GetStoredToken(st).value.token), st, None, None)
    ensures GetStoredToken(st).Some? && IsTokenExpired(now, GetStoredToken(st).value.timestamp) ==>
      var previous := GetStoredToken(st).value.token;
      var f := FetchDefault(join);
      && r.fetched == Some(f)
      && (f.token.Some? ==>
            r.token == Ok(f.token.value) && r.storage == StoreToken(f.token.value, storedAt) && r.revoked == Some(previous))
      && (f.token.None? ==> r.token == Ok(previous) && r.storage == st && r.revoked.None?)
  {
    match GetStoredToken(st)
    case None =>
      var f := FetchDefault(join);
      if f.token.Some? then Refresh(Ok(f.token.value), StoreToken(f.token.value, storedAt), Some(f), None)
      else Refresh(Err(TokenUnavailable), st, Some(f), None)
    case Some(stored) =>
      if IsTokenExpired(now, stored.timestamp) then
        var f := FetchDefault(join);
        if f.token.Some? then
          Refresh(Ok(f.token.value), StoreToken(f.token.value, storedAt), Some(f), Some(stored.token))
        else Refresh(Ok(stored.token), st, Some(f), None)
      else Refresh(Ok(stored.token), st, None, None)
  }

  /** Asking again within a day of a refresh gives the same token, with no
      fetch: the cache is idempotent for as long as the token lives. */
  lemma RefreshThenReuse(st: Storage, now: int, storedAt: nat, join: nat -> JoinReply, later: int, joinAgain: nat -> JoinReply)
    requires later <= storedAt + TokenMaxAgeMs
    ensures var first := GetOrRefreshToken(st, now, storedAt, join);
      var second := GetOrRefreshToken(first.storage, later, storedAt, joinAgain);
      first.token.Ok? && first.storage != st ==>
        second.token == first.token && second.fetched.None? && second.storage == first.storage
  {
    var first := GetOrRefreshToken(st, now, storedAt, join);
    if first.token.Ok? && first.storage != st {
      StoreThenRead(first.token.value, storedAt, later);
    }
  }
}
