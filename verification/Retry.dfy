/** Retrying a fallible operation, and the confirmation of broadcast transactions built on it. */
module Retry {
  import opened Common

  /** The number of calls a policy allows: the operation always runs at least once. */
  function Budget(maxAttempts: u64): (n: nat) {
    if maxAttempts == 0 then 1 else maxAttempts
  }

  /**
   * `calls` and `res` are what retrying amounts to: the operation is repeated up to its first success
   * or the end of the budget, whichever comes first, and the last outcome is the result.
   */
  ghost predicate Retried<R, E>(attempt: nat -> Result<R, E>, maxAttempts: u64, res: Result<R, E>, calls: nat) {
    && 1 <= calls <= Budget(maxAttempts)
    && res == attempt(calls - 1)
    && (forall k: nat :: k < calls - 1 ==> attempt(k).Err?)
    && (res.Ok? || calls == Budget(maxAttempts))
  }

  lemma RetriedIsUnique<R, E>(attempt: nat -> Result<R, E>, maxAttempts: u64, res: Result<R, E>, calls: nat,
                              res': Result<R, E>, calls': nat)
    requires Retried(attempt, maxAttempts, res, calls) && Retried(attempt, maxAttempts, res', calls')
    ensures res == res' && calls == calls'
  {
  }

  datatype PolicyAction = Retry | Abort

  function EnactPolicy(attemptCount: u64, maxAttempts: u64): PolicyAction {
    if attemptCount >= maxAttempts then Abort else Retry
  }

  /** `attempt(k)` is the outcome of the k-th call. The attempt counter saturates as in the source. */
  method WithRetry<R, E>(attempt: nat -> Result<R, E>, maxAttempts: u64)
    returns (res: Result<R, E>, calls: nat, sleeps: nat)
    ensures Retried(attempt, maxAttempts, res, calls)
    ensures sleeps == calls - 1
  {
    var attemptCount: u64 := 0;
    calls, sleeps := 0, 0;
    while true
      invariant attemptCount == calls == sleeps < Budget(maxAttempts)
      invariant forall k: nat :: k < calls ==> attempt(k).Err?
      decreases Budget(maxAttempts) - calls
    {
      res := attempt(calls);
      calls := calls + 1;
      if res.Ok? {
        return;
      }
      attemptCount := SaturatingAdd(attemptCount, 1);
      if EnactPolicy(attemptCount, maxAttempts).Abort? {
        return;
      }
      sleeps := sleeps + 1;
    }
  }

  // ---------------------------------------------------------------------------------------
  // Transaction confirmation.

  datatype TxQuery = QueryFailed | Missing | Found(code: nat)

  datatype ConfirmError = NotFound | FailureOnChain(code: nat) | QueryError

  /** One query for the transaction, as the retried operation sees it. */
  function Tx(q: TxQuery): Result<nat, ConfirmError> {
    match q
    case QueryFailed => Err(QueryError)
    case Missing => Err(NotFound)
    case Found(code) => Ok(code)
  }

  ghost predicate FirstFound(query: nat -> TxQuery, k: nat) {
    query(k).Found? && forall j: nat :: j < k ==> !query(j).Found?
  }

  /**
   * Confirmation succeeds exactly when the first response found within the budget has code 0, and the
   * chain is not asked again once a response was found, whatever its code.
   */
  method ConfirmTx(query: nat -> TxQuery, maxAttempts: u64) returns (r: Result<nat, ConfirmError>, calls: nat)
    ensures 1 <= calls <= Budget(maxAttempts)
    ensures r.Ok? <==> exists k: nat :: k < Budget(maxAttempts) && FirstFound(query, k) && query(k).code == 0
    ensures r.Err? && r.error.FailureOnChain? <==>
            exists k: nat :: k < Budget(maxAttempts) && FirstFound(query, k) && query(k).code != 0
    ensures forall k: nat :: k < Budget(maxAttempts) && FirstFound(query, k) ==> calls == k + 1
    ensures (forall k: nat :: k < Budget(maxAttempts) ==> !query(k).Found?) ==>
              calls == Budget(maxAttempts) && r == Err(if query(calls - 1).Missing? then NotFound else QueryError)
  {
    var attempt := (k: nat) => Tx(query(k));
    var res, n, _ := WithRetry(attempt, maxAttempts);
    calls := n;
    assert forall k: nat :: attempt(k).Err? <==> !query(k).Found?;
    assert res.Ok? ==> FirstFound(query, calls - 1);
    match res
    case Err(e) => r := Err(e);
    case Ok(code) => r := if code == 0 then Ok(code) else Err(FailureOnChain(code));
  }
}
