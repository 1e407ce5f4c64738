/** Retries of a step function. */
module WorkflowRetry {
  import opened WorkflowLog
  import opened WorkflowReplay

  /** One attempt at a step function. */
  datatype Attempt = Succeeded(value: Value) | Errored(error: Error, retryable: bool)

  /** Attempt `n` is the last one made: it succeeds, may not be retried, or uses up the allowance. */
  ghost predicate Last(attempts: nat -> Attempt, max: int, n: nat) {
    attempts(n).Succeeded? || !attempts(n).retryable || n >= max
  }

  /** `runWithRetry`: attempts are numbered from 1, and at least one is made. The last error is thrown. */
  method RunWithRetry(attempts: nat -> Attempt, maxAttempts: int) returns (outcome: Outcome, made: nat)
    ensures 1 <= made && (made <= maxAttempts || made == 1)
    ensures Last(attempts, maxAttempts, made) && forall n :: 1 <= n < made ==> !Last(attempts, maxAttempts, n)
    ensures outcome == match attempts(made) case Succeeded(v) => Ok(v) case Errored(error, _) => Threw(error)
  {
    var max := if maxAttempts > 1 then maxAttempts else 1;
    made := 1;
    while true
      invariant 1 <= made <= max
      invariant forall n :: 1 <= n < made ==> !Last(attempts, maxAttempts, n)
      decreases max - made
    {
      match attempts(made)
      case Succeeded(v) => return Ok(v), made;
      case Errored(error, retryable) =>
        outcome := Threw(error);
        if !retryable || made >= max { return; }
      made := made + 1;
    }
  }
}
