/** The retry policy around every operation on a pod: which exceptions it retries, and what it makes of
    up to five attempts. */
module Retry {
  import opened Text

  datatype Exc =
    | ApiException | WebSocketException | WebSocketTimeoutException
    | OSError | ConnectionError | BrokenPipeError | ConnectionResetError
    | PermissionError | TimeoutError | FileNotFoundError | IsADirectoryError
    | PodError | GetReturncodeError | ExecutableNotFoundError
    | RuntimeError | K8sError | PodReplacedError | ContainerRestartedError
    | OutputLimitExceededError | UnicodeDecodeError | OtherException

  function Bases(e: Exc): set<Exc> {
    match e
    case WebSocketTimeoutException => {WebSocketException}
    case ConnectionError | PermissionError | TimeoutError | FileNotFoundError | IsADirectoryError => {OSError}
    case BrokenPipeError | ConnectionResetError => {ConnectionError, OSError}
    case PodReplacedError | ContainerRestartedError => {K8sError}
    case _ => {}
  }

  predicate IsInstance(e: Exc, classes: set<Exc>) {
    ({e} + Bases(e)) * classes != {}
  }

  const TRANSIENT := {ApiException, WebSocketException, ConnectionError, OSError, PodError, GetReturncodeError}
  const PERMANENT := {ExecutableNotFoundError, RuntimeError, PermissionError, TimeoutError, FileNotFoundError, IsADirectoryError}

  predicate Retryable(e: Exc) {
    IsInstance(e, TRANSIENT) && !IsInstance(e, PERMANENT)
  }

  /** Of the OS errors, those the sandbox interface promises to its callers are never retried; nor
      is a detected restart, or output over the limit. */
  lemma RetriedExactly(e: Exc)
    ensures Retryable(e) <==>
      e in {ApiException, WebSocketException, WebSocketTimeoutException, OSError, ConnectionError,
            BrokenPipeError, ConnectionResetError, PodError, GetReturncodeError}
  {
    var transient, permanent := ({e} + Bases(e)) * TRANSIENT, ({e} + Bases(e)) * PERMANENT;
    assert e in TRANSIENT ==> e in transient;
    assert e in PERMANENT ==> e in permanent;
    assert OSError in Bases(e) ==> OSError in transient;
    assert WebSocketException in Bases(e) ==> WebSocketException in transient;
    assert forall x :: x in permanent ==> x == e;
  }

  const MAX_ATTEMPTS := 5

  /** The outcome of retrying, given what each attempt would do: the first attempt that succeeds or
      fails for good decides, and the fifth decides whatever it does. */
  function Retried<T>(outcomes: seq<Result<T, Exc>>, attempt: nat): Result<T, Exc>
    requires 1 <= attempt <= MAX_ATTEMPTS && |outcomes| >= MAX_ATTEMPTS
    decreases MAX_ATTEMPTS - attempt
  {
    var outcome := outcomes[attempt - 1];
    if outcome.Ok? || !Retryable(outcome.error) || attempt == MAX_ATTEMPTS then outcome
    else Retried(outcomes, attempt + 1)
  }

  /** All attempts before the k-th fail transiently. */
  predicate TransientBefore<T>(outcomes: seq<Result<T, Exc>>, from_: nat, k: nat)
    requires k <= |outcomes|
  {
    forall j :: from_ <= j < k ==> outcomes[j].Err? && Retryable(outcomes[j].error)
  }

  lemma TransientLater<T>(outcomes: seq<Result<T, Exc>>, attempt: nat)
    requires 1 <= attempt < MAX_ATTEMPTS && |outcomes| >= MAX_ATTEMPTS
    requires outcomes[attempt - 1].Err? && Retryable(outcomes[attempt - 1].error)
    ensures forall k :: attempt <= k < MAX_ATTEMPTS ==> (TransientBefore(outcomes, attempt - 1, k) <==> TransientBefore(outcomes, attempt, k))
  {
  }

  /** From this attempt on, the one at index `k` ends in this error after only transient failures, and no
      other attempt follows it. */
  predicate FailsAt<T(==)>(outcomes: seq<Result<T, Exc>>, attempt: nat, e: Exc, k: nat)
    requires 1 <= attempt && |outcomes| >= 5
  {
    attempt - 1 <= k < 5 && outcomes[k] == Err(e) && TransientBefore(outcomes, attempt - 1, k) && (k == 4 || !Retryable(e))
  }

  lemma FailsLater<T>(outcomes: seq<Result<T, Exc>>, attempt: nat, e: Exc, k: nat)
    requires 1 <= attempt < 5 && |outcomes| >= 5 && outcomes[attempt - 1].Err? && Retryable(outcomes[attempt - 1].error)
    ensures FailsAt(outcomes, attempt, e, k) <==> FailsAt(outcomes, attempt + 1, e, k)
  {
  }

  lemma FailsHere<T>(outcomes: seq<Result<T, Exc>>, attempt: nat, e: Exc, k: nat)
    requires 1 <= attempt <= 5 && |outcomes| >= 5
    requires outcomes[attempt - 1].Ok? || !Retryable(outcomes[attempt - 1].error) || attempt == 5
    ensures FailsAt(outcomes, attempt, e, k) <==> k == attempt - 1 && outcomes[k] == Err(e)
  {
  }

  /** A retried operation fails exactly with the error of an attempt that only transient failures came
      before, and that is either not retried or the fifth. */
  lemma {:induction false} RetriedFailsIff<T>(outcomes: seq<Result<T, Exc>>, attempt: nat, e: Exc)
    requires 1 <= attempt <= 5 && |outcomes| >= 5
    ensures Retried(outcomes, attempt) == Err(e) <==> exists k: nat :: FailsAt(outcomes, attempt, e, k)
    decreases 5 - attempt
  {
    var first := outcomes[attempt - 1];
    if first.Ok? || !Retryable(first.error) || attempt == 5 {
      forall k: nat ensures FailsAt(outcomes, attempt, e, k) <==> k == attempt - 1 && outcomes[k] == Err(e) {
        FailsHere(outcomes, attempt, e, k);
      }
      FailsHere(outcomes, attempt, e, attempt - 1);
    } else {
      var next := attempt + 1;
      RetriedFailsIff(outcomes, next, e);
      if k: nat :| FailsAt(outcomes, next, e, k) {
        FailsLater(outcomes, attempt, e, k);
      }
      if k: nat :| FailsAt(outcomes, attempt, e, k) {
        FailsLater(outcomes, attempt, e, k);
      }
    }
  }

  /** A retried operation succeeds exactly when one of the five attempts does and only transient
      failures came before it; its value is that attempt's. */
  lemma {:induction false} RetriedSucceedsIff<T>(outcomes: seq<Result<T, Exc>>, attempt: nat, value: T)
    requires 1 <= attempt <= MAX_ATTEMPTS && |outcomes| >= MAX_ATTEMPTS
    ensures Retried(outcomes, attempt) == Ok(value) <==>
            exists k :: attempt - 1 <= k < 5 && outcomes[k] == Ok(value) && TransientBefore(outcomes, attempt - 1, k)
    decreases MAX_ATTEMPTS - attempt
  {
    var first := outcomes[attempt - 1];
    if first.Ok? || !Retryable(first.error) || attempt == MAX_ATTEMPTS {
      assert TransientBefore(outcomes, attempt - 1, attempt - 1);
    } else {
      RetriedSucceedsIff(outcomes, attempt + 1, value);
      TransientLater(outcomes, attempt);
    }
  }
}
