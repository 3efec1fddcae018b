/** The bounded-retry wrapper put around every record-store call
    (`retry_on_failure`).

    The wrapped call is modelled by `call: nat -> Outcome<T>`, where `call(k)`
    is what attempt number `k` (counting from 1) does. Sleeping is counted,
    not performed, and logging is left out.
 */
module Retry {
  import opened Wrappers

  /** Defaults of the decorator: three attempts, two seconds apart. */
  const DefaultMaxRetries: int := 3
  const DefaultDelay: nat := 2

  /** How the wrapper left: returned a value, re-raised the last failure, or
      (when `max_retries < 1`) fell off the end of an empty loop, returning `None`. */
  datatype Ending<+T> = Returned(value: T) | Reraised(error: string) | FellThrough

  datatype Run<+T> = Run(ending: Ending<T>, attempts: nat, sleeps: nat) {

    /** The wrapper's value seen by a caller that only wants a result: a
        re-raise and the `None` of an empty loop both leave it without one. */
    function Result(): Option<T> {
      match ending
      case Returned(v) => Some(v)
      case _ => None
    }

    /** Seconds spent in `time.sleep` for a fixed `delay`. */
    function SleptFor(delay: nat): nat {
      sleeps * delay
    }
  }

  /** The attempts from number `k` on, when attempts `1 .. k-1` have failed. */
  function RunFrom<T>(maxRetries: int, call: nat -> Outcome<T>, k: nat): (r: Run<T>)
    requires 1 <= k <= maxRetries
    ensures k <= r.attempts <= maxRetries
    ensures r.sleeps == r.attempts - 1
    ensures forall j :: k <= j < r.attempts ==> call(j).Failure?
    ensures r.ending.Returned? ==> call(r.attempts) == Success(r.ending.value)
    ensures r.ending.Reraised? ==> r.attempts == maxRetries && call(maxRetries) == Failure(r.ending.error)
    ensures !r.ending.FellThrough?
    decreases maxRetries - k
  {
    match call(k)
    case Success(v) => Run(Returned(v), k, k - 1)
    case Failure(e) =>
      if k < maxRetries then RunFrom(maxRetries, call, k + 1)
      else Run(Reraised(e), k, k - 1)
  }

  /** `retry_on_failure(max_retries)(func)` applied once. */
  function Retry<T>(maxRetries: int, call: nat -> Outcome<T>): (r: Run<T>)
    ensures maxRetries < 1 ==> r == Run(FellThrough, 0, 0)
    ensures maxRetries >= 1 ==> 1 <= r.attempts <= maxRetries && r.sleeps == r.attempts - 1
    ensures maxRetries >= 1 ==> !r.ending.FellThrough?
    ensures forall j :: 1 <= j < r.attempts ==> call(j).Failure?
    ensures r.ending.Returned? ==> call(r.attempts) == Success(r.ending.value)
    ensures r.ending.Reraised? <==> maxRetries >= 1 && forall j :: 1 <= j <= maxRetries ==> call(j).Failure?
    ensures r.ending.Reraised? ==> r.attempts == maxRetries && call(maxRetries) == Failure(r.ending.error)
  {
    if maxRetries < 1 then Run(FellThrough, 0, 0) else RunFrom(maxRetries, call, 1)
  }

  /** A call wrapped with the decorator's defaults, as the `safe_*` helpers are. */
  function SafeCall<T>(call: nat -> Outcome<T>): (r: Option<T>)
    ensures r.Some? <==> exists k :: 1 <= k <= DefaultMaxRetries && call(k).Success?
    ensures r.Some? ==> exists k :: 1 <= k <= DefaultMaxRetries && call(k) == Success(r.value)
                                    && forall j :: 1 <= j < k ==> call(j).Failure?
  {
    var run := Retry(DefaultMaxRetries, call);
    assert run.ending.Returned? ==> call(run.attempts) == Success(run.ending.value)
                                    && forall j :: 1 <= j < run.attempts ==> call(j).Failure?;
    assert run.ending.Returned? || run.ending.Reraised?;
    run.Result()
  }

  /** The decorator's loop, statement for statement. */
  method Execute<T>(maxRetries: int, call: nat -> Outcome<T>) returns (ending: Ending<T>, attempts: nat, sleeps: nat)
    ensures Run(ending, attempts, sleeps) == Retry(maxRetries, call)
    ensures sleeps < attempts || attempts == 0
  {
    ending, attempts, sleeps := FellThrough, 0, 0;
    var attempt := 1;
    while attempt <= maxRetries
      invariant 1 <= attempt && (maxRetries >= 1 ==> attempt <= maxRetries) && (maxRetries < 1 ==> attempt == 1)
      invariant attempts == sleeps == attempt - 1
      invariant ending == FellThrough
      invariant maxRetries >= 1 ==> Retry(maxRetries, call) == RunFrom(maxRetries, call, attempt)
    {
      attempts := attempt;
      match call(attempt) {
        case Success(v) =>
          ending := Returned(v);
          return;
        case Failure(e) =>
          if attempt < maxRetries {
            sleeps := sleeps + 1;
          } else {
            ending := Reraised(e);
            return;
          }
      }
      attempt := attempt + 1;
    }
  }
}
