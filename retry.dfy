/** `retry` of src/retry.ts: call a function until it succeeds, waiting
    1000 ms after the first failure and twice as long after each further
    one, and re-throw the last error once the retry budget is spent. The
    function's successive outcomes are given as a sequence, and the waits
    are recorded instead of slept. */
module Retry {

  /** What one call of the retried function does: resolve with a value or
      reject with an error. */
  datatype Outcome<T, E> = Success(value: T) | Failure(error: E)

  /** The run stops within `outcomes`: some call succeeds, or a call fails
      with no retries left, before the outcomes run out. */
  predicate Ends<T, E>(retries: int, outcomes: seq<Outcome<T, E>>)
    decreases |outcomes|
  {
    && |outcomes| > 0
    && (outcomes[0].Success? || retries == 0 || Ends(retries - 1, outcomes[1..]))
  }

  /** How many calls `retry` makes: one more after every failure, until a
      call succeeds or fails with no retries left. */
  function Attempts<T, E>(retries: int, outcomes: seq<Outcome<T, E>>): (n: nat)
    requires Ends(retries, outcomes)
    ensures 1 <= n <= |outcomes|
    ensures outcomes[n - 1].Success? || n - 1 == retries
    ensures forall j :: 0 <= j < n - 1 ==> outcomes[j].Failure?
    ensures retries < 0 || n <= retries + 1
    decreases |outcomes|
  {
    if outcomes[0].Success? || retries == 0 then 1
    else
      var tail := outcomes[1..];
      var m := Attempts(retries - 1, tail);
      assert forall j :: 1 <= j <= m ==> tail[j - 1] == outcomes[j];
      1 + m
  }

  /** The stopping call is the only one that either succeeds or finds the
      budget spent with none of the earlier calls doing so. */
  lemma {:induction false} AttemptsUnique<T, E>(retries: int, outcomes: seq<Outcome<T, E>>, n: nat)
    requires Ends(retries, outcomes)
    requires 1 <= n <= |outcomes|
    requires outcomes[n - 1].Success? || n - 1 == retries
    requires forall j :: 0 <= j < n - 1 ==> outcomes[j].Failure?
    requires retries < 0 || n <= retries + 1
    ensures n == Attempts(retries, outcomes)
    decreases n
  {
    if !(outcomes[0].Success? || retries == 0) {
      var tail := outcomes[1..];
      assert tail[n - 2] == outcomes[n - 1];
      forall j | 0 <= j < n - 2 ensures tail[j].Failure? {
        assert tail[j] == outcomes[j + 1];
      }
      AttemptsUnique(retries - 1, tail, n - 1);
    }
  }

  /** When every call fails, a budget of `retries >= 0` ends the run after
      exactly `retries + 1` calls, on a failure. */
  lemma {:induction false} AllFail<T, E>(retries: int, outcomes: seq<Outcome<T, E>>)
    requires 0 <= retries < |outcomes|
    requires forall j :: 0 <= j < |outcomes| ==> outcomes[j].Failure?
    ensures Ends(retries, outcomes)
    ensures Attempts(retries, outcomes) == retries + 1
    ensures outcomes[Attempts(retries, outcomes) - 1].Failure?
    decreases retries
  {
    if retries > 0 {
      var tail := outcomes[1..];
      forall j | 0 <= j < |tail| ensures tail[j].Failure? {
        assert tail[j] == outcomes[j + 1];
      }
      AllFail(retries - 1, tail);
    }
  }

  /** With a negative budget the `retries === 0` test never holds, so a
      run in which every call fails never stops. */
  lemma {:induction false} NegativeBudget<T, E>(retries: int, outcomes: seq<Outcome<T, E>>)
    requires retries < 0
    requires forall j :: 0 <= j < |outcomes| ==> outcomes[j].Failure?
    ensures !Ends(retries, outcomes)
    decreases |outcomes|
  {
    if |outcomes| > 0 {
      var tail := outcomes[1..];
      forall j | 0 <= j < |tail| ensures tail[j].Failure? {
        assert tail[j] == outcomes[j + 1];
      }
      NegativeBudget(retries - 1, tail);
    }
  }

  /** The first success within the budget is where the run stops. */
  lemma {:induction false} FirstSuccess<T, E>(retries: int, outcomes: seq<Outcome<T, E>>, k: nat)
    requires k < |outcomes| && outcomes[k].Success?
    requires forall j :: 0 <= j < k ==> outcomes[j].Failure?
    requires retries < 0 || k <= retries
    ensures Ends(retries, outcomes)
    ensures Attempts(retries, outcomes) == k + 1
    decreases k
  {
    if k > 0 {
      var tail := outcomes[1..];
      forall j | 0 <= j < k - 1 ensures tail[j].Failure? {
        assert tail[j] == outcomes[j + 1];
      }
      FirstSuccess(retries - 1, tail, k - 1);
    }
  }

  /** 2 to the power `k`. */
  function Pow2(k: nat): (r: nat)
    ensures r >= 1
  {
    if k == 0 then 1 else 2 * Pow2(k - 1)
  }

  /** The waits before the retries, in milliseconds: the timeout starts at
      1000 and doubles after every wait. */
  function Backoff(n: nat): (r: seq<nat>)
    ensures |r| == n
    ensures forall k :: 0 <= k < n ==> r[k] == 1000 * Pow2(k)
  {
    if n == 0 then [] else Backoff(n - 1) + [1000 * Pow2(n - 1)]
  }

  function Sum(s: seq<nat>): (total: nat) {
    if s == [] then 0 else Sum(s[..|s| - 1]) + s[|s| - 1]
  }

  /** `n` waits take 1000 * (2^n - 1) milliseconds in total. */
  lemma {:induction false} BackoffTotal(n: nat)
    ensures Sum(Backoff(n)) == 1000 * (Pow2(n) - 1)
  {
    if n > 0 {
      BackoffTotal(n - 1);
      assert Backoff(n)[..n - 1] == Backoff(n - 1);
    }
  }

  /** `retry`: calls the function once per element of `outcomes` until a
      call succeeds or fails with no retries left; returns the outcome of
      the last call (its value, or the error it re-throws), the number of
      calls and the waits between them. */
  method Retry<T, E>(retries: int, outcomes: seq<Outcome<T, E>>)
    returns (result: Outcome<T, E>, calls: nat, delays: seq<nat>)
    requires Ends(retries, outcomes)
    ensures calls == Attempts(retries, outcomes)
    ensures result == outcomes[calls - 1]
    ensures delays == Backoff(calls - 1)
  {
    var budget := retries;
    var timeout: nat := 1000;
    calls, delays := 0, [];
    while true
      invariant calls < |outcomes|
      invariant budget == retries - calls
      invariant Ends(budget, outcomes[calls..])
      invariant timeout == 1000 * Pow2(calls)
      invariant delays == Backoff(calls)
      invariant forall j :: 0 <= j < calls ==> outcomes[j].Failure?
      invariant retries < 0 || calls <= retries
      decreases |outcomes| - calls
    {
      var outcome := outcomes[calls];
      calls := calls + 1;
      if outcome.Success? {
        AttemptsUnique(retries, outcomes, calls);
        return outcome, calls, delays;
      }
      if budget == 0 {
        AttemptsUnique(retries, outcomes, calls);
        return outcome, calls, delays;
      }
      delays := delays + [timeout];
      budget := budget - 1;
      timeout := timeout * 2;
      assert outcomes[calls - 1..][1..] == outcomes[calls..];
    }
  }
}
