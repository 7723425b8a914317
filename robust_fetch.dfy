/** The retry loop of `robust_indicator_fetch`
    (utils/examples/stockstats_robust_example.py): at most `max_retries`
    calls of the indicator fetch, retrying only failures whose message looks
    like a network error, with a delay that doubles after each retry.

    The fetch is a parameter giving the outcome of the k-th call (0-based);
    `time.sleep` is modelled by the list of delays requested, in order. */
module RobustFetch {
  import opened Wrappers
  import opened Text

  /** The outcome of one call: its result, or the text of the exception it
      raised. */
  datatype Outcome = Ok(value: string) | Err(message: string)

  /** The pair `(result, error)` the function returns, with the number of
      calls it made and the delays it slept. */
  datatype Report = Report(result: Option<string>, error: Option<string>, calls: nat, sleeps: seq<int>)

  /** The words that mark an error message as a network error. */
  const NetworkKeywords: seq<string> := ["connection", "curl", "timeout", "reset", "network"]

  /** `any(word in text for word in words)` */
  predicate MentionsAny(text: string, words: seq<string>)
    decreases |words|
  {
    words != [] && (Contains(text, words[0]) || MentionsAny(text, words[1..]))
  }

  /** Some keyword occurs in the lower-cased message. */
  predicate IsNetworkError(message: string)
  {
    MentionsAny(Lower(message), NetworkKeywords)
  }

  /** The message is a network error exactly when one of the keywords
      occurs in it, letter case aside. */
  lemma {:induction false} MentionsAnySpec(text: string, words: seq<string>)
    ensures MentionsAny(text, words) <==> exists k :: 0 <= k < |words| && Contains(text, words[k])
    decreases |words|
  {
    if words != [] {
      MentionsAnySpec(text, words[1..]);
      if exists k :: 0 <= k < |words| && Contains(text, words[k]) {
        var k :| 0 <= k < |words| && Contains(text, words[k]);
        if k > 0 {
          assert words[1..][k - 1] == words[k];
        }
      }
      forall k | 0 <= k < |words| - 1
        ensures words[1..][k] == words[k + 1]
      {
      }
    }
  }

  lemma IsNetworkErrorSpec(message: string)
    ensures IsNetworkError(message) <==>
              exists k :: 0 <= k < |NetworkKeywords| && Contains(Lower(message), NetworkKeywords[k])
  {
    MentionsAnySpec(Lower(message), NetworkKeywords);
  }

  /** A failed call the loop retries. */
  predicate Retryable(o: Outcome)
  {
    o.Err? && IsNetworkError(o.message)
  }

  /** The first `n` calls all failed with a network error. */
  predicate AllRetryable(call: nat -> Outcome, n: int)
  {
    forall k :: 0 <= k < n ==> Retryable(call(k))
  }

  const MaxRetriesExceeded := "Max retries exceeded"

  /** The error returned when the last permitted call fails with a network
      error. */
  function NetworkFailure(maxRetries: nat, message: string): string
  {
    "Network error after " + Decimal(maxRetries) + " attempts: " + message
  }

  function Pow2(n: nat): (r: nat)
    ensures r >= 1
  {
    if n == 0 then 1 else 2 * Pow2(n - 1)
  }

  /** The run from attempt `attempt` on, every earlier call having failed
      with a network error: `calls` is the total number of calls and
      `sleeps` the delays slept from this attempt on. The delay before
      retry j is `delay * 2^j`. */
  function RunFrom(call: nat -> Outcome, maxRetries: int, delay: int, attempt: nat): Report
    decreases maxRetries - attempt
  {
    if attempt >= maxRetries then Report(None, Some(MaxRetriesExceeded), attempt, [])
    else match call(attempt)
      case Ok(value) => Report(Some(value), None, attempt + 1, [])
      case Err(message) =>
        if !IsNetworkError(message) then Report(None, Some(message), attempt + 1, [])
        else if attempt == maxRetries - 1 then
          Report(None, Some(NetworkFailure(maxRetries, message)), attempt + 1, [])
        else
          var rest := RunFrom(call, maxRetries, delay, attempt + 1);
          rest.(sleeps := [delay * Pow2(attempt)] + rest.sleeps)
  }

  /** The whole run of `robust_indicator_fetch`. */
  function Fetch(call: nat -> Outcome, maxRetries: int, delay: int): Report
  {
    RunFrom(call, maxRetries, delay, 0)
  }

  /** `robust_indicator_fetch(..., max_retries, delay)`: returns the pair
      `(result, error)`, how many calls were made, and the delays slept. */
  method RobustIndicatorFetch(call: nat -> Outcome, maxRetries: int, delay: int)
    returns (result: Option<string>, error: Option<string>, calls: nat, sleeps: seq<int>)
    ensures Report(result, error, calls, sleeps) == Fetch(call, maxRetries, delay)
  {
    result, error, calls, sleeps := None, None, 0, [];
    var wait := delay;
    var attempt: nat := 0;
    while attempt < maxRetries
      invariant calls == attempt && wait == delay * Pow2(attempt)
      invariant result == None && error == None
      invariant RunFrom(call, maxRetries, delay, attempt).result == Fetch(call, maxRetries, delay).result
      invariant RunFrom(call, maxRetries, delay, attempt).error == Fetch(call, maxRetries, delay).error
      invariant RunFrom(call, maxRetries, delay, attempt).calls == Fetch(call, maxRetries, delay).calls
      invariant sleeps + RunFrom(call, maxRetries, delay, attempt).sleeps == Fetch(call, maxRetries, delay).sleeps
      decreases maxRetries - attempt
    {
      var outcome := call(attempt);
      calls := calls + 1;
      match outcome {
        case Ok(value) =>
          result := Some(value);
          return;
        case Err(message) =>
          var network := IsNetworkError(message);
          if !network {
            error := Some(message);
            return;
          } else if attempt < maxRetries - 1 {
            sleeps := sleeps + [wait];
            wait := wait * 2;
          } else {
            error := Some(NetworkFailure(maxRetries, message));
            return;
          }
      }
      attempt := attempt + 1;
    }
    error := Some(MaxRetriesExceeded);
  }

  /** Properties of the run from one attempt on, by induction on the
      attempts left. */

  /** A run returns exactly one of a result and an error, and calls at
      least once and at most up to `maxRetries` when any attempt is left. */
  lemma {:induction false} RunFromCalls(call: nat -> Outcome, maxRetries: int, delay: int, attempt: nat)
    ensures var r := RunFrom(call, maxRetries, delay, attempt);
      r.result.Some? != r.error.Some?
      && (attempt >= maxRetries ==> r.calls == attempt && r.error == Some(MaxRetriesExceeded) && r.sleeps == [])
      && (attempt < maxRetries ==> attempt < r.calls <= maxRetries)
    decreases maxRetries - attempt
  {
    if attempt < maxRetries && Retryable(call(attempt)) && attempt != maxRetries - 1 {
      RunFromCalls(call, maxRetries, delay, attempt + 1);
    }
  }

  /** Every call of the run but the last failed with a network error. */
  lemma {:induction false} RunFromRetried(call: nat -> Outcome, maxRetries: int, delay: int, attempt: nat)
    ensures var r := RunFrom(call, maxRetries, delay, attempt);
      forall k :: attempt <= k < r.calls - 1 ==> Retryable(call(k))
    decreases maxRetries - attempt
  {
    if attempt < maxRetries && Retryable(call(attempt)) && attempt != maxRetries - 1 {
      RunFromRetried(call, maxRetries, delay, attempt + 1);
    }
  }

  /** What the run returns is decided by its last call. */
  lemma {:induction false} RunFromLast(call: nat -> Outcome, maxRetries: int, delay: int, attempt: nat)
    requires attempt < maxRetries
    ensures var r := RunFrom(call, maxRetries, delay, attempt);
      r.calls >= 1
      && var last := call(r.calls - 1);
      (last.Ok? ==> r.result == Some(last.value) && r.error == None)
      && (last.Err? && !IsNetworkError(last.message) ==> r.result == None && r.error == Some(last.message))
      && (Retryable(last) ==>
            r.calls == maxRetries && r.result == None
            && r.error == Some(NetworkFailure(maxRetries, last.message)))
    decreases maxRetries - attempt
  {
    if Retryable(call(attempt)) && attempt != maxRetries - 1 {
      RunFromLast(call, maxRetries, delay, attempt + 1);
    }
  }

  /** One sleep per retry, the j-th retry of the run waiting
      `delay * 2^j`. */
  lemma {:induction false} RunFromSleeps(call: nat -> Outcome, maxRetries: int, delay: int, attempt: nat)
    ensures var r := RunFrom(call, maxRetries, delay, attempt);
      |r.sleeps| == (if r.calls > attempt then r.calls - 1 - attempt else 0)
      && forall j :: 0 <= j < |r.sleeps| ==> r.sleeps[j] == delay * Pow2(attempt + j)
    decreases maxRetries - attempt
  {
    RunFromCalls(call, maxRetries, delay, attempt);
    if attempt < maxRetries && Retryable(call(attempt)) && attempt != maxRetries - 1 {
      RunFromSleeps(call, maxRetries, delay, attempt + 1);
      RunFromCalls(call, maxRetries, delay, attempt + 1);
    }
  }

  /** The run looks at no call beyond the last one it makes. */
  lemma {:induction false} RunFromUsesCallsMade(c1: nat -> Outcome, c2: nat -> Outcome, maxRetries: int, delay: int, attempt: nat)
    requires forall k :: attempt <= k < RunFrom(c1, maxRetries, delay, attempt).calls ==> c1(k) == c2(k)
    ensures RunFrom(c1, maxRetries, delay, attempt) == RunFrom(c2, maxRetries, delay, attempt)
    decreases maxRetries - attempt
  {
    if attempt < maxRetries {
      RunFromCalls(c1, maxRetries, delay, attempt);
      assert c1(attempt) == c2(attempt);
      if Retryable(c1(attempt)) && attempt != maxRetries - 1 {
        RunFromUsesCallsMade(c1, c2, maxRetries, delay, attempt + 1);
      }
    }
  }

  /** The facts above for the whole run of `robust_indicator_fetch`. */

  /** Exactly one of result and error; with no attempt allowed, no call, no
      sleep and "Max retries exceeded"; otherwise between 1 and
      `max_retries` calls. */
  lemma FetchCalls(call: nat -> Outcome, maxRetries: int, delay: int)
    ensures var r := Fetch(call, maxRetries, delay);
      r.result.Some? != r.error.Some?
      && (maxRetries <= 0 ==>
            r.calls == 0 && r.result == None && r.error == Some(MaxRetriesExceeded) && r.sleeps == [])
      && (maxRetries > 0 ==> 1 <= r.calls <= maxRetries)
  {
    RunFromCalls(call, maxRetries, delay, 0);
  }

  /** Only network errors are retried: every call before the last failed
      with one, and the result or error is the last call's. */
  lemma FetchRetriesOnlyNetworkErrors(call: nat -> Outcome, maxRetries: int, delay: int)
    requires maxRetries > 0
    ensures var r := Fetch(call, maxRetries, delay);
      r.calls >= 1 && AllRetryable(call, r.calls - 1)
      && var last := call(r.calls - 1);
      (last.Ok? <==> r.result.Some?)
      && (last.Ok? ==> r.result == Some(last.value) && r.error == None)
      && (last.Err? && !IsNetworkError(last.message) ==> r.result == None && r.error == Some(last.message))
      && (Retryable(last) ==>
            r.calls == maxRetries && r.error == Some(NetworkFailure(maxRetries, last.message)))
  {
    RunFromCalls(call, maxRetries, delay, 0);
    RunFromRetried(call, maxRetries, delay, 0);
    RunFromLast(call, maxRetries, delay, 0);
  }

  /** The first success ends the run with its value, provided every earlier
      call failed with a network error. */
  lemma FetchFirstSuccess(call: nat -> Outcome, maxRetries: int, delay: int, k: nat)
    requires k < maxRetries && AllRetryable(call, k) && call(k).Ok?
    ensures Fetch(call, maxRetries, delay) == Report(Some(call(k).value), None, k + 1, Fetch(call, maxRetries, delay).sleeps)
  {
    var r := Fetch(call, maxRetries, delay);
    FetchRetriesOnlyNetworkErrors(call, maxRetries, delay);
    assert !Retryable(call(k));
    assert r.calls - 1 == k;
  }

  /** A failure that is not a network error ends the run at once with its
      message, provided every earlier call failed with a network error: no
      retry and no sleep after it. */
  lemma FetchNonNetworkStop(call: nat -> Outcome, maxRetries: int, delay: int, k: nat)
    requires k < maxRetries && AllRetryable(call, k) && call(k).Err? && !IsNetworkError(call(k).message)
    ensures var r := Fetch(call, maxRetries, delay);
      r.result == None && r.error == Some(call(k).message) && r.calls == k + 1 && |r.sleeps| == k
  {
    var r := Fetch(call, maxRetries, delay);
    FetchRetriesOnlyNetworkErrors(call, maxRetries, delay);
    FetchBackoff(call, maxRetries, delay);
    assert !Retryable(call(k));
    assert r.calls - 1 == k;
  }

  /** When every permitted call fails with a network error, all
      `max_retries` calls are made and `max_retries - 1` sleeps. */
  lemma FetchGivesUp(call: nat -> Outcome, maxRetries: int, delay: int)
    requires maxRetries > 0 && AllRetryable(call, maxRetries)
    ensures var r := Fetch(call, maxRetries, delay);
      r.calls == maxRetries && |r.sleeps| == maxRetries - 1 && r.result == None
      && r.error == Some(NetworkFailure(maxRetries, call(maxRetries - 1).message))
  {
    var r := Fetch(call, maxRetries, delay);
    FetchRetriesOnlyNetworkErrors(call, maxRetries, delay);
    FetchCalls(call, maxRetries, delay);
    RunFromSleeps(call, maxRetries, delay, 0);
    assert Retryable(call(r.calls - 1));
  }

  /** Exponential backoff: one sleep before each retry, starting at `delay`
      and doubling; a non-negative delay never shrinks. */
  lemma FetchBackoff(call: nat -> Outcome, maxRetries: int, delay: int)
    ensures var r := Fetch(call, maxRetries, delay);
      |r.sleeps| == (if r.calls == 0 then 0 else r.calls - 1)
      && (|r.sleeps| > 0 ==> r.sleeps[0] == delay)
      && (forall j :: 0 <= j < |r.sleeps| ==> r.sleeps[j] == delay * Pow2(j))
      && (forall j :: 0 < j < |r.sleeps| ==> r.sleeps[j] == 2 * r.sleeps[j - 1])
      && (delay >= 0 ==> forall i, j :: 0 <= i <= j < |r.sleeps| ==> r.sleeps[i] <= r.sleeps[j])
  {
    var r := Fetch(call, maxRetries, delay);
    RunFromSleeps(call, maxRetries, delay, 0);
    forall j | 0 < j < |r.sleeps| ensures r.sleeps[j] == 2 * r.sleeps[j - 1] {
      assert Pow2(j) == 2 * Pow2(j - 1);
    }
    if delay >= 0 {
      forall i, j | 0 <= i <= j < |r.sleeps| ensures r.sleeps[i] <= r.sleeps[j] {
        Pow2Monotonic(i, j);
        ScaleMonotonic(delay, Pow2(i), Pow2(j));
      }
    }
  }

  /** Calls past the last one made do not matter. */
  lemma FetchUsesCallsMade(c1: nat -> Outcome, c2: nat -> Outcome, maxRetries: int, delay: int)
    requires forall k :: 0 <= k < Fetch(c1, maxRetries, delay).calls ==> c1(k) == c2(k)
    ensures Fetch(c1, maxRetries, delay) == Fetch(c2, maxRetries, delay)
  {
    RunFromUsesCallsMade(c1, c2, maxRetries, delay, 0);
  }

  lemma {:induction false} Pow2Monotonic(i: nat, j: nat)
    requires i <= j
    ensures Pow2(i) <= Pow2(j)
    decreases j
  {
    if i < j {
      Pow2Monotonic(i, j - 1);
    }
  }

  lemma ScaleMonotonic(d: int, a: nat, b: nat)
    requires d >= 0 && a <= b
    ensures d * a <= d * b
  {
  }
}
