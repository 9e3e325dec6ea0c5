/** `fetch_with_retry`: bounded attempts with exponential back-off. The
    network is an oracle: `attempts[i]` is the body the `i`-th request returns,
    or `None` when it raises (a connection error or a non-2xx status). */
module Retry {
  import opened Results

  /** `2^k`, the back-off delay before attempt `k + 1`, in the source's time unit. */
  function Pow2(k: nat): (r: nat)
    ensures r >= 1
  {
    if k == 0 then 1 else 2 * Pow2(k - 1)
  }

  /** Result of the `i`-th request; an oracle shorter than the attempt budget
      fails the missing attempts. */
  function Attempt(attempts: seq<Option<string>>, i: nat): Option<string> {
    if i < |attempts| then attempts[i] else None
  }

  /** What one call did: the response it returned, how many requests it made
      and the delays it slept, in order. */
  datatype RetryRun = RetryRun(response: Option<string>, tries: nat, sleeps: seq<nat>)

  /** Attempts `i`, `i + 1`, ... of a call with budget `maxRetries`. */
  function RetryFrom(maxRetries: int, attempts: seq<Option<string>>, i: nat): (r: RetryRun)
    requires i < maxRetries
    ensures i < r.tries <= maxRetries
    ensures forall j :: i <= j < r.tries - 1 ==> Attempt(attempts, j).None?
    ensures r.response == Attempt(attempts, r.tries - 1)
    ensures r.response.None? ==> r.tries == maxRetries
    ensures |r.sleeps| == r.tries - 1 - i
    ensures forall k :: 0 <= k < |r.sleeps| ==> r.sleeps[k] == Pow2(i + k)
    decreases maxRetries - i
  {
    match Attempt(attempts, i)
    case Some(body) => RetryRun(Some(body), i + 1, [])
    case None =>
      if i < maxRetries - 1 then
        var rest := RetryFrom(maxRetries, attempts, i + 1);
        RetryRun(rest.response, rest.tries, [Pow2(i)] + rest.sleeps)
      else
        RetryRun(None, i + 1, [])
  }

  /** `fetch_with_retry(url)` given the oracle for `url`: at most `maxRetries`
      requests, stopping at the first success; a sleep of `2^k` after the
      `k`-th failure except the last one. */
  function Retry(maxRetries: int, attempts: seq<Option<string>>): (r: RetryRun)
    ensures r.tries <= if maxRetries < 0 then 0 else maxRetries
    ensures forall j :: 0 <= j < r.tries - 1 ==> Attempt(attempts, j).None?
    ensures r.response.Some? ==> r.tries >= 1 && r.response == Attempt(attempts, r.tries - 1)
    ensures r.response.None? ==> r.tries == (if maxRetries < 0 then 0 else maxRetries)
    ensures r.response.None? ==> forall j :: 0 <= j < r.tries ==> Attempt(attempts, j).None?
    ensures |r.sleeps| == if r.tries == 0 then 0 else r.tries - 1
    ensures forall k :: 0 <= k < |r.sleeps| ==> r.sleeps[k] == Pow2(k)
  {
    if maxRetries <= 0 then RetryRun(None, 0, []) else RetryFrom(maxRetries, attempts, 0)
  }

  /** Sum of a sequence of delays. */
  function Total(delays: seq<nat>): nat {
    if |delays| == 0 then 0 else Total(delays[..|delays| - 1]) + delays[|delays| - 1]
  }

  /** Delays 1, 2, 4, ... add up to one less than the next power of two. */
  lemma {:induction false} TotalBackoff(sleeps: seq<nat>)
    requires forall k :: 0 <= k < |sleeps| ==> sleeps[k] == Pow2(k)
    ensures Total(sleeps) == Pow2(|sleeps|) - 1
  {
    if |sleeps| > 0 {
      TotalBackoff(sleeps[..|sleeps| - 1]);
    }
  }

  /** An endpoint that always fails is tried exactly `maxRetries` times and the
      call waits `2^(maxRetries-1) - 1` units in all. */
  lemma PermanentFailure(maxRetries: nat, attempts: seq<Option<string>>)
    requires maxRetries >= 1
    requires forall i :: 0 <= i < |attempts| ==> attempts[i].None?
    ensures Retry(maxRetries, attempts).response.None?
    ensures Retry(maxRetries, attempts).tries == maxRetries
    ensures |Retry(maxRetries, attempts).sleeps| == maxRetries - 1
    ensures Total(Retry(maxRetries, attempts).sleeps) == Pow2(maxRetries - 1) - 1
  {
    TotalBackoff(Retry(maxRetries, attempts).sleeps);
  }

  /** `run` preceded by the sleeps `before`. */
  function After(before: seq<nat>, run: RetryRun): RetryRun {
    RetryRun(run.response, run.tries, before + run.sleeps)
  }

  lemma AfterAfter(a: seq<nat>, b: seq<nat>, run: RetryRun)
    ensures After(a, After(b, run)) == After(a + b, run)
  {
    assert a + (b + run.sleeps) == (a + b) + run.sleeps;
  }

  /** The loop of `fetch_with_retry` as written: `delay` starts at 1 and
      doubles after every sleep. */
  method FetchWithRetry(maxRetries: int, attempts: seq<Option<string>>)
    returns (response: Option<string>, tries: nat, sleeps: seq<nat>)
    ensures RetryRun(response, tries, sleeps) == Retry(maxRetries, attempts)
  {
    var delay: nat := 1;
    sleeps := [];
    tries := 0;
    var attempt: nat := 0;
    if 0 < maxRetries {
      ghost var whole := RetryFrom(maxRetries, attempts, 0);
      assert [] + whole.sleeps == whole.sleeps;
      assert Retry(maxRetries, attempts) == whole == After([], whole);
    }
    while attempt < maxRetries
      invariant tries == attempt == |sleeps|
      invariant attempt > 0 ==> attempt < maxRetries
      invariant delay == Pow2(attempt)
      invariant attempt < maxRetries ==>
        Retry(maxRetries, attempts) == After(sleeps, RetryFrom(maxRetries, attempts, attempt))
      decreases maxRetries - attempt
    {
      ghost var whole := RetryFrom(maxRetries, attempts, attempt);
      tries := tries + 1;
      var outcome := Attempt(attempts, attempt);
      if outcome.Some? {
        assert whole == RetryRun(outcome, tries, []);
        return outcome, tries, sleeps;
      }
      if attempt < maxRetries - 1 {
        ghost var rest := RetryFrom(maxRetries, attempts, attempt + 1);
        assert whole == After([delay], rest);
        AfterAfter(sleeps, [delay], rest);
        sleeps := sleeps + [delay];
        delay := delay * 2;
      } else {
        assert whole == RetryRun(None, tries, []);
        return None, tries, sleeps;
      }
      attempt := attempt + 1;
    }
    response := None;
  }
}
