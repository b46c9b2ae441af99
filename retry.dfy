/**
  The bounded retry loop that fetch_aws_pricelists.py copies into
  list_price_list, get_price_list_url, get_price_list_as_json and
  get_price_list_as_csv:

    count starts at 0; each pass makes one attempt; an attempt that returns
    ends the loop with its value; an exception of the caught class either is
    re-raised (when count > max_retry) or increments count and sleeps
    2 * count; any other exception propagates at once.

  The operation is a function of a request key and the attempt number
  (0, 1, 2, ...), so every sequence of outcomes a collaborator can produce is
  covered. Sleeping is recorded as a list of durations.

  The loop makes max_retry + 2 attempts before giving up, with max_retry + 1
  sleeps: one attempt more than the doc-comments of get_price_list_as_json and
  get_price_list_as_csv announce ("attempts = retry + 1"). The model follows
  the loop.
 */
module Retry {
  import opened Common

  /** The exception class an `except` clause of a retry loop names. */
  datatype Handler = CatchClientError | CatchConnectionError

  predicate Catches(h: Handler, e: Error)
  {
    match h
    case CatchClientError => e.kind == ClientError
    case CatchConnectionError => e.kind == ConnectionError
  }

  /** An outcome the loop retries: an exception of the caught class. */
  predicate Transient<V>(h: Handler, o: Outcome<V>)
  {
    o.Raised? && Catches(h, o.error)
  }

  /** What one retrying call did: its outcome, the sleeps it made, and how many attempts. */
  datatype Trace<V> = Trace(result: Outcome<V>, sleeps: seq<nat>, attempts: nat)

  /** The sleeps 2, 4, ..., 2 * n made by n rounds of `count += 1; time.sleep(2 * count)`. */
  function Backoff(n: nat): (b: seq<nat>)
    ensures |b| == n
    ensures forall i :: 0 <= i < n ==> b[i] == 2 * (i + 1)
  {
    if n == 0 then [] else Backoff(n - 1) + [2 * n]
  }

  /** Backoff durations strictly increase. */
  lemma BackoffIncreasing(n: nat, i: nat, j: nat)
    requires i < j < n
    ensures Backoff(n)[i] < Backoff(n)[j]
  {
  }

  /** The loop from the pass in which `count` holds the given value. */
  function RetryFrom<K, V>(op: (K, nat) -> Outcome<V>, key: K, h: Handler, maxRetry: nat, count: nat): Trace<V>
    requires count <= maxRetry + 1
    decreases maxRetry + 1 - count
  {
    var o := op(key, count);
    if Transient(h, o) && count <= maxRetry then
      var rest := RetryFrom(op, key, h, maxRetry, count + 1);
      Trace(rest.result, [2 * (count + 1)] + rest.sleeps, rest.attempts)
    else
      Trace(o, [], count + 1)
  }

  /** The whole retrying call. */
  function RetrySpec<K, V>(op: (K, nat) -> Outcome<V>, key: K, h: Handler, maxRetry: nat): Trace<V>
  {
    RetryFrom(op, key, h, maxRetry, 0)
  }

  /**
    The shape of every retrying call: between 1 and max_retry + 2 attempts;
    all but the last raised the caught class; the last one's outcome is the
    result, unchanged; the loop stops early only on an outcome it does not
    retry; and attempt k + 1 follows a sleep of 2 * (k + 1).
   */
  ghost predicate TraceShape<K, V>(t: Trace<V>, op: (K, nat) -> Outcome<V>, key: K, h: Handler, maxRetry: nat)
  {
    && 1 <= t.attempts <= maxRetry + 2
    && t.result == op(key, t.attempts - 1)
    && (forall k :: 0 <= k < t.attempts - 1 ==> Transient(h, op(key, k)))
    && (t.attempts == maxRetry + 2 || !Transient(h, t.result))
    && t.sleeps == Backoff(t.attempts - 1)
  }

  lemma {:induction false} RetryFromShape<K, V>(op: (K, nat) -> Outcome<V>, key: K, h: Handler, maxRetry: nat, count: nat)
    requires count <= maxRetry + 1
    ensures var t := RetryFrom(op, key, h, maxRetry, count);
      && count + 1 <= t.attempts <= maxRetry + 2
      && t.result == op(key, t.attempts - 1)
      && (forall k :: count <= k < t.attempts - 1 ==> Transient(h, op(key, k)))
      && (t.attempts == maxRetry + 2 || !Transient(h, t.result))
      && |t.sleeps| == t.attempts - 1 - count
      && (forall i :: 0 <= i < |t.sleeps| ==> t.sleeps[i] == 2 * (count + i + 1))
    decreases maxRetry + 1 - count
  {
    var o := op(key, count);
    if Transient(h, o) && count <= maxRetry {
      RetryFromShape(op, key, h, maxRetry, count + 1);
      var rest := RetryFrom(op, key, h, maxRetry, count + 1);
      var t := RetryFrom(op, key, h, maxRetry, count);
      assert t.sleeps == [2 * (count + 1)] + rest.sleeps;
      forall i | 1 <= i < |t.sleeps|
        ensures t.sleeps[i] == 2 * (count + i + 1)
      {
        assert t.sleeps[i] == rest.sleeps[i - 1];
      }
    }
  }

  lemma RetryShape<K, V>(op: (K, nat) -> Outcome<V>, key: K, h: Handler, maxRetry: nat)
    ensures TraceShape(RetrySpec(op, key, h, maxRetry), op, key, h, maxRetry)
  {
    RetryFromShape(op, key, h, maxRetry, 0);
  }

  /**
    Exhaustion: when every attempt raises the caught class, the operation is
    invoked max_retry + 2 times, after sleeps of 2, 4, ..., 2 * (max_retry + 1),
    and the last exception is re-raised unchanged.
   */
  lemma RetryExhausted<K, V>(op: (K, nat) -> Outcome<V>, key: K, h: Handler, maxRetry: nat)
    requires forall k :: 0 <= k <= maxRetry + 1 ==> Transient(h, op(key, k))
    ensures var t := RetrySpec(op, key, h, maxRetry);
      && t.attempts == maxRetry + 2
      && t.sleeps == Backoff(maxRetry + 1)
      && t.result == op(key, maxRetry + 1)
      && t.result.Raised?
  {
    RetryShape(op, key, h, maxRetry);
  }

  /**
    Settling: when the first k attempts raise the caught class and attempt k
    (counting from 0) does not (it returns a value, or raises an exception of
    another class), with k <= max_retry + 1, that outcome is the result,
    unchanged, after exactly k sleeps. With k = 0 and another exception class:
    the exception propagates on its first occurrence, without any sleep.
   */
  lemma RetryStopsAt<K, V>(op: (K, nat) -> Outcome<V>, key: K, h: Handler, maxRetry: nat, k: nat)
    requires k <= maxRetry + 1
    requires forall j :: 0 <= j < k ==> Transient(h, op(key, j))
    requires !Transient(h, op(key, k))
    ensures var t := RetrySpec(op, key, h, maxRetry);
      && t.result == op(key, k)
      && t.attempts == k + 1
      && t.sleeps == Backoff(k)
  {
    RetryShape(op, key, h, maxRetry);
  }

  /** More than max_retry + 1 failures of the caught class: the caller never sees a value. */
  lemma RetryGivesUp<K, V>(op: (K, nat) -> Outcome<V>, key: K, h: Handler, maxRetry: nat, k: nat)
    requires k > maxRetry + 1
    requires forall j :: 0 <= j < k ==> Transient(h, op(key, j))
    ensures RetrySpec(op, key, h, maxRetry).result.Raised?
  {
    RetryShape(op, key, h, maxRetry);
  }

  /** The loop itself, as the four retrying functions write it. */
  method RetryLoop<K, V>(op: (K, nat) -> Outcome<V>, key: K, h: Handler, maxRetry: nat)
    returns (result: Outcome<V>, sleeps: seq<nat>, attempts: nat)
    ensures Trace(result, sleeps, attempts) == RetrySpec(op, key, h, maxRetry)
    ensures TraceShape(Trace(result, sleeps, attempts), op, key, h, maxRetry)
  {
    var count := 0;
    sleeps := [];
    while true
      invariant count <= maxRetry + 1
      invariant forall j :: 0 <= j < count ==> Transient(h, op(key, j))
      invariant sleeps == Backoff(count)
      decreases maxRetry + 1 - count
    {
      var outcome := op(key, count);
      if outcome.Returned? || !Catches(h, outcome.error) {
        // the value is returned, or an exception of another class propagates
        RetryStopsAt(op, key, h, maxRetry, count);
        result, attempts := outcome, count + 1;
        break;
      }
      if count > maxRetry {
        // re-raised: the caught class, max_retry + 2 attempts in all
        RetryExhausted(op, key, h, maxRetry);
        result, attempts := outcome, count + 1;
        break;
      }
      count := count + 1;
      sleeps := sleeps + [2 * count];
    }
    RetryShape(op, key, h, maxRetry);
  }
}
