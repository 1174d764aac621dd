/** Bounded retry with capped, full-jitter exponential backoff. */
module Retry {
  import opened Wrappers

  /** `Invalid` is the ValueError for fewer than one attempt; otherwise the last attempt's own outcome. */
  datatype Finish<T, E> = Invalid | Finished(outcome: Result<T, E>)

  /** What `fn` does at an attempt decides whether there is another one. */
  predicate Retries<T, E>(outcome: Result<T, E>, isTransient: E -> bool) {
    outcome.Err? && isTransient(outcome.error)
  }

  function Pow2(n: nat): real {
    if n == 0 then 1.0 else 2.0 * Pow2(n - 1)
  }

  /** Adding exponents multiplies the powers, and the first power is two. */
  lemma {:induction false} Pow2Adds(m: nat, n: nat)
    ensures Pow2(m + n) == Pow2(m) * Pow2(n)
    ensures Pow2(1) == 2.0 && Pow2(n) > 0.0
  {
    if n > 0 {
      Pow2Adds(m, n - 1);
      assert 2.0 * (Pow2(m) * Pow2(n - 1)) == Pow2(m) * (2.0 * Pow2(n - 1));
    }
  }

  /** `base * 2 ** n`, doubling once per attempt. */
  function Doubled(base: real, n: nat): real {
    if n == 0 then base else 2.0 * Doubled(base, n - 1)
  }

  lemma {:induction false} DoubledIsPower(base: real, n: nat)
    ensures Doubled(base, n) == base * Pow2(n)
  {
    if n > 0 {
      DoubledIsPower(base, n - 1);
      assert 2.0 * (base * Pow2(n - 1)) == base * (2.0 * Pow2(n - 1));
    }
  }

  lemma {:induction false} DoubledStays(base: real, n: nat)
    requires base >= 0.0
    ensures Doubled(base, n) >= 0.0
  {
    if n > 0 {
      DoubledStays(base, n - 1);
    }
  }

  function Min(a: real, b: real): real {
    if a < b then a else b
  }

  function Cap(baseDelay: real, maxDelay: real, attempt: nat): real {
    Min(maxDelay, Doubled(baseDelay, attempt))
  }

  /** A draw between zero and a non-negative cap. */
  ghost predicate Uniform(uniform: (nat, real) -> real) {
    forall k, cap :: cap >= 0.0 ==> 0.0 <= uniform(k, cap) <= cap
  }

  function Total(delays: seq<real>): real {
    if delays == [] then 0.0 else Total(delays[..|delays| - 1]) + delays[|delays| - 1]
  }

  /** Before the call after the k-th, counted from zero, the loop sleeps for a draw up to the base times two to
      the k, but never above the cap. */
  ghost predicate Sleeps(delays: seq<real>, baseDelay: real, maxDelay: real, uniform: (nat, real) -> real) {
    forall k: nat :: k < |delays| ==>
      delays[k] == uniform(k, if maxDelay < baseDelay * Pow2(k) then maxDelay else baseDelay * Pow2(k))
  }

  lemma SleepsAreCapped(delays: seq<real>, baseDelay: real, maxDelay: real, uniform: (nat, real) -> real)
    requires forall k: nat :: k < |delays| ==> delays[k] == uniform(k, Cap(baseDelay, maxDelay, k))
    ensures Sleeps(delays, baseDelay, maxDelay, uniform)
  {
    forall k: nat | k < |delays|
      ensures delays[k] == uniform(k, if maxDelay < baseDelay * Pow2(k) then maxDelay else baseDelay * Pow2(k))
    {
      DoubledIsPower(baseDelay, k);
    }
  }

  lemma SleepIsDrawn(delays: seq<real>, baseDelay: real, maxDelay: real, uniform: (nat, real) -> real, k: nat)
    requires Sleeps(delays, baseDelay, maxDelay, uniform) && k < |delays|
    ensures delays[k] == uniform(k, Cap(baseDelay, maxDelay, k))
  {
    DoubledIsPower(baseDelay, k);
    assert Cap(baseDelay, maxDelay, k) == if maxDelay < baseDelay * Pow2(k) then maxDelay else baseDelay * Pow2(k);
  }

  /** `fn` is called up to its first success or permanent error, at most `maxAttempts` times; the last outcome
      comes back unchanged, and there is one sleep, within its cap, between any two calls. `attempts(k)` is
      what the k-th call of `fn` would do and `uniform(k, cap)` what `random.uniform(0, cap)` draws after it. */
  method RetryAsync<T, E>(attempts: nat -> Result<T, E>, maxAttempts: int, baseDelay: real, maxDelay: real,
                          isTransient: E -> bool, uniform: (nat, real) -> real)
    returns (finish: Finish<T, E>, calls: nat, delays: seq<real>)
    requires Uniform(uniform)
    ensures finish.Invalid? <==> maxAttempts < 1
    ensures maxAttempts < 1 ==> calls == 0 && delays == []
    ensures maxAttempts >= 1 ==>
              && 1 <= calls <= maxAttempts && finish == Finished(attempts(calls - 1))
              && (forall k: nat :: k < calls - 1 ==> attempts(k).Err? && isTransient(attempts(k).error))
              && (calls < maxAttempts ==> attempts(calls - 1).Ok? || !isTransient(attempts(calls - 1).error))
              && |delays| == calls - 1
              && Sleeps(delays, baseDelay, maxDelay, uniform)
  {
    calls, delays := 0, [];
    if maxAttempts < 1 {
      return Invalid, calls, delays;
    }
    var lastExc: Option<E> := None;
    for attempt := 0 to maxAttempts
      invariant calls == attempt == |delays| < maxAttempts
      invariant forall k: nat :: k < attempt ==> Retries(attempts(k), isTransient)
      invariant forall k: nat :: k < attempt ==> delays[k] == uniform(k, Cap(baseDelay, maxDelay, k))
    {
      calls := calls + 1;
      var outcome := attempts(attempt);
      if !Retries(outcome, isTransient) {
        SleepsAreCapped(delays, baseDelay, maxDelay, uniform);
        return Finished(outcome), calls, delays;
      }
      lastExc := Some(outcome.error);
      if attempt == maxAttempts - 1 {
        break;
      }
      delays := delays + [uniform(attempt, Cap(baseDelay, maxDelay, attempt))];
    }
    SleepsAreCapped(delays, baseDelay, maxDelay, uniform);
    return Finished(Err(lastExc.value)), calls, delays;
  }

  lemma {:induction false} LinearBound(delays: seq<real>, maxDelay: real)
    requires forall k: nat :: k < |delays| ==> 0.0 <= delays[k] <= maxDelay
    ensures 0.0 <= Total(delays) <= (|delays| as real) * maxDelay
  {
    if delays != [] {
      var n := |delays| - 1;
      LinearBound(delays[..n], maxDelay);
      OneMore(n, maxDelay);
    }
  }

  lemma OneMore(n: nat, d: real)
    ensures ((n + 1) as real) * d == (n as real) * d + d
  {
    assert (n + 1) as real == n as real + 1.0;
  }

  lemma {:induction false} GeometricBound(delays: seq<real>, baseDelay: real)
    requires forall k: nat :: k < |delays| ==> delays[k] <= Doubled(baseDelay, k)
    ensures Total(delays) <= Doubled(baseDelay, |delays|) - baseDelay
    ensures (forall k: nat :: k < |delays| ==> delays[k] == Doubled(baseDelay, k)) ==>
              Total(delays) == Doubled(baseDelay, |delays|) - baseDelay
  {
    if delays != [] {
      var n := |delays| - 1;
      GeometricBound(delays[..n], baseDelay);
    }
  }

  /** However the jitter falls, the total delay is within both the linear and the geometric bound. */
  lemma TotalDelayBounds(delays: seq<real>, baseDelay: real, maxDelay: real, uniform: (nat, real) -> real)
    requires baseDelay >= 0.0 && maxDelay >= 0.0 && Uniform(uniform) && Sleeps(delays, baseDelay, maxDelay, uniform)
    ensures 0.0 <= Total(delays) <= (|delays| as real) * maxDelay
    ensures Total(delays) <= Doubled(baseDelay, |delays|) - baseDelay
  {
    forall k: nat | k < |delays| ensures 0.0 <= delays[k] <= maxDelay && delays[k] <= Doubled(baseDelay, k) {
      SleepIsDrawn(delays, baseDelay, maxDelay, uniform, k);
      DoubledStays(baseDelay, k);
    }
    LinearBound(delays, maxDelay);
    GeometricBound(delays, baseDelay);
  }

  /** The geometric bound is reached: with the largest jitter and no backoff above the cap, the sleeps add
      up to exactly that sum. */
  lemma GeometricBoundIsMet(delays: seq<real>, baseDelay: real, maxDelay: real, uniform: (nat, real) -> real)
    requires Sleeps(delays, baseDelay, maxDelay, uniform) && forall k, cap :: uniform(k, cap) == cap
    requires forall k: nat :: k < |delays| ==> Doubled(baseDelay, k) <= maxDelay
    ensures Total(delays) == Doubled(baseDelay, |delays|) - baseDelay
  {
    forall k: nat | k < |delays| ensures delays[k] == Doubled(baseDelay, k) {
      SleepIsDrawn(delays, baseDelay, maxDelay, uniform, k);
    }
    GeometricBound(delays, baseDelay);
  }
}
