/** The bounded polling loop of `getOrSet`'s waiters (src/caching/caching.service.ts). */
module PollLoop {
  import opened Prelude

  const DEFAULT_LOCK_TTL_MS := 5000.0
  const MIN_LOCK_TTL_MS := 1000.0
  const POLL_INITIAL_BACKOFF_MS := 50
  const POLL_MAX_BACKOFF_MS := 500

  function RMax(a: real, b: real): real { if a >= b then a else b }

  /** A missing, zero or negative number is no setting. */
  predicate Given(setting: Option<real>) { setting.Some? && setting.value > 0.0 }

  function ResolveLockTtl(ttlSeconds: Option<real>, override: Option<real>): (ms: real)
    ensures ms >= MIN_LOCK_TTL_MS
    ensures Given(override) ==> ms == override.value || override.value < ms == MIN_LOCK_TTL_MS
    ensures !Given(override) && Given(ttlSeconds) ==>
              ms == ttlSeconds.value * 1000.0 || (ttlSeconds.value < 1.0 && ms == MIN_LOCK_TTL_MS)
    ensures !Given(override) && !Given(ttlSeconds) ==> ms == DEFAULT_LOCK_TTL_MS
  {
    if override.Some? && override.value > 0.0 then RMax(MIN_LOCK_TTL_MS, override.value)
    else if ttlSeconds.Some? && ttlSeconds.value > 0.0 then RMax(MIN_LOCK_TTL_MS, ttlSeconds.value * 1000.0)
    else DEFAULT_LOCK_TTL_MS
  }

  function Pow2(n: nat): nat { if n == 0 then 1 else 2 * Pow2(n - 1) }

  /** The i-th wait, counting from 0. */
  function Wait(i: nat): nat { Min(POLL_INITIAL_BACKOFF_MS * Pow2(i), POLL_MAX_BACKOFF_MS) }

  /** Time spent in the first `n` waits. */
  function Elapsed(n: nat): nat { if n == 0 then 0 else Elapsed(n - 1) + Wait(n - 1) }

  lemma WaitDoubles(i: nat)
    ensures Wait(i + 1) == Min(Wait(i) * 2, POLL_MAX_BACKOFF_MS)
    ensures POLL_INITIAL_BACKOFF_MS <= Wait(i) <= POLL_MAX_BACKOFF_MS
  {
    PowPositive(i);
  }

  lemma {:induction false} PowPositive(n: nat)
    ensures Pow2(n) >= 1
  {
    if n > 0 { PowPositive(n - 1); }
  }

  datatype ReadResult<V> = Found(value: V) | Missing | Failed

  /** `took(i)` is the time the i-th turn really takes, its sleep and its read. */
  function Spent(took: nat -> real, n: nat): real { if n == 0 then 0.0 else Spent(took, n - 1) + took(n - 1) }

  /** A sleep is never shorter than asked for. */
  ghost predicate AtLeastWaits(took: nat -> real) { forall i: nat :: took(i) >= Wait(i) as real }

  /**
   * The loop on any timer and any cache; `answers(i)` is what the i-th read answers. It stops at the
   * first value, or once the deadline has passed, and starts no turn after that.
   */
  method PollUntilValuePresent<V>(answers: nat -> ReadResult<V>, took: nat -> real, timeoutMs: real)
    returns (value: Option<V>, polls: nat, waited: real)
    requires AtLeastWaits(took)
    ensures value.Some? ==> polls > 0 && answers(polls - 1) == Found(value.value)
    ensures forall i: nat :: i < polls && (value.Some? ==> i < polls - 1) ==> !answers(i).Found?
    ensures value.None? ==> Spent(took, polls) >= timeoutMs
    ensures polls > 0 ==> Spent(took, polls - 1) < timeoutMs
    ensures waited == Spent(took, polls)
  {
    var now, deadline := 0.0, timeoutMs;
    var backoffMs := POLL_INITIAL_BACKOFF_MS;
    polls := 0;
    while now < deadline
      invariant now == Spent(took, polls) && backoffMs == Wait(polls)
      invariant polls > 0 ==> Spent(took, polls - 1) < timeoutMs
      invariant forall i: nat :: i < polls ==> !answers(i).Found?
      decreases deadline - now
    {
      WaitDoubles(polls);
      assert took(polls) >= backoffMs as real;
      now := now + took(polls);
      var recheck := answers(polls);
      polls := polls + 1;
      if recheck.Found? { return Some(recheck.value), polls, now; }
      backoffMs := Min(backoffMs * 2, POLL_MAX_BACKOFF_MS);
    }
    return None, polls, now;
  }

  lemma {:induction false} SpentAtLeast(took: nat -> real, n: nat)
    requires AtLeastWaits(took)
    ensures Spent(took, n) >= Elapsed(n) as real
  {
    if n > 0 { SpentAtLeast(took, n - 1); }
  }

  /**
   * The loop's last turn starts before the deadline, so it overruns by less than that turn: under half
   * a second with exact sleeps and instant reads. Slow ones only make for fewer turns.
   */
  lemma OverrunBounded(took: nat -> real, timeoutMs: real, polls: nat)
    requires AtLeastWaits(took) && polls > 0 && Spent(took, polls - 1) < timeoutMs
    ensures Spent(took, polls) < timeoutMs + took(polls - 1)
    ensures (Elapsed(polls - 1) as real) < timeoutMs
    ensures (forall i: nat :: took(i) == Wait(i) as real) ==>
              Spent(took, polls) < timeoutMs + POLL_MAX_BACKOFF_MS as real
  {
    SpentAtLeast(took, polls - 1);
    WaitDoubles(polls - 1);
  }

  /** After the four doubling waits every further one takes the full half second. */
  lemma {:induction false} ElapsedClosed(n: nat)
    requires n >= 4
    ensures Elapsed(n) == 750 + 500 * (n - 4)
  {
    if n == 4 {
      assert Elapsed(1) == 50 && Elapsed(2) == 150 && Elapsed(3) == 350;
      assert Wait(3) == 400;
    } else {
      ElapsedClosed(n - 1);
      assert Wait(n - 1) == 500 by { LongWait(n - 1); }
    }
  }

  lemma {:induction false} LongWait(i: nat)
    requires i >= 4
    ensures Wait(i) == 500
    ensures Pow2(i) >= 16
  {
    if i > 4 { LongWait(i - 1); } else { assert Pow2(2) == 4 && Pow2(4) == 16; }
  }
}
