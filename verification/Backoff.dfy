/**
 Retries of a whole sync: which errors are retried, how often, and how long the pauses are,
 with the 64-bit arithmetic that computes them.
 */
module Backoff {
  import opened Prelude

  const RATE_LIMIT_BASE_DELAY := 1000
  const RATE_LIMIT_MAX_DELAY := 5000
  const RATE_LIMIT_INITIAL_BACKOFF := 5000
  const NETWORK_ERROR_BACKOFF := 2000
  const CONFLICT_ERROR_BACKOFF := 1000
  const UNKNOWN_ERROR_BACKOFF := 1000
  const MILLISECOND := 1_000_000

  // ---- 64-bit arithmetic

  const TWO_TO_THE_63 := 0x8000_0000_0000_0000
  const TWO_TO_THE_64 := 0x1_0000_0000_0000_0000

  /** The signed 64-bit integer that a result wraps around to. */
  function Wrap(n: int): int {
    var m := n % TWO_TO_THE_64;
    if m < TWO_TO_THE_63 then m else m - TWO_TO_THE_64
  }

  function Pow2(n: nat): nat {
    if n == 0 then 1 else 2 * Pow2(n - 1)
  }

  /** One shifted left in 64 bits: all bits are lost from 64 places on. */
  function Shifted(places: nat): int {
    if places >= 64 then 0 else Wrap(Pow2(places))
  }

  // ---- The kinds of error

  // The kinds the text of an error is sorted into, in the order of the tests.
  datatype Kind = RateLimit | ItemsKeyProblem | Authentication | Validation | Network | ConflictFound | Unknown

  predicate Retryable(kind: Kind) {
    !kind.ItemsKeyProblem? && !kind.Authentication? && !kind.Validation?
  }

  function BackoffMs(kind: Kind): int {
    match kind
    case RateLimit => RATE_LIMIT_INITIAL_BACKOFF
    case Network => NETWORK_ERROR_BACKOFF
    case ConflictFound => CONFLICT_ERROR_BACKOFF
    case Unknown => UNKNOWN_ERROR_BACKOFF
    case _ => 0
  }

  // ---- The rate-limit delay

  /** How many milliseconds a sleep of so many lasts: the duration in nanoseconds may wrap, and none is negative. */
  function SleptMs(delayMs: int): nat {
    var duration := Wrap(delayMs * MILLISECOND);
    if duration <= 0 then 0 else duration / MILLISECOND
  }

  /** The k-th rate-limit delay as it is computed. */
  function DelayMs(k: nat): int
    requires k >= 1
  {
    Min(Wrap(RATE_LIMIT_BASE_DELAY * Shifted(k - 1)), RATE_LIMIT_MAX_DELAY)
  }

  /** The k-th rate-limit delay as it is meant: doubled each time, up to a maximum. */
  function MeantMs(k: nat): nat
    requires k >= 1
  {
    Min(RATE_LIMIT_BASE_DELAY * Pow2(k - 1), RATE_LIMIT_MAX_DELAY)
  }

  lemma {:induction false} Pow2Grows(m: nat, n: nat)
    requires m <= n
    ensures Pow2(m) <= Pow2(n)
    decreases n - m
  {
    if m < n {
      Pow2Grows(m, n - 1);
    }
  }

  /** One, two and four seconds, and then five. */
  lemma MeantDelays(k: nat)
    requires k >= 1
    ensures MeantMs(k) == if k <= 3 then [1000, 2000, 4000][k - 1] else 5000
  {
    if k > 3 {
      Pow2Grows(3, k - 1);
    }
  }

  lemma {:induction false} Pow2Add(m: nat, n: nat)
    ensures Pow2(m + n) == Pow2(m) * Pow2(n)
  {
    if n > 0 {
      Pow2Add(m, n - 1);
    }
  }

  /** From the 55th on, up to the last whose shift keeps a bit, the product is a multiple of 2 to the 57th. */
  lemma LatePowers(k: nat)
    requires 54 <= k <= 64
    ensures Pow2(k - 1) == 0x20_0000_0000_0000 * Pow2(k - 54)
    ensures Pow2(k - 54) == [1, 2, 4, 8, 16, 32, 64, 128, 256, 512, 1024][k - 54]
  {
    assert Pow2(1) == 2 && Pow2(3) == 8 && Pow2(5) == 32 && Pow2(7) == 128 && Pow2(9) == 512;
    assert Pow2(13) == 8192 && Pow2(20) == 0x10_0000;
    Pow2Add(20, 20);
    Pow2Add(40, 13);
    Pow2Add(53, k - 54);
    hide Pow2;
  }

  lemma WrapsTo(n: int, r: int, turns: int)
    requires n == r + turns * TWO_TO_THE_64 && -TWO_TO_THE_63 <= r < TWO_TO_THE_63
    ensures Wrap(n) == r
  {
  }

  /** Up to 64, a shift only loses bits that are lost from the product anyway. */
  lemma Computed(k: nat, r: int, turns: int)
    requires 1 <= k <= 64 && -TWO_TO_THE_63 <= r < TWO_TO_THE_63
    requires RATE_LIMIT_BASE_DELAY * Pow2(k - 1) == r + turns * TWO_TO_THE_64
    ensures DelayMs(k) == Min(r, RATE_LIMIT_MAX_DELAY)
  {
    LatePowers(64);
    Pow2Grows(k - 1, 63);
    if k == 64 {
      WrapsTo(Pow2(63), -TWO_TO_THE_63, 1);
      WrapsTo(RATE_LIMIT_BASE_DELAY * -TWO_TO_THE_63, r, turns - RATE_LIMIT_BASE_DELAY);
    } else {
      hide Wrap;
      LatePowers(63);
      Pow2Grows(k - 1, 62);
      WrapsTo(Pow2(k - 1), Pow2(k - 1), 0);
      WrapsTo(RATE_LIMIT_BASE_DELAY * Pow2(k - 1), r, turns);
    }
  }

  lemma NoSleep(delayMs: int, r: int, turns: int)
    requires delayMs * MILLISECOND == r + turns * TWO_TO_THE_64 && -TWO_TO_THE_63 <= r <= 0
    ensures SleptMs(delayMs) == 0
  {
    WrapsTo(delayMs * MILLISECOND, r, turns);
  }

  lemma SleepsFully(delayMs: nat)
    requires delayMs <= RATE_LIMIT_MAX_DELAY
    ensures SleptMs(delayMs) == delayMs
  {
    WrapsTo(delayMs * MILLISECOND, delayMs * MILLISECOND, 0);
  }

  /** The computed delays are the meant ones up to the 54th, and again, by chance, at the 60th. */
  lemma DelayExact(k: nat)
    requires k >= 1
    ensures DelayMs(k) == MeantMs(k) <==> k <= 54 || k == 60
    ensures k <= 54 || k == 60 ==> SleptMs(DelayMs(k)) == MeantMs(k)
    ensures k > 54 && k != 60 ==> SleptMs(DelayMs(k)) == 0
  {
    if k <= 54 {
      EarlyDelays(k);
      SleepsFully(MeantMs(k));
    } else {
      hide DelayMs;
      Pow2Grows(3, k - 1);
      if k <= 64 {
        LateDelays(k);
        SleepsFully(RATE_LIMIT_MAX_DELAY);
      } else {
        NoDelay(k);
      }
    }
  }

  lemma EarlyDelays(k: nat)
    requires 1 <= k <= 54
    ensures DelayMs(k) == MeantMs(k)
  {
    LatePowers(54);
    Pow2Grows(k - 1, 53);
    Computed(k, RATE_LIMIT_BASE_DELAY * Pow2(k - 1), 0);
  }

  lemma NoDelay(k: nat)
    requires k > 64
    ensures DelayMs(k) == 0 && SleptMs(0) == 0
  {
    NoSleep(0, 0, 0);
  }

  lemma LateDelays(k: nat)
    requires 55 <= k <= 64
    ensures k == 55 ==> DelayMs(k) == -432345564227567616
    ensures if k == 60 then DelayMs(k) == RATE_LIMIT_MAX_DELAY else DelayMs(k) <= 0 && SleptMs(DelayMs(k)) == 0
  {
    LatePowers(k);
    hide DelayMs, SleptMs, Pow2;
    if k == 55 {
      Computed(k, -432345564227567616, 1);
      NoSleep(-432345564227567616, -9223372036854775808, -23437);
    } else if k == 56 {
      Computed(k, -864691128455135232, 2);
      NoSleep(-864691128455135232, 0, -46875);
    } else if k == 57 {
      Computed(k, -1729382256910270464, 4);
      NoSleep(-1729382256910270464, 0, -93750);
    } else if k == 58 {
      Computed(k, -3458764513820540928, 8);
      NoSleep(-3458764513820540928, 0, -187500);
    } else if k == 59 {
      Computed(k, -6917529027641081856, 16);
      NoSleep(-6917529027641081856, 0, -375000);
    } else if k == 60 {
      Computed(k, 4611686018427387904, 31);
    } else if k == 61 {
      Computed(k, -9223372036854775808, 63);
      NoSleep(-9223372036854775808, 0, -500000);
    } else if k == 62 {
      Computed(k, 0, 125);
      NoSleep(0, 0, 0);
    } else if k == 63 {
      Computed(k, 0, 250);
      NoSleep(0, 0, 0);
    } else if k == 64 {
      Computed(k, 0, 500);
      NoSleep(0, 0, 0);
    }
  }

  /** The first delay that goes wrong: the product wraps to a negative number and nothing is slept. */
  lemma FirstWrongDelay()
    ensures DelayMs(55) == -432345564227567616 && SleptMs(DelayMs(55)) == 0 && MeantMs(55) == RATE_LIMIT_MAX_DELAY
  {
    LateDelays(55);
    Pow2Grows(3, 54);
  }

  /** While they are exact, the delays never decrease. */
  lemma DelaysGrow(j: nat, k: nat)
    requires 1 <= j <= k <= 54
    ensures 1000 <= SleptMs(DelayMs(j)) <= SleptMs(DelayMs(k)) <= RATE_LIMIT_MAX_DELAY
  {
    DelayExact(j);
    DelayExact(k);
    Pow2Grows(0, j - 1);
    Pow2Grows(j - 1, k - 1);
  }

  /** No pause is longer than the maximum, wrapped or not. */
  lemma PauseBounded(k: nat)
    requires k >= 1
    ensures SleptMs(DelayMs(k)) <= RATE_LIMIT_MAX_DELAY
  {
    DelayExact(k);
  }

  class RateLimitBackoff {
    var attempts: int
    var baseDelayMs: int
    var maxDelayMs: int

    constructor ()
      ensures attempts == baseDelayMs == maxDelayMs == 0
    {
      attempts, baseDelayMs, maxDelayMs := 0, 0, 0;
    }

    /** Either untouched or with the defaults in place. */
    ghost predicate Valid()
      reads this
    {
      && attempts >= 0
      && (attempts == 0 ==> baseDelayMs == maxDelayMs == 0)
      && (attempts > 0 ==> baseDelayMs == RATE_LIMIT_BASE_DELAY && maxDelayMs == RATE_LIMIT_MAX_DELAY)
    }

    method EnforceRateLimitBackoff() returns (slept: nat)
      requires Valid()
      modifies this
      ensures Valid() && attempts == old(attempts) + 1
      ensures slept == SleptMs(DelayMs(attempts))
    {
      if attempts == 0 && baseDelayMs == 0 {
        baseDelayMs := RATE_LIMIT_BASE_DELAY;
        maxDelayMs := RATE_LIMIT_MAX_DELAY;
      }
      attempts := attempts + 1;
      var delayMs := Wrap(baseDelayMs * Shifted(attempts - 1));
      if delayMs > maxDelayMs {
        delayMs := maxDelayMs;
      }
      slept := SleptMs(delayMs);
    }
  }

  // ---- Retrying; sync(i) is the error of the i-th call of Sync, if any

  /** How many of the first n calls hit the rate limit. */
  function RateLimits(sync: nat -> Option<Kind>, n: nat): (count: nat)
    ensures count <= n
  {
    if n == 0 then 0 else RateLimits(sync, n - 1) + (if sync(n - 1) == Some(RateLimit) then 1 else 0)
  }

  /** The pause after call i, which failed. */
  function PauseAfter(sync: nat -> Option<Kind>, i: nat): nat
    requires sync(i).Some?
  {
    if sync(i).value.RateLimit? then SleptMs(DelayMs(RateLimits(sync, i + 1))) else SleptMs(BackoffMs(sync(i).value))
  }

  predicate FailsRetryably(sync: nat -> Option<Kind>, i: nat) {
    sync(i).Some? && Retryable(sync(i).value)
  }

  /** A failed call that is tried again, and the pause after it. */
  predicate IsRetried(failure: Option<Kind>, pause: nat) {
    && failure in {Some(RateLimit), Some(Network), Some(ConflictFound), Some(Unknown)}
    && (failure == Some(Network) ==> pause == 2000)
    && (failure in {Some(ConflictFound), Some(Unknown)} ==> pause == 1000)
  }

  lemma PausesAsRetried(sync: nat -> Option<Kind>, i: nat)
    requires FailsRetryably(sync, i)
    ensures IsRetried(sync(i), PauseAfter(sync, i))
  {
    SleepsFully(BackoffMs(sync(i).value));
    hide SleptMs;
  }

  method SyncWithRetry(sync: nat -> Option<Kind>, maxRetries: int)
    returns (err: Option<Kind>, calls: nat, pauses: seq<nat>)
    ensures maxRetries < 0 ==> err.None? && calls == 0 && pauses == []
    ensures maxRetries >= 0 ==>
      && 1 <= calls <= maxRetries + 1
      && err == sync(calls - 1)
      && (calls == maxRetries + 1 || !FailsRetryably(sync, calls - 1))
      && |pauses| == calls - 1
      && (forall i :: 0 <= i < calls - 1 ==> FailsRetryably(sync, i) && pauses[i] == PauseAfter(sync, i))
    ensures forall i :: 0 <= i < |pauses| ==> IsRetried(sync(i), pauses[i])
    ensures 0 < calls <= maxRetries ==>
      sync(calls - 1) in {None, Some(ItemsKeyProblem), Some(Authentication), Some(Validation)}
  {
    hide SleptMs, DelayMs, BackoffMs, IsRetried;
    var backoff := new RateLimitBackoff();
    var attempt := 0;
    err, calls, pauses := None, 0, [];
    while attempt <= maxRetries
      invariant attempt == calls == |pauses|
      invariant maxRetries >= 0 ==> attempt <= maxRetries
      invariant forall i :: 0 <= i < calls ==> FailsRetryably(sync, i) && pauses[i] == PauseAfter(sync, i)
      invariant forall i :: 0 <= i < calls ==> IsRetried(sync(i), pauses[i])
      invariant backoff.Valid() && backoff.attempts == RateLimits(sync, calls) && fresh(backoff)
      invariant maxRetries < 0 ==> err.None? && attempt == 0
      decreases maxRetries - attempt
    {
      err := sync(calls);
      calls := calls + 1;
      if err.None? {
        return;
      }
      if !Retryable(err.value) {
        return;
      }
      if attempt >= maxRetries {
        return;
      }
      var slept;
      if err.value.RateLimit? {
        slept := backoff.EnforceRateLimitBackoff();
      } else {
        slept := SleptMs(BackoffMs(err.value));
      }
      PausesAsRetried(sync, attempt);
      pauses := pauses + [slept];
      attempt := attempt + 1;
    }
  }

  // ---- What a run of it costs

  function Total(pauses: seq<nat>): nat {
    if pauses == [] then 0 else pauses[0] + Total(pauses[1..])
  }

  lemma {:induction false} TotalBounded(pauses: seq<nat>, most: nat)
    requires forall i :: 0 <= i < |pauses| ==> pauses[i] <= most
    ensures Total(pauses) <= most * |pauses|
  {
    if pauses != [] {
      TotalBounded(pauses[1..], most);
      assert most * |pauses| == most + most * (|pauses| - 1);
    }
  }

  lemma EachPauseBounded(sync: nat -> Option<Kind>, i: nat)
    requires FailsRetryably(sync, i)
    ensures PauseAfter(sync, i) <= RATE_LIMIT_MAX_DELAY
  {
    if sync(i).value.RateLimit? {
      PauseBounded(RateLimits(sync, i + 1));
    }
  }

  /** However many retries are allowed, all pauses together last at most five seconds for each. */
  lemma BackoffBounded(sync: nat -> Option<Kind>, pauses: seq<nat>, maxRetries: nat)
    requires |pauses| <= maxRetries
    requires forall i :: 0 <= i < |pauses| ==> FailsRetryably(sync, i) && pauses[i] == PauseAfter(sync, i)
    ensures Total(pauses) <= RATE_LIMIT_MAX_DELAY * maxRetries
  {
    forall i | 0 <= i < |pauses| ensures pauses[i] <= RATE_LIMIT_MAX_DELAY {
      EachPauseBounded(sync, i);
    }
    TotalBounded(pauses, RATE_LIMIT_MAX_DELAY);
  }

  lemma {:induction false} RateLimitsGrow(sync: nat -> Option<Kind>, m: nat, n: nat)
    requires m <= n
    ensures RateLimits(sync, m) <= RateLimits(sync, n)
  {
    if m < n {
      RateLimitsGrow(sync, m, n - 1);
    }
  }

  /** The call that brings the count of rate limits to a given number. */
  lemma {:induction false} CallThatReaches(sync: nat -> Option<Kind>, n: nat, count: nat) returns (i: nat)
    requires 1 <= count <= RateLimits(sync, n)
    ensures i < n && sync(i) == Some(RateLimit) && RateLimits(sync, i + 1) == count
  {
    if RateLimits(sync, n - 1) < count {
      i := n - 1;
    } else {
      i := CallThatReaches(sync, n - 1, count);
    }
  }

  /** Every rate-limit pause among the first n is the meant one. */
  ghost predicate PausesMeant(sync: nat -> Option<Kind>, n: nat) {
    forall i :: 0 <= i < n && sync(i) == Some(RateLimit) ==> PauseAfter(sync, i) == MeantMs(RateLimits(sync, i + 1))
  }

  /**
   Over the first n failed calls every rate-limit pause is the meant one exactly when no more
   than 54 of them hit the rate limit, so always when at most 54 retries are allowed.
   */
  lemma PausesExact(sync: nat -> Option<Kind>, n: nat)
    requires forall i :: 0 <= i < n ==> FailsRetryably(sync, i)
    ensures PausesMeant(sync, n) <==> RateLimits(sync, n) <= 54
  {
    if RateLimits(sync, n) <= 54 {
      forall i | 0 <= i < n && sync(i) == Some(RateLimit)
        ensures PauseAfter(sync, i) == MeantMs(RateLimits(sync, i + 1))
      {
        RateLimitsGrow(sync, i + 1, n);
        DelayExact(RateLimits(sync, i + 1));
      }
    } else {
      var i := CallThatReaches(sync, n, 55);
      FirstWrongDelay();
      assert PauseAfter(sync, i) != MeantMs(RateLimits(sync, i + 1));
    }
  }

  /** The calls of a run that were followed by a pause. */
  ghost predicate Pauses(sync: nat -> Option<Kind>, maxRetries: nat, n: nat) {
    n <= maxRetries && forall i :: 0 <= i < n ==> FailsRetryably(sync, i)
  }

  function AlwaysLimited(i: nat): Option<Kind> {
    Some(RateLimit)
  }

  lemma {:induction false} AllLimited(n: nat)
    ensures RateLimits(AlwaysLimited, n) == n
  {
    if n > 0 {
      AllLimited(n - 1);
    }
  }

  /** What a caller can rely on: whatever the calls return, all pauses are the meant ones, up to 54 retries. */
  lemma RetriesExact(maxRetries: nat)
    ensures (forall sync, n :: Pauses(sync, maxRetries, n) ==> PausesMeant(sync, n)) <==> maxRetries <= 54
  {
    hide PausesMeant, Pauses;
    if maxRetries <= 54 {
      forall sync, n | Pauses(sync, maxRetries, n) ensures PausesMeant(sync, n) {
        FewRetriesMeant(sync, n, maxRetries);
      }
    } else {
      OneRetryTooMany(maxRetries);
    }
  }

  lemma FewRetriesMeant(sync: nat -> Option<Kind>, n: nat, maxRetries: nat)
    requires maxRetries <= 54 && Pauses(sync, maxRetries, n)
    ensures PausesMeant(sync, n)
  {
    PausesExact(sync, n);
  }

  /** A server that never stops limiting shows it. */
  lemma OneRetryTooMany(maxRetries: nat)
    requires maxRetries > 54
    ensures Pauses(AlwaysLimited, maxRetries, 55) && !PausesMeant(AlwaysLimited, 55)
  {
    AllLimited(55);
    PausesExact(AlwaysLimited, 55);
    hide RateLimits, PauseAfter, DelayMs, MeantMs, SleptMs;
  }

  /** Up to 54 retries, the rate-limit pauses of a run never get shorter. */
  lemma PausesGrow(sync: nat -> Option<Kind>, i: nat, j: nat)
    requires i <= j < 54 && sync(i) == sync(j) == Some(RateLimit)
    ensures PauseAfter(sync, i) <= PauseAfter(sync, j)
  {
    RateLimitsGrow(sync, i + 1, j + 1);
    DelaysGrow(RateLimits(sync, i + 1), RateLimits(sync, j + 1));
  }
}
