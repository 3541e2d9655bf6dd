/**
  Exponential backoff: the wait before the next retry is Base * Factor^retryCount,
  capped at Max.
 */
module Backoff {
  import opened GoTime

  /** The multiplier, restricted to a positive whole number. */
  type Factor = f: nat | f >= 1 witness 1

  datatype Exponential = Exponential(base: Duration, factor: Factor, max: Duration)

  /** The policy the worker installs: 1s, doubling, capped at 1h. */
  const WorkerPolicy := Exponential(Second, 2, Hour)

  function Pow(f: Factor, n: nat): (r: nat)
    ensures r >= 1
  {
    if n == 0 then 1 else f * Pow(f, n - 1)
  }

  /**
    Base * Factor^n before the cap. A negative retry count makes math.Pow
    return 1 / Factor^|n|, and the conversion back to a Duration truncates
    toward zero.
   */
  function Uncapped(s: Exponential, n: int): int {
    if n >= 0 then s.base * Pow(s.factor, n) else Quo(s.base, Pow(s.factor, -n))
  }

  /** GetNextInterval. */
  function NextInterval(s: Exponential, retryCount: int): (d: Duration)
    ensures d <= s.max
    ensures d < s.max ==> d == Uncapped(s, retryCount)
    ensures Uncapped(s, retryCount) <= s.max ==> d == Uncapped(s, retryCount)
    ensures Uncapped(s, retryCount) >= s.max ==> d == s.max
  {
    var interval := Uncapped(s, retryCount);
    if interval > s.max then s.max else interval
  }

  lemma {:induction false} PowMonotone(f: Factor, n: nat, m: nat)
    requires n <= m
    ensures Pow(f, n) <= Pow(f, m)
  {
    if n < m {
      PowMonotone(f, n, m - 1);
      assert Pow(f, m) == f * Pow(f, m - 1);
    }
  }

  /** The first retry waits Base, or Max if Base is already above it. */
  lemma FirstRetry(s: Exponential)
    ensures NextInterval(s, 0) == if s.base <= s.max then s.base else s.max
  {
  }

  /** With a non-negative base, a later retry never waits less than an earlier one. */
  lemma Monotone(s: Exponential, n: nat, m: nat)
    requires s.base >= 0
    requires n <= m
    ensures NextInterval(s, n) <= NextInterval(s, m)
  {
    UncappedMonotone(s, n, m);
  }

  lemma UncappedMonotone(s: Exponential, n: nat, m: nat)
    requires s.base >= 0
    requires n <= m
    ensures Uncapped(s, n) <= Uncapped(s, m)
  {
    PowMonotone(s.factor, n, m);
  }

  /** Once the uncapped wait passes Max, every later retry waits exactly Max. */
  lemma CapIsSticky(s: Exponential, n: nat, m: nat)
    requires s.base >= 0
    requires n <= m
    requires Uncapped(s, n) > s.max
    ensures NextInterval(s, m) == s.max
  {
    UncappedMonotone(s, n, m);
  }

  /** The worker's schedule: 1s, 2s, 4s for the first three retries, 2048s at count 11, one hour from count 12 on. */
  lemma WorkerSchedule(n: nat)
    ensures NextInterval(WorkerPolicy, 0) == Second
    ensures NextInterval(WorkerPolicy, 1) == 2 * Second
    ensures NextInterval(WorkerPolicy, 2) == 4 * Second
    ensures NextInterval(WorkerPolicy, 11) == 2048 * Second
    ensures n >= 12 ==> NextInterval(WorkerPolicy, n) == Hour
  {
    assert Pow(2, 11) == 2048;
    assert Pow(2, 12) == 4096;
    if n >= 12 {
      CapIsSticky(WorkerPolicy, 12, n);
    }
  }
}
