/** Retry delays: the proxy's (pavis, retry.rs), the relay pipeline's (pavis-relay, pipeline/backoff.rs
    and pipeline/artifact.rs) and the agent's (pavis, agent/fsm.rs). Machine arithmetic saturates; the
    lemmas relate it to the formulas over unbounded integers. */
module Backoff {
  import opened Common

  const U64_MAX := 0xFFFF_FFFF_FFFF_FFFF

  /** The largest `Duration`, in nanoseconds. */
  const DURATION_MAX := U64_MAX * 1_000_000_000 + 999_999_999

  function Pow2(k: nat): (p: nat)
    ensures p >= 1
  {
    if k == 0 then 1 else 2 * Pow2(k - 1)
  }

  function SatMul(a: nat, b: nat, max: nat): nat { if a * b > max then max else a * b }

  function SatPow2(k: nat): nat { if Pow2(k) > U64_MAX then U64_MAX else Pow2(k) }

  lemma {:induction false} Pow2Monotone(j: nat, k: nat)
    requires j <= k
    ensures Pow2(j) <= Pow2(k)
  {
    if j < k { Pow2Monotone(j, k - 1); }
  }

  lemma MulMonotone(a: nat, b: nat, c: nat)
    requires b <= c
    ensures a * b <= a * c
  {
  }

  /* ---- the proxy ---- */

  datatype Strategy = Fixed(base: nat) | Linear(base: nat) | Exponential(base: nat, max: nat)

  datatype Policy = Disabled | Enabled(maxAttempts: nat, backoff: Strategy)

  ghost predicate InRange(s: Strategy) {
    s.base <= U64_MAX && (s.Exponential? ==> s.max <= U64_MAX)
  }

  /** `calculate_backoff`, in milliseconds; attempts count from 1. */
  function CalculateBackoff(p: Policy, attempt: nat): nat
    requires attempt >= 1
  {
    match p
    case Disabled => 0
    case Enabled(_, Fixed(base)) => base
    case Enabled(_, Linear(base)) => SatMul(base, attempt - 1, U64_MAX)
    case Enabled(_, Exponential(base, max)) =>
      if attempt < 2 then 0 else Min(SatMul(base, SatPow2(attempt - 2), U64_MAX), max)
  }

  /** The formula the documentation gives, over unbounded integers. */
  function IdealBackoff(s: Strategy, attempt: nat): nat
    requires attempt >= 1
  {
    match s
    case Fixed(base) => base
    case Linear(base) => base * (attempt - 1)
    case Exponential(base, max) => if attempt < 2 then 0 else Min(base * Pow2(attempt - 2), max)
  }

  /** Capped exponential backoff is exact for every attempt: where the arithmetic saturates, the cap
      already applies. Linear backoff is exact exactly until the product leaves 64 bits. */
  lemma BackoffIsExact(n: nat, s: Strategy, attempt: nat)
    requires attempt >= 1 && InRange(s)
    ensures CalculateBackoff(Enabled(n, s), attempt) == Min(IdealBackoff(s, attempt), U64_MAX)
    ensures !s.Linear? ==> IdealBackoff(s, attempt) <= U64_MAX
  {
    if s.Exponential? && attempt >= 2 {
      var p := Pow2(attempt - 2);
      if s.base > 0 && p > U64_MAX {
        MulMonotone(p, 1, s.base);
        MulMonotone(U64_MAX, 1, s.base);
        assert s.base * p == p * s.base >= p && s.base * U64_MAX == U64_MAX * s.base >= U64_MAX;
      }
    }
  }

  /** The first delays: none before the first retry of a growing strategy, then the base, then twice the base. */
  lemma FirstBackoffs(n: nat, base: nat, max: nat)
    requires 2 * base <= max <= U64_MAX
    ensures CalculateBackoff(Disabled, 1) == 0 && CalculateBackoff(Enabled(n, Fixed(base)), 1) == base
    ensures var linear := Enabled(n, Linear(base));
            CalculateBackoff(linear, 1) == 0 && CalculateBackoff(linear, 2) == base
            && CalculateBackoff(linear, 3) == 2 * base
    ensures var growing := Enabled(n, Exponential(base, max));
            CalculateBackoff(growing, 1) == 0 && CalculateBackoff(growing, 2) == base
            && CalculateBackoff(growing, 3) == 2 * base
  {
    assert Pow2(0) == 1 && Pow2(1) == 2;
  }

  /** Delays never shrink from one attempt to the next. */
  lemma BackoffGrows(p: Policy, attempt: nat)
    requires attempt >= 1 && (p.Enabled? ==> InRange(p.backoff))
    ensures CalculateBackoff(p, attempt) <= CalculateBackoff(p, attempt + 1)
  {
    if p.Enabled? {
      BackoffIsExact(p.maxAttempts, p.backoff, attempt);
      BackoffIsExact(p.maxAttempts, p.backoff, attempt + 1);
      match p.backoff
      case Fixed(_) =>
      case Linear(base) => MulMonotone(base, attempt - 1, attempt);
      case Exponential(base, _) =>
        if attempt >= 2 { MulMonotone(base, Pow2(attempt - 2), Pow2(attempt - 1)); }
    }
  }

  /* ---- the relay pipeline ---- */

  datatype Config = Config(base: nat, max: nat)

  ghost predicate ValidConfig(c: Config) { c.base <= DURATION_MAX && c.max <= DURATION_MAX }

  /** The k-th delay after a reset: the base first, whatever the maximum; then doubled up to it. */
  function Delay(c: Config, k: nat): nat { if k == 0 then c.base else Min(c.base * Pow2(k), c.max) }

  function Doubled(c: Config, delay: nat): nat { Min(SatMul(delay, 2, DURATION_MAX), c.max) }

  lemma DelayStep(c: Config, k: nat)
    requires ValidConfig(c)
    ensures Doubled(c, Delay(c, k)) == Delay(c, k + 1)
  {
    var b := c.base * Pow2(k);
    assert c.base * Pow2(k + 1) == 2 * b;
  }

  class Pacer {
    const config: Config
    var next: nat
    /** Calls of `NextDelay` since the last reset. */
    ghost var calls: nat

    ghost predicate Valid()
      reads this
    {
      ValidConfig(config) && next == Delay(config, calls)
    }

    constructor (config: Config)
      requires ValidConfig(config)
      ensures Valid() && calls == 0 && this.config == config
    {
      this.config := config;
      next := config.base;
      calls := 0;
    }

    method Reset()
      requires Valid()
      modifies this
      ensures Valid() && calls == 0
    {
      next := config.base;
      calls := 0;
    }

    method NextDelay() returns (delay: nat)
      requires Valid()
      modifies this
      ensures Valid() && calls == old(calls) + 1 && delay == Delay(config, old(calls))
    {
      DelayStep(config, calls);
      delay := next;
      var doubled := SatMul(delay, 2, DURATION_MAX);
      next := Min(doubled, config.max);
      calls := calls + 1;
    }
  }

  const U32_MAX := 0xFFFF_FFFF

  /** `publish_with_retry`, given how each publish comes out. It stops at the first success, after at
      most one publish more than `maxAttempts`, and sleeps the doubling delays in between. Its 32-bit
      attempt counter overflows exactly when `maxAttempts` is the largest such number and as many
      publishes fail. */
  method PublishWithRetry(maxAttempts: nat, c: Config, outcome: nat -> Option<nat>)
    returns (r: Option<nat>, publishes: nat, sleeps: seq<nat>, overflow: bool)
    requires ValidConfig(c) && maxAttempts <= U32_MAX
    ensures 1 <= publishes <= maxAttempts + 1 && r == outcome(publishes - 1)
    ensures forall k :: 0 <= k < publishes - 1 ==> outcome(k).None?
    ensures overflow <==> maxAttempts == U32_MAX && forall k :: 0 <= k < U32_MAX ==> outcome(k).None?
    ensures r.None? && !overflow ==> publishes == maxAttempts + 1
    ensures |sleeps| == (if overflow then publishes else publishes - 1)
    ensures forall k :: 0 <= k < |sleeps| ==> sleeps[k] == Delay(c, k)
  {
    var attempt, delay := 0, c.base;
    sleeps, publishes, r := [], 0, None;
    while true
      invariant attempt <= maxAttempts && |sleeps| == attempt && delay == Delay(c, attempt)
      invariant publishes == attempt && (attempt > 0 ==> r == outcome(attempt - 1))
      invariant forall k :: 0 <= k < attempt ==> outcome(k).None?
      invariant forall k :: 0 <= k < |sleeps| ==> sleeps[k] == Delay(c, k)
      decreases maxAttempts - attempt
    {
      if attempt == U32_MAX { return r, publishes, sleeps, true; }
      attempt := attempt + 1;
      r, publishes := outcome(attempt - 1), attempt;
      if r.Some? || attempt > maxAttempts { return r, publishes, sleeps, false; }
      DelayStep(c, attempt - 1);
      sleeps := sleeps + [delay];
      delay := Min(SatMul(delay, 2, DURATION_MAX), c.max);
    }
  }

  /* ---- the agent ---- */

  const BASE_MS := 250
  const CAP_MS := 5000
  const JITTER_PCT := 10

  function Jitter(capped: nat): nat { capped * JITTER_PCT / 100 }

  function Jittered(capped: nat, random: nat): int {
    if Jitter(capped) == 0 then capped else capped + (random % (2 * Jitter(capped) + 1) - Jitter(capped))
  }

  /** `backoff_delay`, given the random number it draws; the exponent is cut at 10. */
  function AgentDelay(attempt: nat, random: nat): int {
    Jittered(Min(SatMul(BASE_MS, Pow2(Min(attempt, 10)), U64_MAX), CAP_MS), random)
  }

  function AgentIdeal(attempt: nat): nat { Min(BASE_MS * Pow2(attempt), CAP_MS) }

  /** Cutting the exponent changes nothing: by then the cap applies. */
  lemma CutIsHarmless(attempt: nat)
    ensures Min(SatMul(BASE_MS, Pow2(Min(attempt, 10)), U64_MAX), CAP_MS) == AgentIdeal(attempt)
    ensures BASE_MS <= AgentIdeal(attempt) <= CAP_MS
  {
    assert Pow2(10) == 1024 by { assert Pow2(5) == 32; }
    if attempt > 10 {
      Pow2Monotone(10, attempt);
    } else {
      Pow2Monotone(attempt, 10);
    }
  }

  lemma JitterRange(capped: nat, random: nat)
    ensures capped - Jitter(capped) <= Jittered(capped, random) <= capped + Jitter(capped)
  {
    var width := 2 * Jitter(capped) + 1;
    assert 0 <= random % width < width;
  }

  lemma JitterReaches(capped: nat, d: int)
    requires capped - Jitter(capped) <= d <= capped + Jitter(capped)
    ensures exists draw: nat :: Jittered(capped, draw) == d
  {
    var draw: nat := d - capped + Jitter(capped);
    SmallMod(draw, 2 * Jitter(capped) + 1);
    assert Jittered(capped, draw) == d;
  }

  lemma SmallMod(x: nat, m: nat)
    requires x < m
    ensures x % m == x
  {
  }

  /** The delays before jitter: 250 ms, doubled for each attempt, 5 s from the sixth on. */
  lemma AgentDelays(attempt: nat)
    ensures AgentIdeal(attempt) == [250, 500, 1000, 2000, 4000, 5000][if attempt < 5 then attempt else 5]
    ensures Jitter(AgentIdeal(attempt)) == [25, 50, 100, 200, 400, 500][if attempt < 5 then attempt else 5]
  {
    assert Pow2(0) == 1 && Pow2(1) == 2 && Pow2(2) == 4 && Pow2(3) == 8 && Pow2(4) == 16 && Pow2(5) == 32;
    if attempt >= 5 { Pow2Monotone(5, attempt); }
  }

  /** The agent's delay is the capped exponential to within a tenth, for every attempt and draw, and
      every value in that range occurs for some draw. */
  lemma AgentDelayRange(attempt: nat, random: nat, d: int)
    ensures var jitter := Jitter(AgentIdeal(attempt));
            && AgentIdeal(attempt) - jitter <= AgentDelay(attempt, random) <= AgentIdeal(attempt) + jitter
            && 225 <= AgentDelay(attempt, random) <= 5500
            && (AgentIdeal(attempt) - jitter <= d <= AgentIdeal(attempt) + jitter ==>
                  exists draw: nat :: AgentDelay(attempt, draw) == d)
  {
    CutIsHarmless(attempt);
    var ideal := AgentIdeal(attempt);
    JitterRange(ideal, random);
    if ideal - Jitter(ideal) <= d <= ideal + Jitter(ideal) {
      JitterReaches(ideal, d);
      var draw: nat :| Jittered(ideal, draw) == d;
      assert AgentDelay(attempt, draw) == d;
    }
  }
}
