/** The exponential backoff engine, over exact reals (internal/retry). */
module Backoff {
  import opened Common

  datatype Config = Config(baseDelay: int, maxDelay: int, multiplier: real, maxAttempts: int, jitter: real)

  /** What NewEngine establishes whatever it is given. */
  predicate Normal(c: Config) {
    0 < c.baseDelay <= c.maxDelay && 1.0 < c.multiplier && 0.0 <= c.jitter <= 1.0
  }

  function Pow(b: real, n: nat): (p: real) {
    if n == 0 then 1.0 else Pow(b, n - 1) * b
  }

  function Min(x: real, y: real): (m: real) {
    if x <= y then x else y
  }

  /** The closed form: the base delay grown once per failure and capped. */
  function Unjittered(c: Config, attempt: int): (d: real) {
    Min(c.maxDelay as real, c.baseDelay as real * Pow(c.multiplier, if attempt < 0 then 0 else attempt))
  }

  /** The delay when the random draw is `u`. */
  function Jittered(c: Config, attempt: int, u: real): (d: real) {
    Spread(c.maxDelay as real, Unjittered(c, attempt), c.jitter * u)
  }

  /** `d` lengthened by the share `j` of itself and capped. */
  function Spread(cap: real, d: real, j: real): (r: real) {
    Min(cap, d + d * j)
  }

  lemma Scale(x: real, y: real, k: real)
    requires x <= y && 0.0 <= k
    ensures k * x <= k * y
  {
  }

  lemma {:induction false} PowGrows(b: real, m: nat, n: nat)
    requires 1.0 < b && m <= n
    ensures 1.0 <= Pow(b, m) <= Pow(b, n)
  {
    if m < n {
      PowGrows(b, m, n - 1);
      Scale(1.0, b, Pow(b, n - 1));
    } else if m > 0 {
      PowGrows(b, m - 1, m - 1);
      Scale(1.0, b, Pow(b, m - 1));
    }
  }

  /** More failures never shorten the wait, and every wait is within [BaseDelay, MaxDelay]. */
  lemma UnjitteredMonotone(c: Config, a: int, b: int)
    requires Normal(c) && a <= b
    ensures c.baseDelay as real <= Unjittered(c, a) <= Unjittered(c, b) <= c.maxDelay as real
  {
    var m, n := if a < 0 then 0 else a, if b < 0 then 0 else b;
    PowGrows(c.multiplier, m, n);
    Scale(Pow(c.multiplier, m), Pow(c.multiplier, n), c.baseDelay as real);
    Scale(1.0, Pow(c.multiplier, m), c.baseDelay as real);
  }

  lemma SpreadBounds(cap: real, d: real, j: real, u: real)
    requires 0.0 <= d <= cap && 0.0 <= j && 0.0 <= u < 1.0
    ensures d <= Spread(cap, d, j * u) <= Spread(cap, d, j)
    ensures j == 0.0 ==> Spread(cap, d, j * u) == d
  {
    var share := j * u;
    PartOf(j, u, share);
    ShareBounds(cap, d, share, j);
  }

  lemma PartOf(j: real, u: real, share: real)
    requires 0.0 <= j && 0.0 <= u < 1.0 && share == j * u
    ensures 0.0 <= share <= j
  {
    Scale(0.0, u, j);
    Scale(u, 1.0, j);
  }

  lemma ShareBounds(cap: real, d: real, share: real, j: real)
    requires 0.0 <= d <= cap && 0.0 <= share <= j
    ensures d <= Spread(cap, d, share) <= Spread(cap, d, j)
    ensures share == 0.0 ==> Spread(cap, d, share) == d
  {
    Scale(0.0, share, d);
    Scale(share, j, d);
    CapKeepsOrder(cap, d + d * share, d + d * j);
  }

  lemma CapKeepsOrder(cap: real, x: real, y: real)
    requires x <= y
    ensures Min(cap, x) <= Min(cap, y)
  {
  }

  /** Jitter only lengthens the wait, by at most the configured share and never past the cap. */
  lemma JitterBounds(c: Config, attempt: int, u: real)
    requires Normal(c) && 0.0 <= u < 1.0
    ensures Unjittered(c, attempt) <= Jittered(c, attempt, u)
    ensures Jittered(c, attempt, u) <= Spread(c.maxDelay as real, Unjittered(c, attempt), c.jitter)
    ensures c.jitter == 0.0 ==> Jittered(c, attempt, u) == Unjittered(c, attempt)
  {
    UnjitteredMonotone(c, attempt, attempt);
    SpreadBounds(c.maxDelay as real, Unjittered(c, attempt), c.jitter, u);
  }

  /** The delays the engine may hand out for one attempt count. */
  ghost predicate IsDelay(c: Config, attempt: int, delay: int) {
    exists u: real | 0.0 <= u < 1.0 :: delay == Jittered(c, attempt, u).Floor
  }

  /** Every delay handed out is at least the unjittered one, in whole nanoseconds. */
  lemma DelayAtLeastUnjittered(c: Config, attempt: int, delay: int)
    requires Normal(c) && IsDelay(c, attempt, delay)
    ensures 0 < Unjittered(c, attempt).Floor <= delay <= c.maxDelay
  {
    var u: real :| 0.0 <= u < 1.0 && delay == Jittered(c, attempt, u).Floor;
    UnjitteredMonotone(c, attempt, attempt);
    JitterBounds(c, attempt, u);
  }

  class Engine {
    const config: Config

    /** Keeps every valid setting and replaces each invalid one by its default. */
    constructor (cfg: Config)
      ensures Normal(config)
      ensures config.maxAttempts == cfg.maxAttempts
      ensures cfg.baseDelay > 0 ==> config.baseDelay == cfg.baseDelay
      ensures cfg.baseDelay <= 0 ==> config.baseDelay == SECOND
      ensures 0 < config.baseDelay <= cfg.maxDelay ==> config.maxDelay == cfg.maxDelay
      ensures 0 < cfg.maxDelay < config.baseDelay ==> config.maxDelay == config.baseDelay
      ensures cfg.maxDelay <= 0 ==>
                config.maxDelay == if 30 * SECOND < config.baseDelay then config.baseDelay else 30 * SECOND
      ensures config.multiplier == if cfg.multiplier <= 1.0 then 2.0 else cfg.multiplier
      ensures 0.0 <= cfg.jitter <= 1.0 ==> config.jitter == cfg.jitter
      ensures cfg.jitter < 0.0 ==> config.jitter == 0.0
      ensures cfg.jitter > 1.0 ==> config.jitter == 1.0
    {
      var c := cfg;
      if c.baseDelay <= 0 {
        c := c.(baseDelay := SECOND);
      }
      if c.maxDelay <= 0 {
        c := c.(maxDelay := 30 * SECOND);
      }
      if c.multiplier <= 1.0 {
        c := c.(multiplier := 2.0);
      }
      if c.maxDelay < c.baseDelay {
        c := c.(maxDelay := c.baseDelay);
      }
      if c.jitter < 0.0 {
        c := c.(jitter := 0.0);
      }
      if c.jitter > 1.0 {
        c := c.(jitter := 1.0);
      }
      config := c;
    }

    /** The loop with its early exit computes the closed form; `u` is the random draw. */
    method Delay(attempt: int, u: real) returns (delay: int)
      requires Normal(config) && 0.0 <= u < 1.0
      ensures delay == Jittered(config, attempt, u).Floor
      ensures IsDelay(config, attempt, delay)
    {
      var d := Capped(if attempt < 0 then 0 else attempt);
      if config.jitter > 0.0 {
        d := d + d * (config.jitter * u);
        if d > config.maxDelay as real {
          d := config.maxDelay as real;
        }
      } else {
        JitterBounds(config, attempt, u);
      }
      delay := d.Floor;
    }

    method Capped(n: nat) returns (d: real)
      requires Normal(config)
      ensures d == Unjittered(config, n)
    {
      var cap := config.maxDelay as real;
      d := config.baseDelay as real;
      var i := 0;
      while i < n
        invariant 0 <= i <= n
        invariant d == config.baseDelay as real * Pow(config.multiplier, i) && d <= cap
      {
        Step(d, i);
        d := d * config.multiplier;
        i := i + 1;
        if d > cap {
          PowGrows(config.multiplier, i, n);
          Scale(Pow(config.multiplier, i), Pow(config.multiplier, n), config.baseDelay as real);
          d := cap;
          break;
        }
      }
      if d > cap {
        d := cap;
      }
    }

    lemma Step(d: real, i: nat)
      requires d == config.baseDelay as real * Pow(config.multiplier, i)
      ensures d * config.multiplier == config.baseDelay as real * Pow(config.multiplier, i + 1)
    {
    }
  }

  /** Whether the engine allows another try after `attempt` failures. */
  predicate ShouldRetry(maxAttempts: int, attempt: int, permanent: bool) {
    !permanent && !(maxAttempts > 0 && attempt >= maxAttempts)
  }
}
