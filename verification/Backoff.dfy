/** `retry.calculateDelay`: exponential or constant backoff, clamped and optionally jittered. */
module Backoff {
  import opened Wrappers
  import opened Float64

  datatype Strategy = Constant | Exponential | Unknown

  /** Durations are int64 nanoseconds. */
  datatype Config = Config(maxAttempts: int, initialDelay: int, maxDelay: int, strategy: Strategy, jitter: bool)

  const MIN_INT64: int := -0x8000_0000_0000_0000

  predicate IsInt64(x: int) {
    MIN_INT64 <= x < TWO63
  }

  /** `float64(x)` for a possibly negative x. */
  function FloatOf(x: int): int {
    if x >= 0 then ToFloat(x) else 0 - ToFloat(-x)
  }

  /** `time.Duration(f)`: outside int64 Go leaves the result to the implementation, `garbage` here. */
  function ToDuration(f: int, garbage: int): int {
    if IsInt64(f) then f else garbage
  }

  function Min(a: int, b: int): int {
    if a <= b then a else b
  }

  function Scaled(cfg: Config, attempt: nat): int {
    FloatOf(cfg.initialDelay) * Pow2(Min(attempt, 62))
  }

  /** calculateDelay up to the jitter. */
  function BaseDelay(cfg: Config, attempt: nat, garbage: int): int {
    var scaled := Scaled(cfg, attempt);
    var delay :=
      if !cfg.strategy.Exponential? then cfg.initialDelay
      else if scaled > FloatOf(cfg.maxDelay) then cfg.maxDelay
      else ToDuration(scaled, garbage);
    if delay > cfg.maxDelay then cfg.maxDelay else delay
  }

  /** The whole of calculateDelay. `draw` is the random source: None when it fails, and otherwise any
      number, reduced below the bound as `rand.Int` does. */
  function Delay(cfg: Config, attempt: nat, garbage: int, draw: Option<nat>): int {
    var delay := BaseDelay(cfg, attempt, garbage);
    if cfg.jitter && delay > 0 && draw.Some? then draw.value % delay else delay
  }

  /** What the documentation asks for: doubling from the initial delay, capped. */
  function Ideal(cfg: Config, attempt: nat): int {
    Min(cfg.maxDelay, Scaled(cfg, attempt))
  }

  predicate NonNegative(cfg: Config) {
    0 <= cfg.initialDelay < TWO63 && 0 <= cfg.maxDelay < TWO63
  }

  predicate Durations(cfg: Config) {
    IsInt64(cfg.initialDelay) && IsInt64(cfg.maxDelay)
  }

  /** The conversion overflows: the scaled delay passes the comparison with the rounded cap and is not
      an int64. */
  predicate Overflows(cfg: Config, attempt: nat) {
    Scaled(cfg, attempt) <= FloatOf(cfg.maxDelay) && !IsInt64(Scaled(cfg, attempt))
  }

  lemma FixedOnBothSides(f: nat)
    requires Representable(f)
    ensures FloatOf(f) == f && FloatOf(0 - f as int) == 0 - f as int
  {
    RepresentableIsFixed(f);
  }

  lemma SignedProduct(f: nat, p: nat)
    requires p >= 1
    ensures (0 - f as int) * p == 0 - f * p
    ensures f > 0 <==> f * p > 0
  {
  }

  lemma ProductIsFloat(x: nat, k: nat)
    ensures var scaled := ToFloat(x) * Pow2(k);
            && FloatOf(scaled) == scaled && FloatOf(0 - scaled) == 0 - scaled
            && (0 - ToFloat(x) as int) * Pow2(k) == 0 - scaled
            && (x > 0 ==> scaled > 0)
  {
    ToFloatRepresentable(x);
    ToFloatPositive(x);
    ScaledRepresentable(ToFloat(x), k);
    SignedProduct(ToFloat(x), Pow2(k));
    FixedOnBothSides(ToFloat(x) * Pow2(k));
  }

  /** The product is a float of the sign of the initial delay. */
  lemma ScaledIsFloat(cfg: Config, attempt: nat)
    ensures cfg.initialDelay >= 0 <==> Scaled(cfg, attempt) >= 0
    ensures FloatOf(Scaled(cfg, attempt)) == Scaled(cfg, attempt)
  {
    ProductIsFloat(if cfg.initialDelay >= 0 then cfg.initialDelay else -cfg.initialDelay, Min(attempt, 62));
  }

  lemma ToFloatPositive(x: nat)
    ensures x > 0 ==> ToFloat(x) > 0
  {
    if x > 0 {
      RepresentableIsFixed(1);
      ToFloatMonotone(1, x);
    }
  }

  lemma FloatOfMonotone(x: int, y: int)
    requires x <= y
    ensures FloatOf(x) <= FloatOf(y)
  {
    if x >= 0 {
      ToFloatMonotone(x, y);
    } else if y < 0 {
      ToFloatMonotone(-y, -x);
    }
  }

  /** Where the conversion overflows. With non-negative settings: exactly when the scaled delay is 2^63
      and so is the rounded cap. With a negative initial delay: exactly when the scaled delay is below
      the smallest int64. */
  lemma OverflowsIff(cfg: Config, attempt: nat)
    requires Durations(cfg)
    ensures NonNegative(cfg) ==> (Overflows(cfg, attempt) <==> cfg.maxDelay >= TWO63 - 512 && Scaled(cfg, attempt) == TWO63)
    ensures cfg.initialDelay < 0 ==> (Overflows(cfg, attempt) <==> Scaled(cfg, attempt) < MIN_INT64)
  {
    ScaledIsFloat(cfg, attempt);
    if NonNegative(cfg) {
      RoundsTo63(cfg.maxDelay);
    } else if cfg.initialDelay < 0 {
      SmallestIsFloat();
      FloatOfMonotone(MIN_INT64, cfg.maxDelay);
    }
  }

  lemma SmallestIsFloat()
    ensures FloatOf(MIN_INT64) == MIN_INT64
  {
    UlpAtHalf();
    UlpDouble(0x4000_0000_0000_0000);
    RepresentableIsFixed(TWO63);
  }

  /** Without overflow the exponential branch computes the ideal delay: although the comparison is
      made against a rounded cap, no rounding shows in the result. */
  lemma ExponentialDelay(cfg: Config, attempt: nat, garbage: int)
    requires Durations(cfg) && cfg.strategy.Exponential? && !Overflows(cfg, attempt)
    ensures BaseDelay(cfg, attempt, garbage) == Ideal(cfg, attempt) <= cfg.maxDelay
    ensures BaseDelay(cfg, attempt, garbage) ==
            Min(cfg.maxDelay, FloatOf(cfg.initialDelay) * Pow2(if attempt > 62 then 62 else attempt))
    ensures NonNegative(cfg) ==> 0 <= BaseDelay(cfg, attempt, garbage)
  {
    ScaledIsFloat(cfg, attempt);
    if Scaled(cfg, attempt) <= cfg.maxDelay {
      FloatOfMonotone(Scaled(cfg, attempt), cfg.maxDelay);
    }
  }

  /** With overflow the delay is whatever the conversion yields. */
  lemma OverflowingDelay(cfg: Config, attempt: nat, garbage: int)
    requires Durations(cfg) && cfg.strategy.Exponential? && Overflows(cfg, attempt)
    ensures BaseDelay(cfg, attempt, garbage) == Min(cfg.maxDelay, garbage)
    ensures Ideal(cfg, attempt) == (if cfg.initialDelay >= 0 then cfg.maxDelay else Scaled(cfg, attempt))
    ensures cfg.initialDelay >= 0 ==> cfg.maxDelay > 0
  {
    ScaledIsFloat(cfg, attempt);
    OverflowsIff(cfg, attempt);
    ToFloatPositive(if cfg.maxDelay < 0 then -cfg.maxDelay else 0);
  }

  /** The exact condition, for all settings: the exponential delay is the ideal one whatever the
      implementation makes of an out-of-range conversion if and only if the conversion does not
      overflow. */
  lemma ExponentialDelayIff(cfg: Config, attempt: nat)
    requires Durations(cfg) && cfg.strategy.Exponential?
    ensures (forall garbage :: IsInt64(garbage) ==> BaseDelay(cfg, attempt, garbage) == Ideal(cfg, attempt))
            <==> !Overflows(cfg, attempt)
  {
    if Overflows(cfg, attempt) {
      OverflowingDelay(cfg, attempt, MIN_INT64);
      assert IsInt64(MIN_INT64);
    } else {
      forall garbage ensures BaseDelay(cfg, attempt, garbage) == Ideal(cfg, attempt) {
        ExponentialDelay(cfg, attempt, garbage);
      }
    }
  }

  /** The largest Duration as a cap, which reads as no cap at all, does overflow: on hardware that
      converts out-of-range values to the smallest int64 the retry does not wait. */
  lemma UncappedOverflow()
    ensures var cfg := Config(3, 0x4000_0000_0000_0000, TWO63 - 1, Exponential, false);
            NonNegative(cfg) && Overflows(cfg, 1) && Delay(cfg, 1, MIN_INT64, None) == MIN_INT64
  {
    var cfg := Config(3, 0x4000_0000_0000_0000, TWO63 - 1, Exponential, false);
    UlpAtHalf();
    assert Pow2(1) == 2 * Pow2(0);
    RepresentableIsFixed(0x4000_0000_0000_0000);
    OverflowsIff(cfg, 1);
  }

  /** A negative initial delay, which the options let through, overflows at the other end: from attempt
      62 on the delay is whatever the conversion yields, though its cap is small. */
  lemma NegativeOverflow(garbage: int)
    ensures var cfg := Config(64, -3, 10_000_000_000, Exponential, false);
            && Durations(cfg) && Overflows(cfg, 62)
            && BaseDelay(cfg, 62, garbage) == Min(cfg.maxDelay, garbage)
  {
    var cfg := Config(64, -3, 10_000_000_000, Exponential, false);
    RepresentableIsFixed(3);
    Pow2At62();
    assert Scaled(cfg, 62) == -3 * 0x4000_0000_0000_0000;
    OverflowsIff(cfg, 62);
    OverflowingDelay(cfg, 62, garbage);
  }

  lemma {:induction false} Pow2Sum(a: nat, b: nat)
    ensures Pow2(a + b) == Pow2(a) * Pow2(b)
  {
    if b > 0 {
      Pow2Sum(a, b - 1);
    }
  }

  lemma Pow2At30()
    ensures Pow2(30) == 0x4000_0000 && Pow2(2) == 4
  {
    assert Pow2(1) == 2 && Pow2(2) == 4 && Pow2(3) == 8 && Pow2(5) == 32;
    Pow2Sum(5, 5);
    Pow2Sum(10, 10);
    Pow2Sum(20, 10);
  }

  lemma Pow2At62()
    ensures Pow2(62) == 0x4000_0000_0000_0000
  {
    Pow2At30();
    Pow2Sum(30, 30);
    Pow2Sum(60, 2);
  }

  lemma {:induction false} Pow2Monotone(a: nat, b: nat)
    requires a <= b
    ensures Pow2(a) <= Pow2(b)
  {
    if a < b {
      Pow2Monotone(a, b - 1);
    }
  }

  /** Delays never shrink from one attempt to the next. */
  lemma DelayNondecreasing(cfg: Config, a: nat, b: nat, garbage: int)
    requires NonNegative(cfg) && a <= b
    requires cfg.strategy.Exponential? ==> !Overflows(cfg, a) && !Overflows(cfg, b)
    ensures BaseDelay(cfg, a, garbage) <= BaseDelay(cfg, b, garbage)
  {
    if cfg.strategy.Exponential? {
      ExponentialDelay(cfg, a, garbage);
      ExponentialDelay(cfg, b, garbage);
      var ka: nat, kb: nat := Min(a, 62), Min(b, 62);
      Pow2Monotone(ka, kb);
      ScaledMonotone(ToFloat(cfg.initialDelay), Pow2(ka), Pow2(kb));
    }
  }

  lemma ScaledMonotone(f: nat, p: nat, q: nat)
    requires p <= q
    ensures f * p <= f * q
  {
    MulMono(p, q, f);
  }

  /** Full jitter stays below the base delay; it is the base itself when that is not positive or the
      random source fails. */
  lemma JitterBelowBase(cfg: Config, attempt: nat, garbage: int, draw: Option<nat>)
    ensures var base, delay := BaseDelay(cfg, attempt, garbage), Delay(cfg, attempt, garbage, draw);
            if cfg.jitter && base > 0 && draw.Some? then 0 <= delay < base else delay == base
  {
  }

  /** The delay is never longer than the ideal one, which is not negative. */
  lemma DelayWithinIdeal(cfg: Config, attempt: nat, garbage: int, draw: Option<nat>)
    requires NonNegative(cfg) && cfg.strategy.Exponential?
    ensures 0 <= Ideal(cfg, attempt)
    ensures Delay(cfg, attempt, garbage, draw) <= Ideal(cfg, attempt)
  {
    ScaledIsFloat(cfg, attempt);
    JitterBelowBase(cfg, attempt, garbage, draw);
    if Overflows(cfg, attempt) {
      OverflowingDelay(cfg, attempt, garbage);
    } else {
      ExponentialDelay(cfg, attempt, garbage);
    }
  }

  /** The other strategies wait for the initial delay, capped, after every attempt. */
  lemma ConstantDelay(cfg: Config, attempt: nat, garbage: int)
    requires !cfg.strategy.Exponential?
    ensures cfg.initialDelay <= cfg.maxDelay ==> BaseDelay(cfg, attempt, garbage) == cfg.initialDelay
    ensures cfg.initialDelay > cfg.maxDelay ==> BaseDelay(cfg, attempt, garbage) == cfg.maxDelay
  {
  }

  /** Full jitter is full: the delays that a draw can lead to are exactly those from zero up to but not
      including the base delay. */
  lemma JitterRange(cfg: Config, attempt: nat, garbage: int, delay: int)
    requires cfg.jitter && BaseDelay(cfg, attempt, garbage) > 0
    ensures (exists draw: nat :: Delay(cfg, attempt, garbage, Some(draw)) == delay)
            <==> 0 <= delay < BaseDelay(cfg, attempt, garbage)
  {
    var base := BaseDelay(cfg, attempt, garbage);
    forall draw: nat ensures 0 <= Delay(cfg, attempt, garbage, Some(draw)) < base {
      JitterBelowBase(cfg, attempt, garbage, Some(draw));
    }
    if 0 <= delay < base {
      SmallMod(delay, base);
      assert Delay(cfg, attempt, garbage, Some(delay)) == delay;
    }
  }

  lemma SmallMod(a: nat, m: nat)
    requires a < m
    ensures a % m == a
  {
  }

  /** Exponential means doubling: as long as the cap is not reached each delay is twice the one before,
      beginning with the initial delay. */
  lemma DelayDoubles(cfg: Config, attempt: nat, garbage: int)
    requires NonNegative(cfg) && cfg.strategy.Exponential? && attempt < 62
    requires BaseDelay(cfg, attempt + 1, garbage) < cfg.maxDelay && !Overflows(cfg, attempt + 1)
    ensures BaseDelay(cfg, attempt + 1, garbage) == 2 * BaseDelay(cfg, attempt, garbage)
    ensures attempt == 0 ==> BaseDelay(cfg, attempt, garbage) == FloatOf(cfg.initialDelay)
  {
    var f := FloatOf(cfg.initialDelay);
    assert Pow2(attempt + 1) == 2 * Pow2(attempt);
    Twice(f, Pow2(attempt));
    ScaledIsFloat(cfg, attempt);
    ExponentialDelay(cfg, attempt + 1, garbage);
    OverflowsIff(cfg, attempt);
    OverflowsIff(cfg, attempt + 1);
    ExponentialDelay(cfg, attempt, garbage);
  }

  lemma Twice(f: int, p: int)
    ensures f * (2 * p) == 2 * (f * p)
  {
  }

  /** Conversion to float64 is symmetric, and on the non-negative numbers it is the one of `Float64`. */
  lemma FloatOfIsOdd(x: nat)
    ensures FloatOf(x) == ToFloat(x) && FloatOf(0 - x as int) == 0 - ToFloat(x)
  {
    if x == 0 { RepresentableIsFixed(0); }
  }
}
