/** The delay sequence of `RetryPolicy.Do`, in Go's wrapping int64, against closed forms. */
module Backoff {
  import opened Basics
  import opened Powers

  /** The growth step. `Scaled(step)` is a positive Multiplier: `step(d)` is the Duration that
      float64(d) * Multiplier converts to, under whatever rounding the machine applies. */
  datatype Growth = Doubling | Scaled(step: int -> int)

  datatype Curve = Curve(base: int, max: int, growth: Growth)

  function Grow(c: Curve, d: int): int {
    match c.growth
    case Doubling => Wrap64(d * 2)
    case Scaled(step) => step(d)
  }

  /** The value of `delay` when attempt `k` (counted from 0) has failed. */
  function Delay(c: Curve, k: nat): int {
    if k == 0 then c.base
    else
      var grown := Grow(c, Delay(c, k - 1));
      if c.max > 0 && grown > c.max then c.max else grown
  }

  /** The promised capped exponential; the first wait is not capped. */
  function CappedExponential(c: Curve, factor: int, k: nat): int {
    if k == 0 then c.base else Min(c.base * Power(factor, k), c.max)
  }

  const HALF: int := 0x3FFF_FFFF_FFFF_FFFF // (2^63 - 1) / 2

  ghost predicate Capped(c: Curve) {
    0 < c.base <= MAX_INT64 && 0 < c.max <= MAX_INT64
  }

  // ---- Doubling under a cap ----------------------------------------------------------------

  lemma TimesPower(x: int, b: int, e: nat)
    ensures x * Power(b, e + 1) == b * (x * Power(b, e))
  {
  }

  /** Capping after each step and capping once agree, as long as every step is exact. */
  lemma CapCommutes(factor: int, grown: int, max: int)
    requires factor >= 1 && max >= 1
    ensures Min(factor * Min(grown, max), max) == Min(factor * grown, max)
  {
    if max < grown {
      TimesAtLeast(factor, max);
      TimesAtLeast(factor, grown - max);
      assert factor * grown == factor * max + factor * (grown - max);
    }
  }

  /** Small enough settings never wrap, and the delays are the capped exponential. */
  lemma {:induction false} DoublingIsExact(c: Curve, k: nat)
    requires Capped(c) && c.growth.Doubling? && c.base <= HALF && c.max <= HALF
    ensures Delay(c, k) == CappedExponential(c, 2, k)
    ensures 0 < Delay(c, k) <= HALF
    ensures Grow(c, Delay(c, k)) == 2 * Delay(c, k)
  {
    if k > 0 {
      DoublingIsExact(c, k - 1);
      TimesPower(c.base, 2, k - 1);
      if k > 1 {
        CapCommutes(2, c.base * Power(2, k - 1), c.max);
      }
    }
  }

  /** A setting of 2^62 or more makes some doubling wrap to a negative delay. */
  lemma {:induction false} DoublingWraps(c: Curve, k: nat) returns (bad: nat)
    requires Capped(c) && c.growth.Doubling?
    requires 0 < Delay(c, k) <= MAX_INT64 && (c.max > HALF || Delay(c, k) > HALF)
    ensures Delay(c, bad) < 0
    decreases MAX_INT64 - Delay(c, k)
  {
    var d := Delay(c, k);
    if d > HALF {
      bad := k + 1;
    } else if 2 * d <= c.max {
      bad := DoublingWraps(c, k + 1);
    } else {
      assert Delay(c, k + 1) == c.max;
      bad := k + 2;
    }
  }

  /** The closed form holds for every attempt exactly when Base and Max are at most
      (2^63 - 1) / 2. */
  lemma ClosedFormIff(c: Curve)
    requires Capped(c) && c.growth.Doubling?
    ensures (forall k: nat :: Delay(c, k) == CappedExponential(c, 2, k))
            <==> c.base <= HALF && c.max <= HALF
  {
    if c.base <= HALF && c.max <= HALF {
      forall k: nat ensures Delay(c, k) == CappedExponential(c, 2, k) {
        DoublingIsExact(c, k);
      }
    } else {
      var bad := DoublingWraps(c, 0);
      PowerPositive(2, bad);
      TimesAtLeast(c.base, Power(2, bad));
      assert Delay(c, bad) < 0 < CappedExponential(c, 2, bad);
    }
  }

  // ---- How far the closed form reaches -----------------------------------------------------

  /** The first `n` delays are computed without a doubling that wraps. */
  predicate FitsFor(c: Curve, n: nat) {
    n <= 1 || (c.base <= HALF && CappedExponential(c, 2, n - 2) <= HALF)
  }

  lemma CappedExponentialStep(c: Curve, m: int, k: nat)
    requires Capped(c) && m >= 1 && k > 0
    ensures CappedExponential(c, m, k) == Min(m * CappedExponential(c, m, k - 1), c.max)
  {
    TimesPower(c.base, m, k - 1);
    if k == 1 {
      assert Power(m, 0) == 1;
    } else {
      CapCommutes(m, c.base * Power(m, k - 1), c.max);
    }
  }

  lemma DoubledResidue(v: int)
    requires 0 < v <= MAX_INT64
    ensures if v <= HALF then Wrap64(2 * v) == 2 * v <= MAX_INT64 else Wrap64(2 * v) < 0 && 2 * v > MAX_INT64
  {
  }

  /** One doubling from an exact delay is exact up to half the range, and negative beyond. */
  lemma ExactStep(c: Curve, k: nat)
    requires Capped(c) && c.growth.Doubling?
    requires 0 < Delay(c, k) == CappedExponential(c, 2, k) <= MAX_INT64
    ensures 0 < CappedExponential(c, 2, k + 1) <= c.max
    ensures if Delay(c, k) <= HALF then Delay(c, k + 1) == CappedExponential(c, 2, k + 1) else Delay(c, k + 1) < 0
  {
    CappedExponentialStep(c, 2, k + 1);
    DoubledResidue(Delay(c, k));
  }

  ghost predicate ExactFor(c: Curve, n: nat) {
    forall k: nat :: k < n ==> 0 < Delay(c, k) == CappedExponential(c, 2, k) <= MAX_INT64
  }

  ghost predicate PositiveFor(c: Curve, n: nat) {
    forall k: nat :: k < n ==> Delay(c, k) > 0
  }

  lemma {:induction false} ExactWhileItFits(c: Curve, n: nat)
    requires Capped(c) && c.growth.Doubling?
    ensures if FitsFor(c, n) then ExactFor(c, n) else !PositiveFor(c, n)
    decreases n
  {
    if n == 1 {
      assert Delay(c, 0) == c.base;
    } else if n > 1 {
      ExactWhileItFits(c, n - 1);
      if FitsFor(c, n - 1) {
        assert 0 < Delay(c, n - 2) == CappedExponential(c, 2, n - 2) <= MAX_INT64;
        ExactStep(c, n - 2);
      } else {
        assert n > 2;
        if n > 3 {
          CappedExponentialStep(c, 2, n - 2);
          assert CappedExponential(c, 2, n - 3) > HALF || c.base > HALF;
          StaysBeyond(c, n - 3);
        }
        assert !FitsFor(c, n);
        PositiveForLess(c, n);
      }
    }
  }

  lemma PositiveForLess(c: Curve, n: nat)
    requires n > 0 && !PositiveFor(c, n - 1)
    ensures !PositiveFor(c, n)
  {
    var k: nat :| k < n - 1 && Delay(c, k) <= 0;
  }

  /** The capped exponential does not come down again. */
  lemma StaysBeyond(c: Curve, k: nat)
    requires Capped(c) && k > 0
    ensures CappedExponential(c, 2, k) <= CappedExponential(c, 2, k + 1)
  {
    CappedExponentialStep(c, 2, k + 1);
    PowerPositive(2, k);
    TimesAtLeast(c.base, Power(2, k));
  }

  /** For the `n` delays that a policy uses: they follow the closed form, and they are positive,
      exactly when Base, if it is doubled, and the start of the last doubling among them are at
      most (2^63 - 1) / 2. */
  lemma ClosedFormForIff(c: Curve, n: nat)
    requires Capped(c) && c.growth.Doubling?
    ensures (forall k: nat :: k < n ==> Delay(c, k) == CappedExponential(c, 2, k)) <==> FitsFor(c, n)
    ensures PositiveFor(c, n) <==> FitsFor(c, n)
  {
    ExactWhileItFits(c, n);
    if FitsFor(c, n) {
      assert forall k: nat :: k < n ==> Delay(c, k) == CappedExponential(c, 2, k) && Delay(c, k) > 0;
    } else {
      var k: nat :| k < n && Delay(c, k) <= 0;
      PowerPositive(2, k);
      TimesAtLeast(c.base, Power(2, k));
      assert Delay(c, k) <= 0 < CappedExponential(c, 2, k);
    }
  }

  // ---- When the backoff is capped, and when it is positive ---------------------------------

  /** The waits stay at or below Max, whatever the growth, exactly when Base does. */
  lemma UnderMaxIff(c: Curve)
    requires c.max > 0
    ensures (forall k: nat :: Delay(c, k) <= c.max) <==> c.base <= c.max
  {
    assert Delay(c, 0) == c.base;
    if c.base <= c.max {
      forall k: nat ensures Delay(c, k) <= c.max {
      }
    }
  }

  /** Doubling keeps every delay positive, for ever, exactly when both settings are positive and
      at most (2^63 - 1) / 2. */
  lemma PositiveForeverIff(c: Curve)
    requires IsInt64(c.base) && IsInt64(c.max) && c.growth.Doubling?
    ensures (forall k: nat :: Delay(c, k) > 0) <==> 0 < c.base <= HALF && 0 < c.max <= HALF
  {
    if 0 < c.base <= HALF && 0 < c.max <= HALF {
      forall k: nat ensures Delay(c, k) > 0 {
        DoublingIsExact(c, k);
      }
    } else if c.base <= 0 {
      assert Delay(c, 0) <= 0;
    } else if c.max <= 0 {
      UncappedDelay(c, 64);
      assert Delay(c, 64) <= 0;
    } else {
      var bad := DoublingWraps(c, 0);
      assert Delay(c, bad) <= 0;
    }
  }

  /** With no cap the first `n` delays are positive exactly when Base is and the last of them
      has not outgrown int64. */
  lemma {:induction false} UncappedPositiveIff(c: Curve, n: nat)
    requires IsInt64(c.base) && c.max <= 0 && c.growth.Doubling? && n >= 1
    ensures PositiveFor(c, n) <==> 0 < c.base && c.base * Power(2, n - 1) <= MAX_INT64
    decreases n
  {
    if n == 1 {
      assert Delay(c, 0) == c.base && Power(2, 0) == 1;
    } else {
      UncappedPositiveIff(c, n - 1);
      TimesPower(c.base, 2, n - 2);
      UncappedResidue(c, n - 2);
      UncappedResidue(c, n - 1);
      PowerPositive(2, n - 2);
      var v := c.base * Power(2, n - 2);
      if 0 < c.base {
        TimesAtLeast(c.base, Power(2, n - 2));
        if v <= MAX_INT64 {
          DoubledResidue(v);
          assert PositiveFor(c, n) <==> PositiveFor(c, n - 1) && Delay(c, n - 1) > 0;
        } else {
          PositiveForLess(c, n);
        }
      } else {
        PositiveForLess(c, n);
      }
    }
  }

  // ---- The total wait ----------------------------------------------------------------------

  function TotalDelay(c: Curve, n: nat): int {
    if n == 0 then 0 else TotalDelay(c, n - 1) + Delay(c, n - 1)
  }

  /** The waits between `attempts` attempts add up to at most Base + (attempts - 2) * Max. */
  lemma {:induction false} TotalDelayBounded(c: Curve, attempts: nat)
    requires Capped(c) && c.growth.Doubling? && c.base <= HALF && c.max <= HALF && attempts >= 2
    ensures c.base <= TotalDelay(c, attempts - 1) <= c.base + (attempts - 2) * c.max
  {
    if attempts == 2 {
      assert TotalDelay(c, 1) == TotalDelay(c, 0) + c.base;
    } else {
      TotalDelayBounded(c, attempts - 1);
      DoublingIsExact(c, attempts - 2);
      assert (attempts - 2) * c.max == (attempts - 3) * c.max + c.max;
    }
  }

  // ---- Doubling with no cap ----------------------------------------------------------------

  lemma WrapOfDoubledWrap(x: int)
    ensures Wrap64(Wrap64(x) * 2) == Wrap64(x * 2)
  {
    var q := (x - MIN_INT64) / TWO_64;
    assert Wrap64(x) == x - q * TWO_64;
    WrapIgnoresMultiples(x * 2, -2 * q);
  }

  lemma WrapIgnoresMultiples(x: int, m: int)
    ensures Wrap64(x + m * TWO_64) == Wrap64(x)
  {
    var y := x - MIN_INT64;
    var q, r := y / TWO_64, y % TWO_64;
    assert y + m * TWO_64 == (q + m) * TWO_64 + r;
  }

  lemma TwoTo64()
    ensures Power(2, 64) == TWO_64
  {
    assert Power(2, 8) == 256;
    PowerSplit(2, 8, 8);
    PowerSplit(2, 16, 16);
    PowerSplit(2, 32, 32);
  }

  lemma UncappedStep(c: Curve, k: nat, v: int)
    requires c.max <= 0 && c.growth.Doubling? && Delay(c, k) == Wrap64(v)
    ensures Delay(c, k + 1) == Wrap64(2 * v)
  {
    WrapOfDoubledWrap(v);
    assert v * 2 == 2 * v;
  }

  lemma {:induction false} UncappedResidue(c: Curve, k: nat)
    requires IsInt64(c.base) && c.max <= 0 && c.growth.Doubling?
    ensures Delay(c, k) == Wrap64(c.base * Power(2, k))
    decreases k
  {
    if k > 0 {
      UncappedResidue(c, k - 1);
      TimesPower(c.base, 2, k - 1);
      UncappedStep(c, k - 1, c.base * Power(2, k - 1));
    }
  }

  lemma HighPowersVanish(base: int, k: nat)
    requires k >= 64
    ensures Wrap64(base * Power(2, k)) == 0
  {
    PowerSplit(2, k - 64, 64);
    TwoTo64();
    var p := Power(2, k - 64);
    TimesAssociate(base, p, TWO_64);
    WrapIgnoresMultiples(0, base * p);
  }

  lemma TimesAssociate(x: int, y: int, z: int)
    ensures x * (y * z) == x * y * z
  {
  }

  /** With no cap the k-th delay is the signed 64-bit residue of Base * 2^k: exact until that
      leaves int64, and 0, so that no sleep happens, from k = 64 on. */
  lemma UncappedDelay(c: Curve, k: nat)
    requires IsInt64(c.base) && c.max <= 0 && c.growth.Doubling?
    ensures Delay(c, k) == Wrap64(c.base * Power(2, k))
    ensures IsInt64(c.base * Power(2, k)) ==> Delay(c, k) == c.base * Power(2, k)
    ensures k >= 64 ==> Delay(c, k) == 0
  {
    UncappedResidue(c, k);
    if k >= 64 {
      HighPowersVanish(c.base, k);
    }
  }

  // ---- An integer Multiplier ---------------------------------------------------------------

  const EXACT_FLOAT: int := 0x20_0000_0000_0000 // 2^53

  /** float64(d) * m is exact while operands and product are at most 2^53. */
  ghost predicate MultipliesExactly(step: int -> int, m: int) {
    forall d :: 0 <= d <= EXACT_FLOAT && d * m <= EXACT_FLOAT ==> step(d) == d * m
  }

  lemma {:induction false} IntegerMultiplier(c: Curve, m: int, k: nat)
    requires Capped(c) && m >= 1 && c.growth.Scaled? && MultipliesExactly(c.growth.step, m)
    requires c.base * m <= EXACT_FLOAT && c.max * m <= EXACT_FLOAT
    ensures Delay(c, k) == CappedExponential(c, m, k)
    ensures 0 < Delay(c, k) <= Max(c.base, c.max)
  {
    if k > 0 {
      IntegerMultiplier(c, m, k - 1);
      IntegerStep(c, m, Delay(c, k - 1));
      CappedExponentialStep(c, m, k);
    }
  }

  lemma IntegerStep(c: Curve, m: int, d: int)
    requires Capped(c) && m >= 1 && c.growth.Scaled? && MultipliesExactly(c.growth.step, m)
    requires c.base * m <= EXACT_FLOAT && c.max * m <= EXACT_FLOAT
    requires 0 < d <= Max(c.base, c.max)
    ensures Grow(c, d) == m * d >= 1
  {
    TimesMonotone(d, Max(c.base, c.max), m);
    TimesAtLeast(d, m);
  }

  lemma UncappedScaledStep(c: Curve, m: int, k: nat, v: int)
    requires c.max <= 0 && c.growth.Scaled? && MultipliesExactly(c.growth.step, m) && Delay(c, k) == v
    requires 0 <= v <= EXACT_FLOAT && v * m <= EXACT_FLOAT
    ensures Delay(c, k + 1) == v * m
  {
  }

  /** With no cap an integer Multiplier m gives Base * m^k as long as that is within 2^53. */
  lemma {:induction false} UncappedMultiplier(c: Curve, m: int, k: nat)
    requires 0 < c.base && c.max <= 0 && m >= 1 && c.growth.Scaled? && MultipliesExactly(c.growth.step, m)
    requires c.base * Power(m, k) <= EXACT_FLOAT
    ensures Delay(c, k) == c.base * Power(m, k)
    decreases k
  {
    if k > 0 {
      var before := PowerBefore(c.base, m, k, EXACT_FLOAT);
      UncappedMultiplier(c, m, k - 1);
      UncappedScaledStep(c, m, k - 1, before);
    } else {
      assert Power(m, 0) == 1;
    }
  }

  lemma PowerBefore(x: int, m: int, k: nat, bound: int) returns (before: int)
    requires x >= 1 && m >= 1 && k > 0 && x * Power(m, k) <= bound
    ensures before == x * Power(m, k - 1) && 1 <= before <= bound && before * m == x * Power(m, k)
  {
    before := x * Power(m, k - 1);
    TimesPower(x, m, k - 1);
    PowerPositive(m, k - 1);
    TimesAtLeast(x, Power(m, k - 1));
    TimesAtLeast(before, m);
  }

  /** Multiplier 2 and the default Multiplier 0 produce the same delays. */
  lemma MultiplierTwoIsDefault(c: Curve, k: nat)
    requires Capped(c) && c.growth.Scaled? && MultipliesExactly(c.growth.step, 2)
    requires c.base * 2 <= EXACT_FLOAT && c.max * 2 <= EXACT_FLOAT
    ensures Delay(c, k) == Delay(c.(growth := Doubling), k)
  {
    IntegerMultiplier(c, 2, k);
    DoublingIsExact(c.(growth := Doubling), k);
  }
}
