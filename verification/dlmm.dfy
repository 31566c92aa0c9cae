/** DLMM fee arithmetic (`crates/core/src/amm/dlmm.rs`), its decimals exact. */
module Dlmm {
  import opened Prelude

  const U16_MAX := 0xFFFF
  const U32_MAX := 0xFFFF_FFFF
  const U128_MAX := 0xFFFF_FFFF_FFFF_FFFF_FFFF_FFFF_FFFF_FFFF

  const MAX_FEE_BPS := 1000.0
  const VARIABLE_FEE_SCALE := 100_000_000_000
  const VARIABLE_FEE_SATURATION_NUMERATOR := 100_000_000 * VARIABLE_FEE_SCALE

  /** The largest value `Decimal` holds: 96 bits. */
  const DECIMAL_MAX := 79_228_162_514_264_337_593_543_950_335

  function Pow10(n: nat): (r: nat)
    ensures r > 0
  {
    if n == 0 then 1 else 10 * Pow10(n - 1)
  }

  function Capped(fee: real): real {
    if fee < MAX_FEE_BPS then fee else MAX_FEE_BPS
  }

  /** The least quotient whose product is not below `a`. */
  function DivCeil(a: nat, b: nat): (r: nat)
    requires b > 0
    ensures a <= r * b < a + b
  {
    a / b + if a % b > 0 then 1 else 0
  }

  /** `base_factor × bin_step × 10^power / 10_000`, capped: the early exit changes nothing. */
  method BaseFeeBps(baseFactor: nat, binStep: nat, powerFactor: nat) returns (fee: real)
    requires baseFactor <= U16_MAX && binStep <= U16_MAX && powerFactor <= 0xFF
    ensures fee == Capped((baseFactor * binStep * Pow10(powerFactor)) as real / 10_000.0)
  {
    var product := baseFactor * binStep;
    assert product <= U32_MAX by {
      MulMonotone(baseFactor, binStep, U16_MAX, U16_MAX);
    }
    var value := product;
    var ceiling := 1000 * 10_000;
    for i := 0 to powerFactor
      invariant value == product * Pow10(i)
      invariant value <= U32_MAX || value <= 10 * ceiling
    {
      if value >= ceiling {
        PowGrows(product, i, powerFactor);
        return MAX_FEE_BPS;
      }
      assert product * Pow10(i + 1) == 10 * value by {
        assert Pow10(i + 1) == 10 * Pow10(i);
      }
      value := value * 10;
      assert value <= DECIMAL_MAX;
    }
    fee := value as real / 10_000.0;
    if fee >= MAX_FEE_BPS {
      fee := MAX_FEE_BPS;
    }
  }

  lemma {:induction false} PowGrows(a: nat, i: nat, j: nat)
    requires i <= j
    ensures a * Pow10(i) <= a * Pow10(j)
    decreases j - i
  {
    if i < j {
      PowGrows(a, i, j - 1);
      assert a * Pow10(j) == 10 * (a * Pow10(j - 1)) by {
        assert Pow10(j) == 10 * Pow10(j - 1);
      }
    }
  }

  /**
   `⌈(accumulator × step)² × control / 1e11⌉ / 1e5`, capped. At these widths neither checked product
   overflows, and the saturation cuts exactly where the cap would.
   */
  method MaxVariableFeeBps(control: nat, accumulator: nat, binStep: nat) returns (fee: real)
    requires control <= U32_MAX && accumulator <= U32_MAX && binStep <= U16_MAX
    ensures var numerator := accumulator * binStep * (accumulator * binStep) * control;
            fee == Capped(DivCeil(numerator, VARIABLE_FEE_SCALE) as real / 100_000.0)
  {
    var accumulated := accumulator * binStep;
    MulMonotone(accumulator, binStep, U32_MAX, U16_MAX);
    var squared := accumulated * accumulated;
    MulMonotone(accumulated, accumulated, U32_MAX * U16_MAX, U32_MAX * U16_MAX);
    assert squared <= U128_MAX;
    var numerator := squared * control;
    MulMonotone(squared, control, U32_MAX * U16_MAX * (U32_MAX * U16_MAX), U32_MAX);
    assert numerator <= U128_MAX;
    if numerator > VARIABLE_FEE_SATURATION_NUMERATOR {
      Saturates(numerator);
      return MAX_FEE_BPS;
    }
    var rate := DivCeil(numerator, VARIABLE_FEE_SCALE);
    RateFits(numerator);
    return rate as real / 100_000.0;
  }

  lemma Saturates(numerator: nat)
    requires numerator > VARIABLE_FEE_SATURATION_NUMERATOR
    ensures DivCeil(numerator, VARIABLE_FEE_SCALE) >= 100_000_000
  {
  }

  lemma RateFits(numerator: nat)
    requires numerator <= VARIABLE_FEE_SATURATION_NUMERATOR
    ensures DivCeil(numerator, VARIABLE_FEE_SCALE) <= 100_000_000
  {
  }
}
