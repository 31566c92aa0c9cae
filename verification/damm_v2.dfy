/**
 The DAMM v2 fee scheduler: the base fee of a pool as a function of time, in the
 chain's Q64.64 integer arithmetic (`crates/core/src/amm/damm_v2.rs`).
 */
module DammV2 {
  import opened Prelude

  /** 1.0 in Q64.64. */
  const ONE_Q64: nat := 0x1_0000_0000_0000_0000
  const U128_BOUND: nat := 0x1_0000_0000_0000_0000_0000_0000_0000_0000
  const U128_MAX: nat := U128_BOUND - 1
  const I32_MIN: int := -0x8000_0000
  const MAX_EXPONENTIAL: nat := 0x8_0000
  const MAX_BASIS_POINT: nat := 10_000
  const U16_MAX: nat := 0xFFFF

  type u64 = n: int | 0 <= n < 0x1_0000_0000_0000_0000
  type u128 = n: int | 0 <= n < 0x1_0000_0000_0000_0000_0000_0000_0000_0000
  type u16 = n: int | 0 <= n < 0x1_0000
  type i32 = n: int | -0x8000_0000 <= n < 0x8000_0000

  // ---------------------------------------------------------------------
  // One truncated multiplication
  // ---------------------------------------------------------------------

  function CheckedMul(a: u128, b: u128): Option<u128> {
    if a * b <= U128_MAX then Some(a * b) else None
  }

  /** `(a * b) >> 64`: the Q64.64 product, rounded down. */
  function MulShift(a: nat, b: nat): (r: nat)
    ensures r * ONE_Q64 <= a * b < (r + 1) * ONE_Q64
  {
    a * b / ONE_Q64
  }

  lemma MulShiftMonotone(a: nat, b: nat, c: nat, d: nat)
    requires a <= c && b <= d
    ensures MulShift(a, b) <= MulShift(c, d)
  {
    MulMonotone(a, b, c, d);
  }

  lemma MulShiftShrinks(a: nat, b: nat)
    requires b <= ONE_Q64
    ensures MulShift(a, b) <= a
  {
    MulMonotone(a, b, a, ONE_Q64);
  }

  lemma MulShiftOne(b: nat)
    ensures MulShift(ONE_Q64, b) == b
  {
  }

  // ---------------------------------------------------------------------
  // Exponentiation by squaring
  // ---------------------------------------------------------------------

  /**
   The bits of `n` consumed from the lowest: each set bit multiplies `result` by the current
   square, and the square is squared, every product truncated.
   */
  function Raise(result: nat, squared: nat, n: nat): nat
    decreases n
  {
    if n == 0 then result
    else Raise(if n % 2 == 1 then MulShift(result, squared) else result,
               MulShift(squared, squared), n / 2)
  }

  /** The truncated power of `base`, before the zero test and the inversion. */
  function TruncatedPower(base: nat, n: nat): nat {
    Raise(ONE_Q64, base, n)
  }

  /** The base the loop really squares: one at or past 1.0 is inverted first. */
  function LoopBase(base: u128): (r: nat)
    ensures r < ONE_Q64
  {
    if base >= ONE_Q64 then U128_MAX / base else base
  }

  function Magnitude(exp: int): nat {
    if exp < 0 then -exp else exp
  }

  /** What `pow` returns: it has no overflow case, which `ComputePow` shows the loop never meets. */
  function Pow(base: u128, exp: i32): Option<u128> {
    if exp == 0 then Some(ONE_Q64)
    else if Magnitude(exp) >= MAX_EXPONENTIAL then None
    else
      var power := TruncatedPower(LoopBase(base), Magnitude(exp));
      RaiseBounded(ONE_Q64, LoopBase(base), Magnitude(exp));
      if power == 0 then None
      else if (exp < 0) != (base >= ONE_Q64) then Some(U128_MAX / power)
      else Some(power)
  }

  lemma {:induction false} RaiseBounded(result: nat, squared: nat, n: nat)
    requires squared <= ONE_Q64
    ensures Raise(result, squared, n) <= result
    decreases n
  {
    if n > 0 {
      MulShiftShrinks(result, squared);
      MulShiftShrinks(squared, squared);
      RaiseBounded(if n % 2 == 1 then MulShift(result, squared) else result,
                   MulShift(squared, squared), n / 2);
    }
  }

  /** The two products of a round fit in 128 bits, and stay at most 1.0. */
  lemma RoundFits(result: u128, squared: u128)
    requires result <= ONE_Q64 && squared < ONE_Q64
    ensures CheckedMul(result, squared) == Some(result * squared)
    ensures CheckedMul(squared, squared) == Some(squared * squared)
    ensures MulShift(result, squared) <= result
    ensures MulShift(squared, squared) <= squared
  {
    MulMonotone(result, squared, ONE_Q64, ONE_Q64 - 1);
    MulMonotone(squared, squared, ONE_Q64 - 1, ONE_Q64 - 1);
    MulShiftShrinks(result, squared);
    MulShiftShrinks(squared, squared);
  }

  /** `exp & bit > 0`, for `bit` a power of two. */
  predicate IsSet(exp: nat, bit: nat)
    requires bit > 0
  {
    (exp / bit) % 2 == 1
  }

  lemma HalveTwice(exp: nat, bit: nat)
    requires bit > 0
    ensures exp / (2 * bit) == (exp / bit) / 2
  {
    var q, r := exp / bit, exp % bit;
    var h, l := q / 2, q % 2;
    assert exp == q * bit + r;
    assert q == 2 * h + l;
    calc {
      exp;
      (2 * h + l) * bit + r;
      h * (2 * bit) + (l * bit + r);
    }
    assert 0 <= l * bit + r < 2 * bit;
    QuotientUnique(exp, 2 * bit, h, l * bit + r);
  }

  lemma QuotientUnique(a: nat, d: nat, q: nat, r: nat)
    requires d > 0 && a == q * d + r && r < d
    ensures a / d == q
  {
    var q', r' := a / d, a % d;
    assert a == q' * d + r';
    if q' < q {
      MulMonotone(q' + 1, d, q, d);
    } else if q < q' {
      MulMonotone(q + 1, d, q', d);
    }
  }

  /** The loop of `pow`, over `squared_base`, `result` and `bit`, every multiplication checked. */
  method ComputePow(base: u128, exp: i32) returns (r: Option<u128>)
    ensures r == Pow(base, exp)
  {
    if exp == I32_MIN {
      return None;
    }
    if exp == 0 {
      return Some(ONE_Q64);
    }
    var invert := exp < 0;
    var magnitude: nat := Magnitude(exp);
    if magnitude >= MAX_EXPONENTIAL {
      return None;
    }

    var squaredBase: u128 := base;
    var result: u128 := ONE_Q64;
    if squaredBase >= result {
      squaredBase := U128_MAX / squaredBase;
      invert := !invert;
    }
    assert squaredBase == LoopBase(base);

    var bit: nat := 1;
    ghost var rest := magnitude;
    while true
      invariant 0 < bit < MAX_EXPONENTIAL && rest == magnitude / bit
      invariant result <= ONE_Q64 && squaredBase < ONE_Q64
      invariant Raise(result, squaredBase, rest) == TruncatedPower(LoopBase(base), magnitude)
      decreases MAX_EXPONENTIAL - bit
    {
      RoundFits(result, squaredBase);
      if IsSet(magnitude, bit) {
        var product := CheckedMul(result, squaredBase);
        if product.None? {
          return None;
        }
        result := product.value / ONE_Q64;
      }
      HalveTwice(magnitude, bit);
      bit, rest := 2 * bit, rest / 2;
      if bit >= MAX_EXPONENTIAL {
        QuotientUnique(magnitude, bit, 0, magnitude);
        break;
      }
      var square := CheckedMul(squaredBase, squaredBase);
      if square.None? {
        return None;
      }
      squaredBase := square.value / ONE_Q64;
    }
    if result == 0 {
      return None;
    }
    if invert {
      result := U128_MAX / result;
    }
    return Some(result);
  }

  // ---------------------------------------------------------------------
  // Exact monotonicity, in spite of truncation
  // ---------------------------------------------------------------------

  lemma {:induction false} RaiseMonotone(r1: nat, s1: nat, r2: nat, s2: nat, n: nat)
    requires r1 <= r2 && s1 <= s2
    ensures Raise(r1, s1, n) <= Raise(r2, s2, n)
    decreases n
  {
    if n > 0 {
      MulShiftMonotone(r1, s1, r2, s2);
      MulShiftMonotone(s1, s1, s2, s2);
      RaiseMonotone(if n % 2 == 1 then MulShift(r1, s1) else r1, MulShift(s1, s1),
                    if n % 2 == 1 then MulShift(r2, s2) else r2, MulShift(s2, s2), n / 2);
    }
  }

  /**
   The carry of an incremented exponent: the low ones of `n`, multiplied in one by one into
   `partial`, are worth no less than the one square that replaces them in `n + 1`.
   */
  lemma {:induction false} Carry(partial: nat, square: nat, n: nat)
    requires square <= ONE_Q64 && square <= partial
    ensures Raise(ONE_Q64, square, n + 1) <= Raise(partial, square, n)
    decreases n
  {
    var next := MulShift(square, square);
    MulShiftShrinks(square, square);
    MulShiftOne(square);
    if n % 2 == 0 {
      assert (n + 1) / 2 == n / 2;
      assert n == 0 ==> Raise(square, next, 0) == square;
      RaiseMonotone(square, next, partial, next, n / 2);
    } else {
      assert (n + 1) / 2 == n / 2 + 1;
      MulShiftMonotone(square, square, partial, square);
      Carry(MulShift(partial, square), next, n / 2);
    }
  }

  lemma PowerStep(base: nat, n: nat)
    requires base <= ONE_Q64
    ensures TruncatedPower(base, n + 1) <= TruncatedPower(base, n)
  {
    Carry(ONE_Q64, base, n);
  }

  lemma {:induction false} PowerDecreasesInExponent(base: nat, m: nat, n: nat)
    requires base <= ONE_Q64 && m <= n
    ensures TruncatedPower(base, n) <= TruncatedPower(base, m)
    decreases n - m
  {
    if m < n {
      PowerDecreasesInExponent(base, m + 1, n);
      PowerStep(base, m);
    }
  }

  /** A value that never rises: absent, or present and no more. Once absent, it stays absent. */
  predicate NotAbove(later: Option<int>, earlier: Option<int>) {
    later.Some? ==> earlier.Some? && later.value <= earlier.value
  }

  /** `pow` of a base below 1.0 never rises with its exponent, nor falls with its base. */
  lemma PowMonotone(b1: u128, b2: u128, m: i32, n: i32)
    requires b1 <= b2 < ONE_Q64 && 0 <= m <= n
    ensures NotAbove(Pow(b1, n), Pow(b1, m))
    ensures NotAbove(Pow(b1, n), Pow(b2, n))
  {
    PowerDecreasesInExponent(b1, m, n);
    RaiseMonotone(ONE_Q64, b1, ONE_Q64, b2, n);
    assert m == 0 ==> TruncatedPower(b1, 0) == ONE_Q64;
    RaiseBounded(ONE_Q64, b1, n);
  }

  // ---------------------------------------------------------------------
  // Distance to the exact power
  // ---------------------------------------------------------------------

  function Power(b: nat, n: nat): nat {
    if n == 0 then 1 else b * Power(b, n - 1)
  }

  lemma {:induction false} PowerAdd(b: nat, m: nat, n: nat)
    ensures Power(b, m + n) == Power(b, m) * Power(b, n)
  {
    if m > 0 {
      PowerAdd(b, m - 1, n);
      assert Power(b, m + n) == b * Power(b, m - 1 + n);
      MulAssociates(b, Power(b, m - 1), Power(b, n));
    }
  }

  lemma MulAssociates(a: nat, b: nat, c: nat)
    ensures a * (b * c) == (a * b) * c
  {
  }

  lemma {:induction false} PowerBounded(b: nat, q: nat, n: nat)
    requires b <= q && q > 0
    ensures Power(b, n) <= Power(q, n)
    ensures Power(q, n) > 0
  {
    if n > 0 {
      PowerBounded(b, q, n - 1);
      MulMonotone(b, Power(b, n - 1), q, Power(q, n - 1));
      MulMonotone(1, 1, q, Power(q, n - 1));
    }
  }

  /** `v` is the exact `(base / 2^64)^n`, in units of 2^-64, less at most `e` units. */
  ghost predicate Within(base: nat, v: nat, n: nat, e: nat) {
    v * Power(ONE_Q64, n) <= Power(base, n) * ONE_Q64 <= (v + e) * Power(ONE_Q64, n)
  }

  /** One truncated product: the errors of its factors add up, and it loses one unit more. */
  lemma ProductError(q: nat, r: nat, v1: nat, p1: nat, x1: nat, e1: nat, v2: nat, p2: nat, x2: nat, e2: nat)
    requires q > 0 && p1 > 0 && p2 > 0
    requires r * q <= v1 * v2 < (r + 1) * q
    requires x1 <= p1 && v2 <= q
    requires v1 * p1 <= x1 * q <= (v1 + e1) * p1
    requires v2 * p2 <= x2 * q <= (v2 + e2) * p2
    ensures r * (p1 * p2) <= (x1 * x2) * q <= (r + (e1 + e2 + 1)) * (p1 * p2)
  {
    ProductErrorBelow(q, r, v1, p1, x1, v2, p2, x2);
    ProductErrorAbove(q, r, v1, p1, x1, e1, v2, p2, x2, e2);
  }

  lemma Shuffle(a: nat, b: nat, c: nat, d: nat)
    ensures (a * b) * (c * d) == (a * c) * (b * d)
  {
    assert (a * b) * (c * d) == a * (b * (c * d));
    assert b * (c * d) == c * (b * d);
    assert a * (c * (b * d)) == (a * c) * (b * d);
  }

  lemma ProductErrorBelow(q: nat, r: nat, v1: nat, p1: nat, x1: nat, v2: nat, p2: nat, x2: nat)
    requires q > 0 && r * q <= v1 * v2 && v1 * p1 <= x1 * q && v2 * p2 <= x2 * q
    ensures r * (p1 * p2) <= (x1 * x2) * q
  {
    var p := p1 * p2;
    MulMonotone(r * q, p, v1 * v2, p);
    Shuffle(v1, v2, p1, p2);
    MulMonotone(v1 * p1, v2 * p2, x1 * q, x2 * q);
    Shuffle(x1, q, x2, q);
    assert (r * p) * q == (r * q) * p;
    assert (x1 * x2) * (q * q) == ((x1 * x2) * q) * q;
    CancelFactor(r * p, (x1 * x2) * q, q);
  }

  lemma ProductErrorAbove(q: nat, r: nat, v1: nat, p1: nat, x1: nat, e1: nat, v2: nat, p2: nat, x2: nat, e2: nat)
    requires q > 0 && v1 * v2 <= (r + 1) * q && x1 <= p1 && v2 <= q
    requires x1 * q <= (v1 + e1) * p1 && x2 * q <= (v2 + e2) * p2
    ensures (x1 * x2) * q <= (r + (e1 + e2 + 1)) * (p1 * p2)
  {
    var p := p1 * p2;
    FirstFactorError(q, r, v1, p1, x1, e1, v2, p2);
    SecondFactorError(q, p1, x1, p2, e2);
    AddScaled(r + 1 + e1, e2, q, p);
    MulMonotone(x1 * q, x2 * q, x1 * q, (v2 + e2) * p2);
    Distribute(x1 * q, v2, e2, p2);
    SquareOut(x1, x2, q);
    CancelFactor((x1 * x2) * q, ((r + 1 + e1) + e2) * p, q);
  }

  lemma SquareOut(x1: nat, x2: nat, q: nat)
    ensures (x1 * q) * (x2 * q) == ((x1 * x2) * q) * q
  {
    Shuffle(x1, q, x2, q);
    assert (x1 * x2) * (q * q) == ((x1 * x2) * q) * q;
  }

  /** The first factor's error, at the second's rounded value. */
  lemma FirstFactorError(q: nat, r: nat, v1: nat, p1: nat, x1: nat, e1: nat, v2: nat, p2: nat)
    requires v1 * v2 <= (r + 1) * q && v2 <= q && x1 * q <= (v1 + e1) * p1
    ensures (x1 * q) * (v2 * p2) <= ((r + 1 + e1) * q) * (p1 * p2)
  {
    var product := (v1 + e1) * v2;
    assert product <= (r + 1 + e1) * q by {
      MulMonotone(e1, v2, e1, q);
      assert product == v1 * v2 + e1 * v2;
      assert (r + 1 + e1) * q == (r + 1) * q + e1 * q;
    }
    MulMonotone(x1 * q, v2 * p2, (v1 + e1) * p1, v2 * p2);
    Shuffle(v1 + e1, p1, v2, p2);
    MulMonotone(product, p1 * p2, (r + 1 + e1) * q, p1 * p2);
  }

  /** The second factor's error, at the first's exact value, at most 1. */
  lemma SecondFactorError(q: nat, p1: nat, x1: nat, p2: nat, e2: nat)
    requires x1 <= p1
    ensures (x1 * q) * (e2 * p2) <= (e2 * q) * (p1 * p2)
  {
    MulMonotone(x1, q, p1, q);
    MulMonotone(x1 * q, e2 * p2, p1 * q, e2 * p2);
    Shuffle(q, p1, e2, p2);
  }

  lemma AddScaled(a: nat, b: nat, q: nat, p: nat)
    ensures (a * q) * p + (b * q) * p == ((a + b) * p) * q
  {
    assert (a * q) * p == (a * p) * q;
    assert (b * q) * p == (b * p) * q;
    assert (a + b) * p == a * p + b * p;
  }

  lemma Distribute(a: nat, b: nat, c: nat, p: nat)
    ensures a * ((b + c) * p) == a * (b * p) + a * (c * p)
  {
    assert (b + c) * p == b * p + c * p;
  }

  lemma CancelFactor(a: nat, b: nat, q: nat)
    requires q > 0 && a * q <= b * q
    ensures a <= b
  {
    if b < a {
      MulMonotone(b + 1, q, a, q);
    }
  }

  lemma WithinProduct(base: nat, v1: nat, n1: nat, e1: nat, v2: nat, n2: nat, e2: nat)
    requires base < ONE_Q64 && v2 <= ONE_Q64
    requires Within(base, v1, n1, e1) && Within(base, v2, n2, e2)
    ensures Within(base, MulShift(v1, v2), n1 + n2, e1 + e2 + 1)
  {
    PowerBounded(base, ONE_Q64, n1);
    PowerBounded(base, ONE_Q64, n2);
    PowerAdd(base, n1, n2);
    PowerAdd(ONE_Q64, n1, n2);
    ProductError(ONE_Q64, MulShift(v1, v2), v1, Power(ONE_Q64, n1), Power(base, n1), e1,
                 v2, Power(ONE_Q64, n2), Power(base, n2), e2);
  }

  lemma OddSplit(n: nat, m: nat, c: nat)
    requires n == 2 * m + 1
    ensures c + m * (c + c) == n * c
  {
  }

  lemma EvenSplit(n: nat, m: nat, c: nat)
    requires n == 2 * m
    ensures m * (c + c) == n * c
  {
  }

  /** The rest of a raise, from a partial result at exponent `a` and a square at exponent `c`. */
  lemma {:induction false} RaiseError(base: nat, r: nat, a: nat, er: nat, s: nat, c: nat, es: nat, n: nat)
    requires base < ONE_Q64 && s <= ONE_Q64
    requires Within(base, r, a, er) && Within(base, s, c, es)
    ensures Within(base, Raise(r, s, n), a + n * c, er + n * (es + 1))
    decreases n
  {
    if n > 0 {
      var m := n / 2;
      WithinProduct(base, s, c, es, s, c, es);
      MulShiftShrinks(s, s);
      if n % 2 == 1 {
        WithinProduct(base, r, a, er, s, c, es);
        RaiseError(base, MulShift(r, s), a + c, er + es + 1, MulShift(s, s), c + c, es + es + 1, m);
        OddSplit(n, m, c);
        OddSplit(n, m, es + 1);
      } else {
        RaiseError(base, r, a, er, MulShift(s, s), c + c, es + es + 1, m);
        EvenSplit(n, m, c);
        EvenSplit(n, m, es + 1);
      }
    }
  }

  /** The same from 1.0: the first factor is taken exactly, which saves one unit. */
  lemma {:induction false} RaiseErrorFromOne(base: nat, s: nat, c: nat, es: nat, n: nat)
    requires base < ONE_Q64 && s <= ONE_Q64 && n > 0
    requires Within(base, s, c, es)
    ensures n * (es + 1) >= 1 && Within(base, Raise(ONE_Q64, s, n), n * c, n * (es + 1) - 1)
    decreases n
  {
    var m := n / 2;
    WithinProduct(base, s, c, es, s, c, es);
    MulShiftShrinks(s, s);
    MulMonotone(1, 1, n, es + 1);
    if n % 2 == 1 {
      MulShiftOne(s);
      RaiseError(base, s, c, es, MulShift(s, s), c + c, es + es + 1, m);
      OddSplit(n, m, c);
      OddSplit(n, m, es + 1);
    } else {
      RaiseErrorFromOne(base, MulShift(s, s), c + c, es + es + 1, m);
      EvenSplit(n, m, c);
      EvenSplit(n, m, es + 1);
    }
  }

  /**
   The truncated power never exceeds the exact one and errs by less than `n` units: by at most
   `n - 1`, each of the products but the first losing one.
   */
  lemma PowerError(base: nat, n: nat)
    requires base < ONE_Q64 && n > 0
    ensures TruncatedPower(base, n) * Power(ONE_Q64, n - 1) <= Power(base, n)
    ensures Power(base, n) <= (TruncatedPower(base, n) + n - 1) * Power(ONE_Q64, n - 1)
  {
    var q := Power(ONE_Q64, n - 1);
    assert Power(ONE_Q64, n) == ONE_Q64 * q;
    assert Power(base, 1) == base * Power(base, 0) == base;
    assert Power(ONE_Q64, 1) == ONE_Q64 * Power(ONE_Q64, 0) == ONE_Q64;
    RaiseErrorFromOne(base, base, 1, 0, n);
    hide Power, TruncatedPower;
    Unscale(ONE_Q64, q, TruncatedPower(base, n), n, Power(base, n));
  }

  /** A factor common to a bound's sides, cancelled. */
  lemma Unscale(w: nat, q: nat, r: nat, n: nat, x: nat)
    requires w > 0 && n > 0 && r * (w * q) <= x * w <= (r + n - 1) * (w * q)
    ensures r * q <= x <= (r + n - 1) * q
  {
    MulRotates(r, w, q);
    MulRotates(r + n - 1, w, q);
    CancelFactor(r * q, x, w);
    CancelFactor(x, (r + n - 1) * q, w);
  }

  lemma MulRotates(a: nat, w: nat, q: nat)
    ensures a * (w * q) == (a * q) * w
  {
  }

  // ---------------------------------------------------------------------
  // The scheduler
  // ---------------------------------------------------------------------

  datatype BaseFeeKind =
    | Constant
    | SchedulerLinear
    | SchedulerExponential
    | RateLimiter
    | MarketCapSchedulerLinear
    | MarketCapSchedulerExponential

  datatype FeeSchedulerParams = FeeSchedulerParams(
    cliffFeeNumerator: u64,
    numberOfPeriod: u16,
    periodFrequency: u64,
    reductionFactor: u64,
    activationPoint: u64,
    kind: BaseFeeKind
  ) {
    function ExpiryPoint(): Option<u64> {
      var span := numberOfPeriod * periodFrequency;
      if span >= ONE_Q64 || activationPoint + span >= ONE_Q64 then None
      else MulNonNegative(numberOfPeriod, periodFrequency); Some(activationPoint + span)
    }

    predicate IsExpiredAt(point: u64) {
      ExpiryPoint().Some? && point > ExpiryPoint().value
    }

    /** `u16::try_from(elapsed).unwrap_or(u16::MAX).min(number_of_period)`. */
    function ElapsedPeriods(point: u64): u16 {
      if periodFrequency == 0 then 0
      else if point < activationPoint then numberOfPeriod
      else
        var elapsed := (point - activationPoint) / periodFrequency;
        Min(if elapsed <= U16_MAX then elapsed else U16_MAX, numberOfPeriod)
    }
  }

  lemma MulNonNegative(a: nat, b: nat)
    ensures 0 <= a * b
  {
  }

  function CheckedSub(a: u64, b: u64): Option<u64> {
    if b <= a then Some(a - b) else None
  }

  /** 1.0 less the reduction, in Q64.64; absent past 10_000 basis points. */
  function DecayBase(reductionFactor: u64): (r: Option<u128>)
    ensures reductionFactor > 0 && r.Some? ==> r.value < ONE_Q64
  {
    var bps := reductionFactor * ONE_Q64 / MAX_BASIS_POINT;
    if bps > ONE_Q64 then None else Some(ONE_Q64 - bps)
  }

  function FeeInPeriod(cliff: u64, reductionFactor: u64, period: u16): Option<u64> {
    if reductionFactor == 0 then Some(cliff)
    else
      match DecayBase(reductionFactor)
      case None => None
      case Some(base) =>
        match Pow(base, period)
        case None => None
        case Some(result) =>
          match CheckedMul(result, cliff)
          case None => None
          case Some(product) =>
            if product / ONE_Q64 < ONE_Q64 then Some(product / ONE_Q64) else None
  }

  /** The linear fee: the drop and the difference checked in 64 bits. */
  function LinearFee(cliff: u64, reductionFactor: u64, period: u16): Option<u64> {
    var drop := period * reductionFactor;
    MulNonNegative(period, reductionFactor);
    if drop >= ONE_Q64 then None else CheckedSub(cliff, drop)
  }

  /** The overflow check changes nothing: the fee is the exact line, absent exactly below zero. */
  lemma LinearFeeIsTheLine(cliff: u64, reductionFactor: u64, period: u16)
    ensures var line := cliff - period * reductionFactor;
            LinearFee(cliff, reductionFactor, period) == if line >= 0 then Some(line) else None
  {
    MulNonNegative(period, reductionFactor);
  }

  function BaseFeeNumeratorAt(params: FeeSchedulerParams, point: u64): Option<u64> {
    if params.periodFrequency == 0 then Some(params.cliffFeeNumerator)
    else
      var period := params.ElapsedPeriods(point);
      match params.kind
      case SchedulerLinear => LinearFee(params.cliffFeeNumerator, params.reductionFactor, period)
      case SchedulerExponential => FeeInPeriod(params.cliffFeeNumerator, params.reductionFactor, period)
      case _ => None
  }

  /** The quotient the clamped counter stands for, over unbounded integers. */
  lemma ElapsedPeriodsExact(params: FeeSchedulerParams, point: u64)
    requires params.periodFrequency > 0 && point >= params.activationPoint
    ensures params.ElapsedPeriods(point)
         == Min((point - params.activationPoint) / params.periodFrequency, params.numberOfPeriod)
    ensures params.ExpiryPoint().Some? && point >= params.ExpiryPoint().value
        ==> params.ElapsedPeriods(point) == params.numberOfPeriod
    ensures params.IsExpiredAt(point) ==> params.ElapsedPeriods(point) == params.numberOfPeriod
  {
    if params.ExpiryPoint().Some? && point >= params.ExpiryPoint().value {
      QuotientAtLeast(point - params.activationPoint, params.periodFrequency, params.numberOfPeriod);
    }
  }

  lemma QuotientAtLeast(a: nat, d: nat, q: nat)
    requires d > 0 && q * d <= a
    ensures a / d >= q
  {
    var s := a / d;
    assert a < (s + 1) * d;
    if s < q {
      MulMonotone(s + 1, d, q, d);
    }
  }

  lemma QuotientMonotone(a: nat, b: nat, d: nat)
    requires d > 0 && a <= b
    ensures a / d <= b / d
  {
    assert (a / d) * d <= a;
    QuotientAtLeast(b, d, a / d);
  }

  /** The exponential fee when the base exists: no multiplication overflows, nor does the fee. */
  lemma FeeInPeriodDefined(cliff: u64, reductionFactor: u64, period: u16)
    requires 0 < reductionFactor && DecayBase(reductionFactor).Some?
    ensures var power := TruncatedPower(DecayBase(reductionFactor).value, period);
            && power <= ONE_Q64
            && FeeInPeriod(cliff, reductionFactor, period)
               == (if power == 0 then None else Some(MulShift(power, cliff)))
            && MulShift(power, cliff) <= cliff
  {
    var base := DecayBase(reductionFactor).value;
    var power := TruncatedPower(base, period);
    RaiseBounded(ONE_Q64, base, period);
    MulMonotone(power, cliff, ONE_Q64, cliff);
  }

  lemma FeeInPeriodMonotone(cliff: u64, reductionFactor: u64, m: u16, n: u16)
    requires m <= n
    ensures NotAbove(FeeInPeriod(cliff, reductionFactor, n), FeeInPeriod(cliff, reductionFactor, m))
  {
    if reductionFactor > 0 && DecayBase(reductionFactor).Some? {
      var base := DecayBase(reductionFactor).value;
      FeeInPeriodDefined(cliff, reductionFactor, m);
      FeeInPeriodDefined(cliff, reductionFactor, n);
      PowerDecreasesInExponent(base, m, n);
      MulShiftMonotone(TruncatedPower(base, n), cliff, TruncatedPower(base, m), cliff);
    }
  }

  /** From activation on, the fee in force never rises, and once undefined stays undefined. */
  lemma FeeNeverRises(params: FeeSchedulerParams, earlier: u64, later: u64)
    requires params.activationPoint <= earlier <= later
    ensures NotAbove(BaseFeeNumeratorAt(params, later), BaseFeeNumeratorAt(params, earlier))
  {
    if params.periodFrequency > 0 {
      ElapsedPeriodsExact(params, earlier);
      ElapsedPeriodsExact(params, later);
      QuotientMonotone(earlier - params.activationPoint, later - params.activationPoint, params.periodFrequency);
      var m, n := params.ElapsedPeriods(earlier), params.ElapsedPeriods(later);
      MulMonotone(m, params.reductionFactor, n, params.reductionFactor);
      FeeInPeriodMonotone(params.cliffFeeNumerator, params.reductionFactor, m, n);
    }
  }

  /** The cliff bounds the fee at every point, before activation included. */
  lemma FeeNeverAboveCliff(params: FeeSchedulerParams, point: u64)
    ensures NotAbove(BaseFeeNumeratorAt(params, point), Some(params.cliffFeeNumerator))
  {
    var period := params.ElapsedPeriods(point);
    MulNonNegative(period, params.reductionFactor);
    if params.reductionFactor > 0 && DecayBase(params.reductionFactor).Some? {
      FeeInPeriodDefined(params.cliffFeeNumerator, params.reductionFactor, period);
    }
  }

  /** Every point before activation, and every point at or past expiry, gives the curve's floor. */
  lemma FeeFloor(params: FeeSchedulerParams, before: u64, past: u64, other: u64)
    requires params.periodFrequency > 0 && before < params.activationPoint
    requires params.ExpiryPoint().Some? && params.ExpiryPoint().value <= past
    requires params.activationPoint <= other
    ensures BaseFeeNumeratorAt(params, before) == BaseFeeNumeratorAt(params, past)
    ensures NotAbove(BaseFeeNumeratorAt(params, past), BaseFeeNumeratorAt(params, other))
  {
    MulNonNegative(params.numberOfPeriod, params.periodFrequency);
    ElapsedPeriodsExact(params, past);
    if other <= past {
      FeeNeverRises(params, other, past);
    } else {
      ElapsedPeriodsExact(params, other);
    }
  }

  /**
   The exponential fee against the exact curve `cliff * (base / 2^64)^n`: never above it, and
   below it by less than `n` units of the numerator.
   */
  lemma ExponentialFeeError(cliff: u64, reductionFactor: u64, n: u16)
    requires n > 0 && reductionFactor > 0
    ensures FeeInPeriod(cliff, reductionFactor, n).Some? ==>
              var fee, base := FeeInPeriod(cliff, reductionFactor, n).value, DecayBase(reductionFactor).value;
              && fee * Power(ONE_Q64, n) <= cliff * Power(base, n)
              && cliff * Power(base, n) < (fee + n) * Power(ONE_Q64, n)
  {
    if FeeInPeriod(cliff, reductionFactor, n).Some? {
      var base := DecayBase(reductionFactor).value;
      var fee := FeeInPeriod(cliff, reductionFactor, n).value;
      FeeInPeriodDefined(cliff, reductionFactor, n);
      PowerError(base, n);
      PowerBounded(base, ONE_Q64, n - 1);
      ScaleError(ONE_Q64, cliff, fee, TruncatedPower(base, n), n, Power(ONE_Q64, n - 1), Power(base, n));
    }
  }

  /** The full steps of the curve at a point: all of them before activation, then one for each period elapsed. */
  function StepsAt(params: FeeSchedulerParams, point: u64): nat
    requires params.periodFrequency > 0
  {
    if point < params.activationPoint then params.numberOfPeriod
    else Min((point - params.activationPoint) / params.periodFrequency, params.numberOfPeriod)
  }

  /** The linear scheduler is the cliff less a reduction a step, absent exactly below zero. */
  lemma LinearSchedule(params: FeeSchedulerParams, point: u64)
    requires params.periodFrequency > 0 && params.kind == SchedulerLinear
    ensures var line := params.cliffFeeNumerator - StepsAt(params, point) * params.reductionFactor;
            BaseFeeNumeratorAt(params, point) == if line >= 0 then Some(line) else None
  {
    if point >= params.activationPoint {
      ElapsedPeriodsExact(params, point);
    }
    LinearFeeIsTheLine(params.cliffFeeNumerator, params.reductionFactor, params.ElapsedPeriods(point));
  }

  /**
   The exponential scheduler is the cliff times the base, 1.0 less the reduction in basis points, to the
   number of steps, never above and less than that many units below. It is absent exactly for a
   reduction past 1.0, and where the truncated power is down to zero.
   */
  lemma ExponentialSchedule(params: FeeSchedulerParams, point: u64)
    requires params.periodFrequency > 0 && params.kind == SchedulerExponential
    ensures var n, fee := StepsAt(params, point), BaseFeeNumeratorAt(params, point);
            var base := ONE_Q64 - params.reductionFactor * ONE_Q64 / 10_000;
            && (fee.None? <==> base < 0 || (params.reductionFactor > 0 && TruncatedPower(base, n) == 0))
            && (fee.Some? ==>
                  && fee.value * Power(ONE_Q64, n) <= params.cliffFeeNumerator * Power(base, n)
                  && (n == 0 ==> fee.value == params.cliffFeeNumerator)
                  && (n > 0 ==> params.cliffFeeNumerator * Power(base, n) < (fee.value + n) * Power(ONE_Q64, n)))
  {
    if point >= params.activationPoint {
      ElapsedPeriodsExact(params, point);
    }
    FeeInPeriodOnCurve(params.cliffFeeNumerator, params.reductionFactor, params.ElapsedPeriods(point));
  }

  lemma FeeInPeriodOnCurve(cliff: u64, reductionFactor: u64, n: u16)
    ensures var base, fee := ONE_Q64 - reductionFactor * ONE_Q64 / 10_000, FeeInPeriod(cliff, reductionFactor, n);
            && (fee.None? <==> base < 0 || (reductionFactor > 0 && TruncatedPower(base, n) == 0))
            && (fee.Some? ==>
                  && fee.value * Power(ONE_Q64, n) <= cliff * Power(base, n)
                  && (n == 0 ==> fee.value == cliff)
                  && (n > 0 ==> cliff * Power(base, n) < (fee.value + n) * Power(ONE_Q64, n)))
  {
    if reductionFactor == 0 {
      PowerBounded(ONE_Q64, ONE_Q64, n);
      CliffKept(cliff, n, Power(ONE_Q64, n));
    } else if DecayBase(reductionFactor).Some? {
      FeeInPeriodDefined(cliff, reductionFactor, n);
      if n == 0 {
        assert TruncatedPower(DecayBase(reductionFactor).value, 0) == ONE_Q64;
        MulShiftOne(cliff);
      } else {
        ExponentialFeeError(cliff, reductionFactor, n);
      }
    }
  }

  lemma CliffKept(cliff: nat, n: nat, p: nat)
    requires p > 0
    ensures n > 0 ==> cliff * p < (cliff + n) * p
  {
    if n > 0 {
      MulMonotone(1, 1, n, p);
      assert (cliff + n) * p == cliff * p + n * p;
    }
  }

  /** A frequency of zero stays at the cliff; no kind but the two time schedulers has a fee. */
  lemma OtherSchedules(params: FeeSchedulerParams, point: u64)
    ensures params.periodFrequency == 0 ==> BaseFeeNumeratorAt(params, point) == Some(params.cliffFeeNumerator)
    ensures params.periodFrequency > 0 && params.kind !in {SchedulerLinear, SchedulerExponential} ==>
              BaseFeeNumeratorAt(params, point) == None
  {
  }

  lemma ScaleError(q: nat, cliff: nat, fee: nat, r: nat, n: nat, p: nat, x: nat)
    requires q > cliff && n > 0 && p > 0
    requires fee * q <= r * cliff < (fee + 1) * q
    requires r * p <= x <= (r + n - 1) * p
    ensures fee * (q * p) <= cliff * x < (fee + n) * (q * p)
  {
    ScaleDown(q, cliff, fee, r, p, x);
    TotalBelow(q, cliff, fee, r, n);
    ScaleUp(q, cliff, r + n - 1, fee + n, p, x);
  }

  lemma ScaleDown(q: nat, cliff: nat, fee: nat, r: nat, p: nat, x: nat)
    requires fee * q <= r * cliff && r * p <= x
    ensures fee * (q * p) <= cliff * x
  {
    MulMonotone(fee * q, p, r * cliff, p);
    MulMonotone(cliff, r * p, cliff, x);
    assert (fee * q) * p == fee * (q * p);
    assert (r * cliff) * p == cliff * (r * p);
  }

  lemma TotalBelow(q: nat, cliff: nat, fee: nat, r: nat, n: nat)
    requires q > cliff && n > 0 && r * cliff < (fee + 1) * q
    ensures cliff * (r + n - 1) < (fee + n) * q
  {
    MulMonotone(cliff, n - 1, q, n - 1);
    assert cliff * (r + n - 1) == r * cliff + cliff * (n - 1);
    assert (fee + n) * q == (fee + 1) * q + q * (n - 1);
  }

  lemma ScaleUp(q: nat, a: nat, b: nat, c: nat, p: nat, x: nat)
    requires p > 0 && a * b < c * q && x <= b * p
    ensures a * x < c * (q * p)
  {
    MulMonotone(a, x, a, b * p);
    MulMonotone(a * b + 1, p, c * q, p);
    assert a * (b * p) == (a * b) * p;
    assert (a * b + 1) * p == (a * b) * p + p;
    assert (c * q) * p == c * (q * p);
  }
}
