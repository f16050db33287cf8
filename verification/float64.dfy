/** An IEEE 754 binary64 value as its three bit fields, and Rust's
    saturating cast `f as i64`, which the evaluator applies to a Float
    exponent of `^`. */
module Float64 {

  const I64_MIN: int := -0x8000_0000_0000_0000
  const I64_MAX: int := 0x7FFF_FFFF_FFFF_FFFF

  /** 2^52, the implicit leading bit of a normal significand. */
  const HIDDEN_BIT: nat := 0x10_0000_0000_0000
  /** The biased exponent 1023 + 52 at which the 53-bit significand is
      exactly the value's magnitude. */
  const INTEGRAL_EXPONENT: nat := 1075
  const EXPONENT_ALL_ONES: nat := 2047

  type Exponent = e: int | 0 <= e <= 2047
  type Fraction = m: int | 0 <= m < 0x10_0000_0000_0000

  /** Sign bit, 11-bit biased exponent, 52-bit fraction. */
  datatype F64 = F64(negative: bool, exponent: Exponent, fraction: Fraction) {
    predicate IsNaN() {
      exponent == EXPONENT_ALL_ONES && fraction != 0
    }

    predicate IsInfinite() {
      exponent == EXPONENT_ALL_ONES && fraction == 0
    }

    predicate IsFinite() {
      exponent < EXPONENT_ALL_ONES
    }
  }

  function Pow2(k: nat): (r: nat)
    ensures r >= 1
  {
    if k == 0 then 1 else 2 * Pow2(k - 1)
  }

  lemma {:induction false} Pow2Monotone(j: nat, k: nat)
    requires j <= k
    ensures Pow2(j) <= Pow2(k)
    decreases k
  {
    if j < k {
      Pow2Monotone(j, k - 1);
    }
  }

  lemma {:induction false} Pow2Add(j: nat, k: nat)
    ensures Pow2(j + k) == Pow2(j) * Pow2(k)
    decreases k
  {
    if k > 0 {
      Pow2Add(j, k - 1);
    }
  }

  lemma HiddenBitIsPow2()
    ensures Pow2(52) == HIDDEN_BIT
  {
    assert Pow2(13) == 0x2000;
    Pow2Add(13, 13);
    Pow2Add(26, 26);
  }

  /** Every subnormal value, and zero, has magnitude below 1. */
  lemma SubnormalBelowOne(f: F64)
    requires f.exponent == 0
    ensures f.fraction as real / Pow2(INTEGRAL_EXPONENT - 1) as real < 1.0
  {
    HiddenBitIsPow2();
    Pow2Monotone(52, INTEGRAL_EXPONENT - 1);
    var d := Pow2(INTEGRAL_EXPONENT - 1);
    assert f.fraction < d;
    assert (f.fraction as real) < d as real;
  }

  /** The magnitude of a finite value, rounded toward zero. Zeros and
      subnormals lie below 1 and round to 0. */
  function TruncatedMagnitude(f: F64): nat
    requires f.IsFinite()
  {
    if f.exponent == 0 then 0
    else
      var significand := HIDDEN_BIT + f.fraction;
      if f.exponent >= INTEGRAL_EXPONENT then significand * Pow2(f.exponent - INTEGRAL_EXPONENT)
      else significand / Pow2(INTEGRAL_EXPONENT - f.exponent)
  }

  /** Rust's `f as i64`: NaN becomes 0, infinities and out-of-range values
      saturate at the i64 bounds, everything else is truncated toward zero. */
  function ToI64(f: F64): (r: int)
    ensures I64_MIN <= r <= I64_MAX
    ensures f.IsNaN() ==> r == 0
    ensures f.IsInfinite() ==> r == if f.negative then I64_MIN else I64_MAX
    ensures f.negative ==> r <= 0
    ensures !f.negative ==> r >= 0
  {
    if f.IsNaN() then 0
    else if f.IsInfinite() then (if f.negative then I64_MIN else I64_MAX)
    else
      var t: int := TruncatedMagnitude(f);
      if f.negative then (if -t < I64_MIN then I64_MIN else -t)
      else (if t > I64_MAX then I64_MAX else t)
  }

  /** The real number a finite value denotes. */
  ghost function RealValue(f: F64): real
    requires f.IsFinite()
  {
    var magnitude :=
      if f.exponent == 0 then
        f.fraction as real / Pow2(INTEGRAL_EXPONENT - 1) as real
      else if f.exponent >= INTEGRAL_EXPONENT then
        ((HIDDEN_BIT + f.fraction) * Pow2(f.exponent - INTEGRAL_EXPONENT)) as real
      else
        (HIDDEN_BIT + f.fraction) as real / Pow2(INTEGRAL_EXPONENT - f.exponent) as real;
    if f.negative then -magnitude else magnitude
  }

  ghost function Abs(x: real): real {
    if x < 0.0 then -x else x
  }

  lemma DivisionFloor(s: nat, d: nat)
    requires d > 0
    ensures (s / d) as real <= s as real / d as real < (s / d) as real + 1.0
  {
    var q, m := s / d, s % d;
    assert s == q * d + m && 0 <= m < d;
    assert s as real == q as real * d as real + m as real;
    assert s as real / d as real == q as real + m as real / d as real;
  }

  /** The truncated magnitude is the integer part of the magnitude. */
  lemma TruncatedMagnitudeIsFloor(f: F64)
    requires f.IsFinite()
    ensures TruncatedMagnitude(f) as real <= Abs(RealValue(f)) < TruncatedMagnitude(f) as real + 1.0
  {
    if f.exponent == 0 {
      SubnormalBelowOne(f);
    } else if f.exponent < INTEGRAL_EXPONENT {
      DivisionFloor(HIDDEN_BIT + f.fraction, Pow2(INTEGRAL_EXPONENT - f.exponent));
    }
  }

  /** `f as i64` rounds toward zero when the value fits in an i64 and
      saturates at the nearer bound when it does not. */
  lemma ToI64TruncatesTowardZero(f: F64)
    requires f.IsFinite()
    ensures !f.negative && RealValue(f) < (I64_MAX + 1) as real ==>
              ToI64(f) as real <= RealValue(f) < ToI64(f) as real + 1.0
    ensures !f.negative && RealValue(f) >= (I64_MAX + 1) as real ==> ToI64(f) == I64_MAX
    ensures f.negative && RealValue(f) > (I64_MIN - 1) as real ==>
              ToI64(f) as real - 1.0 < RealValue(f) <= ToI64(f) as real
    ensures f.negative && RealValue(f) <= (I64_MIN - 1) as real ==> ToI64(f) == I64_MIN
  {
    TruncatedMagnitudeIsFloor(f);
  }
}
