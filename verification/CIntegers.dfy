/** Integer arithmetic as in C and C++: truncating division, fixed-width types and their casts. */
module CIntegers {

  /** The quotient rounded towards zero. */
  function TruncDiv(a: int, b: int): int
    requires b > 0
  {
    if a >= 0 then a / b else -(-a / b)
  }

  /** The remainder with the sign of the dividend. */
  function TruncRem(a: int, b: int): int
    requires b > 0
  {
    a - b * TruncDiv(a, b)
  }

  /** `a >> 2` on a signed integer. */
  function ShiftRight2(a: int): int { a / 4 }

  function Pow2(n: nat): (p: nat)
    ensures p > 0
  {
    if n == 0 then 1 else 2 * Pow2(n - 1)
  }

  lemma {:induction false} Pow2Monotone(m: nat, n: nat)
    requires m <= n
    ensures 1 <= Pow2(m) <= Pow2(n)
    ensures m < n ==> 2 * Pow2(m) <= Pow2(n)
    decreases n
  {
    if m < n {
      Pow2Monotone(m, n - 1);
    } else if n > 0 {
      Pow2Monotone(m - 1, n - 1);
    }
  }

  /** An integer type; `digits` counts the value bits, as `std::numeric_limits` does. */
  datatype IntType = IntType(signed: bool, digits: nat) {
    function Min(): int { if signed then 0 - Pow2(digits) else 0 }
    function Max(): int { Pow2(digits) - 1 }

    predicate Fits(v: int) { Min() <= v <= Max() }

    /** `static_cast`: reduction modulo the number of values. */
    function Cast(v: int): int
    {
      Pow2Monotone(0, digits);
      if signed then (v + Pow2(digits)) % (2 * Pow2(digits)) - Pow2(digits) else v % Pow2(digits)
    }

    lemma CastKeepsWhatFits(v: int)
      requires Fits(v)
      ensures Cast(v) == v
    {
      Pow2Monotone(0, digits);
      if signed {
        SmallMod(v + Pow2(digits), 2 * Pow2(digits));
      } else {
        SmallMod(v, Pow2(digits));
      }
    }
  }

  lemma SmallMod(a: nat, m: nat)
    requires a < m
    ensures a % m == a
  {
  }

  const INT64 := IntType(true, 63)
  const UINT64 := IntType(false, 64)
}
