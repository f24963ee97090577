/** The bitwise operators of C on natural numbers, and when they can be computed by arithmetic. */
module Bits {
  import opened CIntegers

  /** `a | b` */
  function Or(a: nat, b: nat): nat {
    if a == 0 && b == 0 then 0
    else 2 * Or(a / 2, b / 2) + if a % 2 == 1 || b % 2 == 1 then 1 else 0
  }

  /** `a & b` */
  function And(a: nat, b: nat): nat {
    if a == 0 || b == 0 then 0
    else 2 * And(a / 2, b / 2) + if a % 2 == 1 && b % 2 == 1 then 1 else 0
  }

  /** Bit `k` is set. */
  predicate Bit(n: nat, k: nat) {
    if k == 0 then n % 2 == 1 else Bit(n / 2, k - 1)
  }

  /** The operators work bit by bit. */
  lemma {:induction false} BitByBit(a: nat, b: nat, k: nat)
    ensures Bit(Or(a, b), k) <==> Bit(a, k) || Bit(b, k)
    ensures Bit(And(a, b), k) <==> Bit(a, k) && Bit(b, k)
  {
    HalfOr(a, b);
    HalfAnd(a, b);
    if k > 0 {
      BitByBit(a / 2, b / 2, k - 1);
    }
  }

  lemma HalfOr(a: nat, b: nat)
    ensures Or(a, b) / 2 == Or(a / 2, b / 2)
    ensures Or(a, b) % 2 == if a % 2 == 1 || b % 2 == 1 then 1 else 0
  {}

  lemma HalfAnd(a: nat, b: nat)
    ensures And(a, b) / 2 == And(a / 2, b / 2)
    ensures And(a, b) % 2 == if a % 2 == 1 && b % 2 == 1 then 1 else 0
  {}

  lemma {:induction false} OrZero(a: nat)
    ensures Or(a, 0) == a
  {
    if a > 0 {
      OrZero(a / 2);
    }
  }

  lemma {:induction false} OrCommutes(a: nat, b: nat)
    ensures Or(a, b) == Or(b, a)
  {
    if a > 0 || b > 0 {
      OrCommutes(a / 2, b / 2);
    }
  }

  /** Numbers that do not overlap: "or" is their sum. */
  lemma {:induction false} OrIsSum(a: nat, b: nat, k: nat)
    requires a < Pow2(k)
    ensures Or(a, b * Pow2(k)) == a + b * Pow2(k)
    decreases k
  {
    if k == 0 {
      OrOfZero(b);
    } else {
      var p := Pow2(k - 1);
      Halve(b, p);
      OrIsSum(a / 2, b, k - 1);
      HalfOr(a, b * Pow2(k));
    }
  }

  lemma Halve(b: nat, p: nat)
    ensures b * (2 * p) == 2 * (b * p) && b * (2 * p) / 2 == b * p && b * (2 * p) % 2 == 0
  {
    assert b * (2 * p) == 2 * (b * p);
  }

  lemma {:induction false} OrOfZero(b: nat)
    ensures Or(0, b) == b
  {
    if b > 0 {
      OrOfZero(b / 2);
    }
  }

  /** "And" with a mask of ones keeps the low bits. */
  lemma {:induction false} AndIsRemainder(a: nat, k: nat)
    ensures And(a, Pow2(k) - 1) == a % Pow2(k)
    decreases k
  {
    if k > 0 {
      var p := Pow2(k - 1);
      AndIsRemainder(a / 2, k - 1);
      HalfAnd(a, Pow2(k) - 1);
      RemainderByHalves(a, p);
    }
  }

  lemma RemainderByHalves(a: nat, p: nat)
    requires p > 0
    ensures a % (2 * p) == 2 * (a / 2 % p) + a % 2
  {
    var h := a / 2;
    var q := h / p;
    assert h == q * p + h % p;
    assert a == q * (2 * p) + (2 * (h % p) + a % 2) by {
      Halve(q, p);
    }
    UniqueRemainder(a, q, 2 * p, 2 * (h % p) + a % 2);
  }

  lemma UniqueRemainder(a: nat, q: nat, m: nat, r: nat)
    requires m > 0 && r < m && a == q * m + r
    ensures a % m == r && a / m == q
  {
    var q', r' := a / m, a % m;
    assert a == q' * m + r';
    if q < q' {
      Spread(q, q', m);
      assert false;
    } else if q' < q {
      Spread(q', q, m);
      assert false;
    }
  }

  lemma Spread(q: nat, q': nat, m: nat)
    requires q < q'
    ensures q' * m >= q * m + m
  {
    var more: nat := q' - q - 1;
    assert q' * m == (q + 1 + more) * m == q * m + m + more * m;
  }

  lemma Product(high: nat, low: nat, p: nat, q: nat)
    ensures (high * p + low) * q == high * (p * q) + low * q
  {
    assert high * p * q == high * (p * q);
  }

  /** `n << k` on words of `bits` bits */
  function ShiftLeft(n: nat, k: nat, bits: nat): nat {
    var product := n * Pow2(k);
    product % Pow2(bits)
  }

  /** `n >> k` */
  function ShiftRight(n: nat, k: nat): nat {
    Quotient(n, Pow2(k));
    n / Pow2(k)
  }

  lemma Quotient(n: nat, m: nat)
    requires m > 0
    ensures n / m >= 0
  {}

  /** `rotr` on words of `bits` bits, as it is written: `(n >> r) | (n << (bits - r))`. */
  function Rotr(n: nat, r: nat, bits: nat): nat
    requires r < bits
  {
    Or(ShiftRight(n, r), ShiftLeft(n, bits - r, bits))
  }

  /** Rotation moves the low `r` bits to the top. */
  lemma RotrMovesTheLowBits(n: nat, r: nat, bits: nat)
    requires r < bits && n < Pow2(bits)
    ensures Rotr(n, r, bits) == n / Pow2(r) + n % Pow2(r) * Pow2(bits - r)
  {
    var low, high := n % Pow2(r), n / Pow2(r);
    var p, q := Pow2(r), Pow2(bits - r);
    Pow2Sum(r, bits - r);
    Rotated(n, p, q);
    OrIsSum(high, low, bits - r);
  }

  lemma Rotated(n: nat, p: nat, q: nat)
    requires p > 0 && q > 0 && n < p * q
    ensures n * q % (p * q) == n % p * q && n / p < q
  {
    var low, high := n % p, n / p;
    assert n == high * p + low;
    Product(high, low, p, q);
    Spread(low, p, q);
    UniqueRemainder(n * q, high, p * q, low * q);
    if high >= q {
      HighPart(high, q, p);
    }
  }

  lemma HighPart(high: nat, q: nat, p: nat)
    requires high >= q
    ensures high * p >= p * q
  {
    assert high * p == (high - q) * p + q * p;
  }

  lemma {:induction false} Pow2Sum(m: nat, n: nat)
    ensures Pow2(m + n) == Pow2(m) * Pow2(n)
  {
    if m > 0 {
      Pow2Sum(m - 1, n);
      assert Pow2(m) * Pow2(n) == 2 * (Pow2(m - 1) * Pow2(n));
    }
  }

  /** `s | 1` */
  lemma OrOne(s: nat)
    ensures Or(s, 1) == if s % 2 == 0 then s + 1 else s
  {
    OrZero(s / 2);
    HalfOr(s, 1);
    assert 1 / 2 == 0;
  }

  lemma PowersOfTwo()
    ensures Pow2(1) == 2 && Pow2(2) == 4 && Pow2(30) == 0x4000_0000 && Pow2(31) == 0x8000_0000
    ensures Pow2(32) == 0x1_0000_0000 && Pow2(62) == 0x4000_0000_0000_0000
    ensures Pow2(63) == 0x8000_0000_0000_0000 && Pow2(64) == 0x1_0000_0000_0000_0000
  {
    assert Pow2(8) == 256;
    Pow2Sum(8, 8);
    Pow2Sum(16, 14);
    assert Pow2(14) == 16384;
    Pow2Sum(32, 30);
  }
}
