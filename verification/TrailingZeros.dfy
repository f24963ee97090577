/**
 Decimal arithmetic without division, from the floating-point formatter: exact divisibility tests by
 multiplication with a modular inverse and a rotation, division by multiplication with a rounded-up
 reciprocal, and the removal of trailing decimal zeros that is built on both. Machine words are
 naturals below 2^32 and 2^64, and every wrap-around is written out.
 */
module TrailingZeros {
  import opened Wrappers
  import opened CIntegers
  import opened Bits

  const TWO_26 := 0x400_0000
  const TWO_32 := 0x1_0000_0000
  const TWO_37 := 0x20_0000_0000
  const TWO_64 := 0x1_0000_0000_0000_0000
  const TWO_71 := 0x80_0000_0000_0000_0000
  const TWO_90 := 0x400_0000_0000_0000_0000_0000
  const TEN_8 := 100_000_000

  // ---------------------------------------------------------------- decimal zeros

  function Pow10(k: nat): nat {
    if k == 0 then 1 else 10 * Pow10(k - 1)
  }

  /** The number of trailing decimal zeros of `n`. */
  function Zeros(n: nat): nat
    requires n > 0
  {
    if n % 10 == 0 then 1 + Zeros(n / 10) else 0
  }

  /** `n` without its trailing decimal zeros. */
  function Stripped(n: nat): nat
    requires n > 0
  {
    if n % 10 == 0 then Stripped(n / 10) else n
  }

  /** The two functions mean what they say, and nothing else does. */
  lemma {:induction false} StrippedIsTheOnly(n: nat, n': nat, k: nat)
    requires n > 0
    ensures n == n' * Pow10(k) && n' % 10 != 0 <==> n' == Stripped(n) && k == Zeros(n)
    decreases n, k
  {
    if n % 10 != 0 {
      if k > 0 {
        assert n' * Pow10(k) == 10 * (n' * Pow10(k - 1));
      }
    } else if k == 0 {
      assert n' * Pow10(k) == n';
    } else {
      StrippedIsTheOnly(n / 10, n', k - 1);
      assert n' * Pow10(k) == 10 * (n' * Pow10(k - 1));
    }
  }

  lemma StripHundred(n: nat)
    requires n > 0 && n % 100 == 0
    ensures Stripped(n) == Stripped(n / 100) && Zeros(n) == Zeros(n / 100) + 2
  {
    assert n % 10 == 0 && (n / 10) % 10 == 0 && n / 10 / 10 == n / 100;
  }

  lemma StripAtMostOne(n: nat)
    requires n > 0 && n % 100 != 0
    ensures n % 10 == 0 ==> Stripped(n) == n / 10 && Zeros(n) == 1
    ensures n % 10 != 0 ==> Stripped(n) == n && Zeros(n) == 0
  {
    assert n % 10 == 0 ==> (n / 10) % 10 != 0;
  }

  // ---------------------------------------------------------------- rotation

  /** Rotation of a word with `size` values to the right by one place, by arithmetic. */
  function Rotr1(n: nat, size: nat): nat {
    n / 2 + n % 2 * (size / 2)
  }

  /** Rotation of a word with `size` values to the right by two places, by arithmetic. */
  function Rotr2(n: nat, size: nat): nat {
    n / 4 + n % 4 * (size / 4)
  }

  /** The rotations written with shifts and "or" are these sums. */
  lemma RotationIsSum(n: nat)
    ensures n < TWO_32 ==> Rotr(n, 1, 32) == Rotr1(n, TWO_32) && Rotr(n, 2, 32) == Rotr2(n, TWO_32)
    ensures n < TWO_64 ==> Rotr(n, 1, 64) == Rotr1(n, TWO_64) && Rotr(n, 2, 64) == Rotr2(n, TWO_64)
  {
    PowersOfTwo();
    if n < TWO_32 {
      RotrMovesTheLowBits(n, 1, 32);
      RotrMovesTheLowBits(n, 2, 32);
    }
    if n < TWO_64 {
      RotrMovesTheLowBits(n, 1, 64);
      RotrMovesTheLowBits(n, 2, 64);
    }
  }

  // ---------------------------------------------------------------- exact division by modular inverse

  const INV_5_32 := 0xcccccccd
  const INV_25_32 := 0xc28f5c29
  const INV_5_64 := 0xcccccccccccccccd
  const INV_25_64 := 0x8f5c28f5c28f5c29

  /** For a word `n`, the product with the inverse of 25 rotated by two places is small exactly when 100
      divides `n`, and then it is the quotient. */
  lemma Hundred32(n: nat)
    requires n < TWO_32
    ensures var q := Rotr2(n * INV_25_32 % TWO_32, TWO_32);
            && (q <= (TWO_32 - 1) / 100 <==> n % 100 == 0)
            && (n % 100 == 0 ==> q == n / 100)
  {
    var m, wraps := n * INV_25_32 % TWO_32, n * INV_25_32 / TWO_32;
    assert n * INV_25_32 == wraps * TWO_32 + m;
    assert 25 * m == n + TWO_32 * (19 * n - 25 * wraps);
    if n % 100 == 0 {
      var k := n / 100;
      assert m - 4 * k == TWO_32 * (76 * k - wraps);
      assert m == 4 * k;
    }
    if m % 4 == 0 && m / 4 <= (TWO_32 - 1) / 100 {
      assert 100 * (m / 4) == n + TWO_32 * (19 * n - 25 * wraps);
      assert 19 * n - 25 * wraps == 0;
    }
  }

  lemma Ten32(n: nat)
    requires n < TWO_32
    ensures var q := Rotr1(n * INV_5_32 % TWO_32, TWO_32);
            && (q <= (TWO_32 - 1) / 10 <==> n % 10 == 0)
            && (n % 10 == 0 ==> q == n / 10)
  {
    var m, wraps := n * INV_5_32 % TWO_32, n * INV_5_32 / TWO_32;
    assert n * INV_5_32 == wraps * TWO_32 + m;
    assert 5 * m == n + TWO_32 * (4 * n - 5 * wraps);
    if n % 10 == 0 {
      var k := n / 10;
      assert m - 2 * k == TWO_32 * (8 * k - wraps);
      assert m == 2 * k;
    }
    if m % 2 == 0 && m / 2 <= (TWO_32 - 1) / 10 {
      assert 10 * (m / 2) == n + TWO_32 * (4 * n - 5 * wraps);
      assert 4 * n - 5 * wraps == 0;
    }
  }

  lemma Hundred64(n: nat)
    requires n < TWO_64
    ensures var q := Rotr2(n * INV_25_64 % TWO_64, TWO_64);
            && (q <= (TWO_64 - 1) / 100 <==> n % 100 == 0)
            && (n % 100 == 0 ==> q == n / 100)
  {
    var m, wraps := n * INV_25_64 % TWO_64, n * INV_25_64 / TWO_64;
    assert n * INV_25_64 == wraps * TWO_64 + m;
    assert 25 * m == n + TWO_64 * (14 * n - 25 * wraps);
    if n % 100 == 0 {
      var k := n / 100;
      assert m - 4 * k == TWO_64 * (56 * k - wraps);
      assert m == 4 * k;
    }
    if m % 4 == 0 && m / 4 <= (TWO_64 - 1) / 100 {
      assert 100 * (m / 4) == n + TWO_64 * (14 * n - 25 * wraps);
      assert 14 * n - 25 * wraps == 0;
    }
  }

  lemma Ten64(n: nat)
    requires n < TWO_64
    ensures var q := Rotr1(n * INV_5_64 % TWO_64, TWO_64);
            && (q <= (TWO_64 - 1) / 10 <==> n % 10 == 0)
            && (n % 10 == 0 ==> q == n / 10)
  {
    var m, wraps := n * INV_5_64 % TWO_64, n * INV_5_64 / TWO_64;
    assert n * INV_5_64 == wraps * TWO_64 + m;
    assert 5 * m == n + TWO_64 * (4 * n - 5 * wraps);
    if n % 10 == 0 {
      var k := n / 10;
      assert m - 2 * k == TWO_64 * (8 * k - wraps);
      assert m == 2 * k;
    }
    if m % 2 == 0 && m / 2 <= (TWO_64 - 1) / 10 {
      assert 10 * (m / 2) == n + TWO_64 * (4 * n - 5 * wraps);
      assert 4 * n - 5 * wraps == 0;
    }
  }

  // ---------------------------------------------------------------- division by a rounded-up reciprocal

  /** `divide_by_10_to_kappa_plus_1`, 32-bit form; the magic number is 2^37 / 100 rounded up. */
  function DivideBy100(n: nat): nat {
    n * 1374389535 / TWO_37
  }

  lemma DivideBy100IsExact(n: nat)
    requires n < TWO_32
    ensures DivideBy100(n) == n / 100
  {
    var q, r := n / 100, n % 100;
    assert n * 1374389535 == q * TWO_37 + (28 * q + r * 1374389535);
  }

  /** `divide_by_10_to_kappa_plus_1`, 64-bit form; the magic number is 2^71 / 1000 rounded up, and the
      upper word of the product is shifted by 7. */
  function DivideBy1000(n: nat): nat {
    n * MAGIC_1000 / TWO_64 / 128
  }

  const MAGIC_1000 := 2361183241434822607

  /** The comment in the source promises n / 1000; that is what comes out for every 64-bit word except
      the large ones that end in 999. */
  lemma DivideBy1000IsExact(n: nat)
    requires n < TWO_64
    ensures DivideBy1000(n) == n / 1000 <==> !(n % 1000 == 999 && n >= 15534100272597517999)
  {
    var q, r := n / 1000, n % 1000;
    assert n * MAGIC_1000 == q * TWO_71 + (152 * q + r * MAGIC_1000);
    assert DivideBy1000(n) == n * MAGIC_1000 / TWO_71;
  }

  /** The smallest number that comes out wrong, by one. */
  lemma DivideBy1000Fails()
    ensures DivideBy1000(15534100272597517999) == 15534100272597518 == 15534100272597517999 / 1000 + 1
  {}

  /** `check_divisibility_and_divide_by_pow10<1>`: a 16-bit shift, and 6554 == 65536 / 10 + 1. */
  method CheckDivisibilityBy10(n0: nat) returns (n: nat, divisible: bool)
    requires n0 <= 100
    ensures n == n0 / 10 && (divisible <==> n0 % 10 == 0)
  {
    n := n0 * 6554 % TWO_32;
    divisible := n % 65536 < 6554;
    n := n / 65536;
    assert n0 * 6554 == n0 / 10 * 65536 + (4 * (n0 / 10) + n0 % 10 * 6554);
  }

  /** `check_divisibility_and_divide_by_pow10<2>`: a 16-bit shift, and 656 == 65536 / 100 + 1. */
  method CheckDivisibilityBy100(n0: nat) returns (n: nat, divisible: bool)
    requires n0 <= 1000
    ensures n == n0 / 100 && (divisible <==> n0 % 100 == 0)
  {
    n := n0 * 656 % TWO_32;
    divisible := n % 65536 < 656;
    n := n / 65536;
    assert n0 * 656 == n0 / 100 * 65536 + (64 * (n0 / 100) + n0 % 100 * 656);
  }

  const MAGIC_10_8 := 12379400392853802749

  /** The divisibility test by 10^8: the product with 2^90 / 10^8 rounded up, as upper and lower word. */
  lemma TestByTenToTheEighth(n: nat)
    requires n < TWO_64
    ensures var high, low := n * MAGIC_10_8 / TWO_64, n * MAGIC_10_8 % TWO_64;
            && (high % TWO_26 == 0 && low < MAGIC_10_8 <==> n % TEN_8 == 0)
            && high / TWO_26 == n / TEN_8
  {
    var q, r := n / TEN_8, n % TEN_8;
    var high, low := n * MAGIC_10_8 / TWO_64, n * MAGIC_10_8 % TWO_64;
    var rest := 875776 * q + r * MAGIC_10_8;
    assert n * MAGIC_10_8 == q * TWO_90 + rest;
    assert rest < TWO_90;
    var a, b := high / TWO_26, high % TWO_26;
    assert n * MAGIC_10_8 == a * TWO_90 + (b * TWO_64 + low);
    assert a == q && rest == b * TWO_64 + low;
  }

  // ---------------------------------------------------------------- removing trailing zeros

  /** The two words of the 128-bit product of `n` and the magic number. */
  method MagicProduct(n: nat) returns (high: nat, low: nat)
    requires n < TWO_64
    ensures high % TWO_26 == 0 && low < MAGIC_10_8 <==> n % TEN_8 == 0
    ensures high / TWO_26 == n / TEN_8
  {
    TestByTenToTheEighth(n);
    high, low := n * MAGIC_10_8 / TWO_64, n * MAGIC_10_8 % TWO_64;
  }

  /** One rotation step by 100 on a 32-bit word: small exactly when 100 divides, and then the quotient. */
  method By100In32(n: nat) returns (q: nat)
    requires n < TWO_32
    ensures q <= (TWO_32 - 1) / 100 <==> n % 100 == 0
    ensures n % 100 == 0 ==> q == n / 100
  {
    Hundred32(n);
    var product := n * INV_25_32 % TWO_32;
    RotationIsSum(product);
    q := Rotr(product, 2, 32);
  }

  method By10In32(n: nat) returns (q: nat)
    requires n < TWO_32
    ensures q <= (TWO_32 - 1) / 10 <==> n % 10 == 0
    ensures n % 10 == 0 ==> q == n / 10
  {
    Ten32(n);
    var product := n * INV_5_32 % TWO_32;
    RotationIsSum(product);
    q := Rotr(product, 1, 32);
  }

  /** One rotation step by 100 on a 64-bit word: small exactly when 100 divides, and then the quotient. */
  method By100In64(n: nat) returns (q: nat)
    requires n < TWO_64
    ensures q <= (TWO_64 - 1) / 100 <==> n % 100 == 0
    ensures n % 100 == 0 ==> q == n / 100
  {
    Hundred64(n);
    var product := n * INV_25_64 % TWO_64;
    RotationIsSum(product);
    q := Rotr(product, 2, 64);
  }

  method By10In64(n: nat) returns (q: nat)
    requires n < TWO_64
    ensures q <= (TWO_64 - 1) / 10 <==> n % 10 == 0
    ensures n % 10 == 0 ==> q == n / 10
  {
    Ten64(n);
    var product := n * INV_5_64 % TWO_64;
    RotationIsSum(product);
    q := Rotr(product, 1, 64);
  }

  /** The count that comes back when `zeros` zeros are removed and the count starts at `s0`: two are added for
      each factor of 100, and the last one is counted by setting the lowest bit. */
  function CountFrom(s0: nat, zeros: nat): nat {
    if zeros % 2 == 1 then Or(s0 + (zeros - 1), 1) else s0 + zeros
  }

  /** The count is right exactly when it starts even or an even number is removed, and else one too small. */
  lemma WhenTheCountIsRight(s0: nat, zeros: nat)
    ensures CountFrom(s0, zeros) == s0 + zeros <==> s0 % 2 == 0 || zeros % 2 == 0
    ensures CountFrom(s0, zeros) == s0 + zeros || CountFrom(s0, zeros) == s0 + zeros - 1
  {
    if zeros % 2 == 1 {
      OrOne(s0 + (zeros - 1));
    }
  }

  /** Starting at 1, removing the zero of 10 is not counted. */
  lemma OddStartMiscounts()
    ensures Zeros(10) == 1 && CountFrom(1, Zeros(10)) == 1
  {
    assert Zeros(1) == 0;
    OrOne(1);
  }

  /** The 32-bit form. */
  method RemoveTrailingZeros32(n0: nat, s0: nat) returns (n: nat, s: nat)
    requires 0 < n0 < TWO_32
    ensures n == Stripped(n0)
    ensures s == CountFrom(s0, Zeros(n0))
    ensures s == s0 + Zeros(n0) <==> s0 % 2 == 0 || Zeros(n0) % 2 == 0
  {
    n, s := n0, s0;
    while true
      invariant 0 < n <= n0 && s >= s0 && (s - s0) % 2 == 0
      invariant Stripped(n) == Stripped(n0) && Zeros(n) + (s - s0) == Zeros(n0)
      decreases n
    {
      var q := By100In32(n);
      if q > (TWO_32 - 1) / 100 {
        break;
      }
      StripHundred(n);
      n := q;
      s := s + 2;
    }
    StripAtMostOne(n);
    WhenTheCountIsRight(s0, Zeros(n0));
    var q := By10In32(n);
    if q <= (TWO_32 - 1) / 10 {
      n := q;
      s := Or(s, 1);
    }
  }

  /** The argument that the 64-bit form gives to the 32-bit form: the low half of n / 10^8. */
  function LowQuotient(n: nat): nat { n / TEN_8 % TWO_32 }

  /** The 64-bit form; None when the assertion of the 32-bit form fails, that its argument is not zero
      (without assertions its loop would not end, as zero rotates to zero). */
  method RemoveTrailingZeros64(n0: nat) returns (r: Option<(nat, nat)>)
    requires 0 < n0 < TWO_64
    ensures r.None? <==> n0 % TEN_8 == 0 && LowQuotient(n0) == 0
    ensures n0 % TEN_8 == 0 && LowQuotient(n0) > 0 ==>
              r == Some((Stripped(LowQuotient(n0)), 8 + Zeros(LowQuotient(n0))))
    ensures r == Some((Stripped(n0), Zeros(n0))) <==> n0 % TEN_8 != 0 || n0 < TWO_32 * TEN_8
  {
    var high, low := MagicProduct(n0);
    if high % TWO_26 == 0 && low < MAGIC_10_8 {
      var n32 := high / TWO_26 % TWO_32;
      if n32 == 0 {
        SmallQuotients(n0);
        return None;
      }
      var n, s := RemoveTrailingZeros32(n32, 8);
      TruncationLosesUnlessSmall(n0, n, s);
      return Some((n, s));
    }
    var n, s := StripWord(n0);
    r := Some((n, s));
  }

  /** The loop of the 64-bit form. */
  method StripWord(n0: nat) returns (n: nat, s: nat)
    requires 0 < n0 < TWO_64
    ensures n == Stripped(n0) && s == Zeros(n0)
  {
    n, s := n0, 0;
    while true
      invariant 0 < n <= n0 && s % 2 == 0
      invariant Stripped(n) == Stripped(n0) && Zeros(n) + s == Zeros(n0)
      decreases n
    {
      var q := By100In64(n);
      if q > (TWO_64 - 1) / 100 {
        break;
      }
      StripHundred(n);
      n := q;
      s := s + 2;
    }
    StripAtMostOne(n);
    OrOne(s);
    var q := By10In64(n);
    if q <= (TWO_64 - 1) / 10 {
      n := q;
      s := Or(s, 1);
    }
  }

  lemma SmallQuotients(n: nat)
    requires n > 0 && n % TEN_8 == 0 && LowQuotient(n) == 0
    ensures n >= TWO_32 * TEN_8
  {}

  /** Two inputs at which the 64-bit form fails: 2^32 * 10^8 has no low half, and the one after the next
      multiple loses its upper half. */
  lemma TruncatedInputs()
    ensures LowQuotient(TWO_32 * TEN_8) == 0
    ensures var n := (TWO_32 + 1) * TEN_8;
            n < TWO_64 && Stripped(LowQuotient(n)) == 1 && Stripped(n) == TWO_32 + 1
  {
    var n := (TWO_32 + 1) * TEN_8;
    assert n / TEN_8 == TWO_32 + 1 && (TWO_32 + 1) % 10 == 7;
    Pow10Plus8(0);
    StrippedIsTheOnly(n, TWO_32 + 1, 8);
  }

  lemma Pow10Plus8(k: nat)
    ensures Pow10(k + 8) == TEN_8 * Pow10(k)
  {
    assert Pow10(k + 8) == 10 * Pow10(k + 7) == 100 * Pow10(k + 6) == 1000 * Pow10(k + 5);
    assert Pow10(k + 5) == 10 * Pow10(k + 4) == 100 * Pow10(k + 3) == 1000 * Pow10(k + 2);
    assert Pow10(k + 2) == 100 * Pow10(k);
  }

  /** Stripping the low 32 bits of n / 10^8 is stripping n when no higher bit is set, and else it is not. */
  lemma TruncationLosesUnlessSmall(n: nat, n': nat, s: nat)
    requires 0 < n && n % TEN_8 == 0 && n / TEN_8 % TWO_32 > 0
    requires n' == Stripped(n / TEN_8 % TWO_32) && s == 8 + Zeros(n / TEN_8 % TWO_32)
    ensures n' == Stripped(n) && s == Zeros(n) <==> n < TWO_32 * TEN_8
  {
    var quotient := n / TEN_8;
    var k := quotient % TWO_32;
    StrippedIsTheOnly(k, n', s - 8);
    StrippedIsTheOnly(n, n', s);
    Pow10Plus8(s - 8);
    ScaleProduct(n', Pow10(s - 8), k);
    assert n == TEN_8 * quotient && (k == quotient <==> quotient < TWO_32);
  }

  lemma ScaleProduct(a: nat, b: nat, c: nat)
    requires a * b == c
    ensures a * (TEN_8 * b) == TEN_8 * c
  {
    assert a * (TEN_8 * b) == TEN_8 * (a * b);
  }
}
