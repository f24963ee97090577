/** Checked conversion between integral durations (`safe_duration_cast`). */
module DurationCast {
  import opened Wrappers
  import opened CIntegers

  /** `lossless_integral_conversion`: None stands for `ec` being set. */
  function LosslessIntegralConversion(from: int, f: IntType, t: IntType): Option<int> {
    if f == t then Some(from)
    else if f.signed == t.signed then
      if f.digits <= t.digits then Some(t.Cast(from))
      else if from < t.Min() || from > t.Max() then None
      else Some(t.Cast(from))
    else if f.signed && !t.signed && from < 0 then None
    else if f.signed && !t.signed && f.digits > t.digits && from > f.Cast(t.Max()) then None
    else if !f.signed && t.signed && f.digits >= t.digits && from > f.Cast(t.Max()) then None
    else Some(t.Cast(from))
  }

  /** Lossless and complete: whatever the two types are, the conversion fails only when the target type
      does not have the value, and never changes it. */
  lemma ConversionIsExact(from: int, f: IntType, t: IntType)
    requires f.Fits(from)
    ensures LosslessIntegralConversion(from, f, t) == if t.Fits(from) then Some(from) else None
  {
    if f.digits <= t.digits {
      Pow2Monotone(f.digits, t.digits);
    } else {
      Pow2Monotone(t.digits, f.digits);
    }
    if f.digits >= t.digits {
      f.CastKeepsWhatFits(t.Max());
    }
    if t.Fits(from) {
      t.CastKeepsWhatFits(from);
    }
  }

  /** A representation type of at most 64 bits. */
  predicate Rep(t: IntType) {
    t.digits <= if t.signed then 63 else 64
  }

  /** `common_type` of two representation types and `intmax_t`. */
  function IntermediateRep(f: IntType, t: IntType): IntType {
    if f == UINT64 || t == UINT64 then UINT64 else INT64
  }

  /** It has the value bits of the widest of the three, and is signed unless that takes all 64 bits. */
  lemma IntermediateRepIsCommon(f: IntType, t: IntType)
    requires Rep(f) && Rep(t)
    ensures var i, widest := IntermediateRep(f, t), if f.digits >= t.digits then f.digits else t.digits;
            i.digits == (if widest > 63 then widest else 63) && (i.signed <==> widest <= 63)
  {}

  lemma ProductBelow(count: int, num: int, max: int)
    requires num > 0 && max >= 0
    ensures count > max / num <==> count * num > max
  {
    var q := max / num;
    assert max == q * num + max % num;
    if count <= q {
      MulOrdered(count, q, num);
    } else {
      MulOrdered(q + 1, count, num);
      assert (q + 1) * num == q * num + num;
    }
  }

  lemma MulOrdered(a: int, b: int, c: int)
    requires a <= b && c > 0
    ensures a * c <= b * c
  {
    assert (b - a) * c >= 0;
    assert (b - a) * c == b * c - a * c;
  }

  lemma ProductAbove(count: int, num: int, min: int)
    requires num > 0 && min <= 0
    ensures count < TruncDiv(min, num) <==> count * num < min
  {
    ProductBelow(-count, num, -min);
    assert -count * num == -(count * num);
  }

  lemma QuotientFits(i: IntType, v: int, den: int)
    requires i.Fits(v) && den > 0
    ensures i.Fits(TruncDiv(v, den))
  {
    Pow2Monotone(0, i.digits);
    if v >= 0 {
      QuotientNotLarger(v, den);
    } else {
      QuotientNotLarger(-v, den);
    }
  }

  lemma QuotientNotLarger(a: nat, b: int)
    requires b > 0
    ensures 0 <= a / b <= a
  {
    assert a == b * (a / b) + a % b;
    if a / b > a {
      MulOrdered(1, b, a / b);
      assert false;
    }
  }

  /** The middle of the conversion: multiplication without overflow, None when it would overflow. */
  method Scale(count0: int, num: int, i: IntType) returns (count: Option<int>)
    requires i.Fits(count0) && num > 0
    ensures count == if i.Fits(count0 * num) then Some(count0 * num) else None
  {
    Pow2Monotone(0, i.digits);
    count := Some(count0);
    if num != 1 {
      ProductBelow(count0, num, i.Max());
      ProductAbove(count0, num, i.Min());
      var max1 := i.Max() / num;
      if count0 > max1 {
        return None;
      }
      var min1 := TruncDiv(i.Min(), num);
      if i.signed && count0 < min1 {
        return None;
      }
      if !i.signed {
        SignMatters(count0, num, i);
      }
      i.CastKeepsWhatFits(count0 * num);
      count := Some(i.Cast(count0 * num));
    }
  }

  /** An unsigned product cannot be too small. */
  lemma SignMatters(count: int, num: int, i: IntType)
    requires i.Fits(count) && num > 0 && !i.signed
    ensures count * num >= i.Min()
  {
    MulOrdered(0, count, num);
  }

  /** The conversion succeeds exactly when the intermediate type has the count and its product with the
      numerator, and the target type has the quotient; then the result is that quotient, rounded towards
      zero. On failure the result is zero. */
  method SafeDurationCast(from: int, f: IntType, t: IntType, num: int, den: int) returns (result: int, ec: int)
    requires Rep(f) && Rep(t) && f.Fits(from)
    requires 0 < num <= INT64.Max() && 0 < den <= INT64.Max()
    ensures ec == 0 || ec == 1
    ensures var i := IntermediateRep(f, t);
            ec == 0 <==> i.Fits(from) && i.Fits(from * num) && t.Fits(TruncDiv(from * num, den))
    ensures result == if ec == 0 then TruncDiv(from * num, den) else 0
  {
    var i := IntermediateRep(f, t);
    result, ec := 0, 0;
    ConversionIsExact(from, f, i);
    var converted := LosslessIntegralConversion(from, f, i);
    if converted.None? {
      ec := 1;
      return;
    }
    var scaled := Scale(converted.value, num, i);
    if scaled.None? {
      ec := 1;
      return;
    }
    var count := scaled.value;
    QuotientFits(i, count, den);
    if den != 1 {
      count := TruncDiv(count, den);
    }
    ConversionIsExact(count, i, t);
    var tocount := LosslessIntegralConversion(count, i, t);
    if tocount.None? {
      ec := 1;
    } else {
      result := tocount.value;
    }
  }
}
