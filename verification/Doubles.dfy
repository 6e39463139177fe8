// What the checksum sees of an integer: the nearest double. Integers below 2^53
// in size keep their value, so different ones are hashed differently; larger
// ones are rounded to nearest, ties to even.

module Doubles {
  import opened Common
  import opened TreeHash

  const SIGN := 0x8000_0000_0000_0000

  function Exponent(w: Bits): nat {
    (w / MANTISSA) % 2048
  }

  /** The 53 significant bits of a normal double. */
  function Significand(w: Bits): nat {
    MANTISSA + w % MANTISSA
  }

  predicate Negative(w: Bits) {
    w >= SIGN
  }

  /** Zero of either sign, or a finite double of at least 1. */
  predicate Integral(w: Bits) {
    w % SIGN == 0 || 1023 <= Exponent(w) <= 2046
  }

  /** The size of such a double (section 3.4 of IEEE 754), times 2^52 so that it is an integer. */
  function Scaled(w: Bits): nat
    requires Integral(w)
  {
    if w % SIGN == 0 then 0 else Significand(w) * Pow2(Exponent(w) - 1023)
  }

  function Abs(i: int): nat {
    if i < 0 then -i else i
  }

  lemma {:induction false} BitLengthBounds(m: nat)
    requires m > 0
    ensures BitLength(m) > 0 && Pow2(BitLength(m) - 1) <= m < Pow2(BitLength(m))
  {
    if m > 1 { BitLengthBounds(m / 2); }
  }

  lemma {:induction false} Pow2Adds(a: nat, b: nat)
    ensures Pow2(a + b) == Pow2(a) * Pow2(b)
  {
    if a > 0 {
      Pow2Adds(a - 1, b);
      Twice(Pow2(a - 1), Pow2(b));
    }
  }

  lemma Twice(x: nat, y: nat)
    ensures 2 * (x * y) == (2 * x) * y
  {
  }

  lemma Pow2Of52()
    ensures Pow2(52) == MANTISSA && Pow2(53) == 2 * MANTISSA
  {
    assert Pow2(5) == 32;
    assert Pow2(13) == 8192;
    Pow2Adds(13, 13);
    Pow2Adds(26, 26);
  }

  /** Reading back the fields that `IntToDouble` puts together. */
  lemma Fields(sign: nat, exponent: nat, mantissa: nat, w: nat)
    requires sign == 0 || sign == SIGN
    requires exponent <= 1023 && MANTISSA <= mantissa < 2 * MANTISSA
    requires w == sign + (exponent + 1023) * MANTISSA + mantissa % MANTISSA
    ensures w < 0x1_0000_0000_0000_0000 && w % SIGN != 0
    ensures Exponent(w) == exponent + 1023 && Significand(w) == mantissa && (Negative(w) <==> sign == SIGN)
  {
  }

  /** An integer of at most 53 bits keeps its value and its sign; 0 is the positive zero. */
  lemma SmallIntegerIsExact(i: int)
    requires BitLength(Abs(i)) <= 53
    ensures IntToDouble(i).Some?
    ensures var w := IntToDouble(i).value;
      Integral(w) && Scaled(w) == Abs(i) * MANTISSA && (Negative(w) <==> i < 0)
  {
    if i != 0 { NonzeroIsExact(i); }
  }

  lemma NonzeroIsExact(i: int)
    requires i != 0 && BitLength(Abs(i)) <= 53
    ensures IntToDouble(i).Some?
    ensures var w := IntToDouble(i).value;
      Integral(w) && Scaled(w) == Abs(i) * MANTISSA && (Negative(w) <==> i < 0)
  {
    var m, b := Abs(i), BitLength(Abs(i));
    BitLengthBounds(m);
    Shifted(m, b);
    SmallForm(i);
    Fields(if i < 0 then SIGN else 0, b - 1, m * Pow2(53 - b), IntToDouble(i).value);
  }

  /** Shifting left to 53 bits, and back. */
  lemma Shifted(m: nat, b: nat)
    requires 0 < b <= 53 && Pow2(b - 1) <= m < Pow2(b)
    ensures MANTISSA <= m * Pow2(53 - b) < 2 * MANTISSA
    ensures m * Pow2(53 - b) * Pow2(b - 1) == m * MANTISSA
  {
    Pow2Of52();
    Pow2Adds(b - 1, 53 - b);
    Pow2Adds(b, 53 - b);
    Between(Pow2(b - 1), m, Pow2(b), Pow2(53 - b));
    Reorder(m, Pow2(53 - b), Pow2(b - 1));
  }

  lemma Reorder(x: nat, y: nat, z: nat)
    ensures x * y * z == x * (z * y)
  {
  }

  lemma SmallForm(i: int)
    requires i != 0 && 0 < BitLength(Abs(i)) <= 53
    ensures var b := BitLength(Abs(i));
      IntToDouble(i).Some? && IntToDouble(i).value ==
      (if i < 0 then SIGN else 0) + (b - 1 + 1023) * MANTISSA + (Abs(i) * Pow2(53 - b)) % MANTISSA
  {
  }

  lemma Between(lo: nat, m: nat, hi: nat, k: nat)
    requires lo <= m < hi && k > 0
    ensures lo * k <= m * k < hi * k
  {
  }

  /** Below 2^53 different integers have different streams. */
  lemma SmallIntegersDiffer(i: int, j: int)
    requires BitLength(Abs(i)) <= 53 && BitLength(Abs(j)) <= 53
    ensures Encodable(Int(i)) && Encodable(Int(j))
    ensures Stream(Int(i)) == Stream(Int(j)) <==> i == j
  {
    SmallIntegerIsExact(i);
    SmallIntegerIsExact(j);
    StreamEqualIffNormalEqual(Int(i), Int(j));
    if IntToDouble(i) == IntToDouble(j) {
      assert Abs(i) * MANTISSA == Abs(j) * MANTISSA;
    }
  }

  /** The multiple of `unit` nearest to `m`, the even one of two. */
  function Nearest(m: nat, unit: nat): nat
    requires unit > 0
  {
    var q, r := m / unit, m % unit;
    if 2 * r > unit || (2 * r == unit && q % 2 == 1) then q + 1 else q
  }

  lemma NearestIs(m: nat, unit: nat)
    requires unit > 0
    ensures var n := Nearest(m, unit);
      && -(unit as int) <= 2 * (n * unit - m) <= unit
      && (2 * (n * unit - m) == unit || 2 * (m - n * unit) == unit ==> n % 2 == 0)
  {
    var q, r := m / unit, m % unit;
    assert m == q * unit + r;
    assert (q + 1) * unit == q * unit + unit;
  }

  lemma QuotientBounds(m: nat, unit: nat, k: nat)
    requires unit > 0 && k * unit <= m < 2 * k * unit
    ensures k <= m / unit < 2 * k
  {
    var q, r := m / unit, m % unit;
    assert m == q * unit + r;
    assert (q + 1) * unit == q * unit + unit;
    SmallerFactor(k, q + 1, unit);
    SmallerFactor(q, 2 * k, unit);
  }

  lemma SmallerFactor(a: nat, b: nat, unit: nat)
    requires a * unit < b * unit
    ensures a < b
  {
    assert (b - a) * unit == b * unit - a * unit > 0;
  }

  /**
   * An integer of more than 53 bits becomes the nearest multiple of the spacing
   * of doubles of its size, ties to even; beyond 2^1024 hashing raises.
   */
  lemma LargeIntegerIsRounded(i: int)
    requires BitLength(Abs(i)) > 53
    ensures var b, unit := BitLength(Abs(i)), Pow2(BitLength(Abs(i)) - 53);
      && (IntToDouble(i).None? <==> b > 1024 || (b == 1024 && Nearest(Abs(i), unit) == 2 * MANTISSA))
      && (IntToDouble(i).Some? ==>
            var w := IntToDouble(i).value;
            Integral(w) && Scaled(w) == Nearest(Abs(i), unit) * unit * MANTISSA && (Negative(w) <==> i < 0))
  {
    var m, b := Abs(i), BitLength(Abs(i));
    var unit := Pow2(b - 53);
    BitLengthBounds(m);
    Pow2Of52();
    Pow2Adds(52, b - 53);
    Pow2Adds(53, b - 53);
    QuotientBounds(m, unit, MANTISSA);
    var rounded := Nearest(m, unit);
    var (mantissa, exponent) := if rounded == 2 * MANTISSA then (MANTISSA, b) else (rounded, b - 1);
    LargeForm(i, mantissa, exponent);
    if exponent <= 1023 {
      Fields(if i < 0 then SIGN else 0, exponent, mantissa, IntToDouble(i).value);
      RoundedScale(rounded, unit, b);
    }
  }

  lemma LargeForm(i: int, mantissa: nat, exponent: nat)
    requires BitLength(Abs(i)) > 53
    requires var b, rounded := BitLength(Abs(i)), Nearest(Abs(i), Pow2(BitLength(Abs(i)) - 53));
      (mantissa, exponent) == if rounded == 2 * MANTISSA then (MANTISSA, b) else (rounded, b - 1)
    ensures IntToDouble(i) == if exponent > 1023 then None
      else Some((if i < 0 then SIGN else 0) + (exponent + 1023) * MANTISSA + mantissa % MANTISSA)
  {
  }

  lemma RoundedScale(rounded: nat, unit: nat, b: nat)
    requires b > 53 && unit == Pow2(b - 53)
    ensures rounded * Pow2(b - 1) == rounded * unit * MANTISSA
    ensures MANTISSA * Pow2(b) == (2 * MANTISSA) * unit * MANTISSA
  {
    Pow2Of52();
    Pow2Adds(52, b - 53);
    Pow2Adds(53, b - 53);
    assert rounded * (MANTISSA * unit) == rounded * unit * MANTISSA;
  }
}
