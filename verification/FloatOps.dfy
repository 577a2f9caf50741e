/**
  A `U256` scaled by a factor between zero and one given as a double: the factor's mantissa is read
  off the bits of `factor + 1.0`. Doubles are real numbers here, and sums of doubles are rounded.
 */
module FloatOps {
  import opened Arithmetic
  import opened Primitives

  const TWO_52: nat := 0x10_0000_0000_0000
  const TWO_204: nat := 0x1000_0000000000000000_0000000000000000_0000000000000000
  const TWO_256: nat := 0x1_0000000000000000_0000000000000000_0000000000000000_0000000000000000

  /** The 52 mantissa bits of a NaN, never all zero: those of an infinity are. */
  type nanbits = m: nat | 0 < m < TWO_52 witness 1

  /** A double: not a number, with the mantissa a sum with it carries on, infinite, or finite. */
  datatype F64 = NaN(mantissa: nanbits) | Infinite(negative: bool) | Finite(v: real)

  // ----- sums between one and four

  /** Rounding to the nearest integer, ties to even. */
  function RoundHalfEven(y: real): (n: int)
    ensures y - 0.5 <= n as real <= y + 0.5
  {
    var f := y.Floor;
    if y - f as real < 0.5 then f
    else if y - f as real > 0.5 then f + 1
    else if f % 2 == 0 then f
    else f + 1
  }

  /** A double sum that lies in [1, 4): the spacing doubles at two. */
  function RoundSum(s: real): (r: real)
    requires 1.0 <= s < 4.0
  {
    if s < 2.0 then RoundHalfEven(s * TWO_52 as real) as real / TWO_52 as real
    else RoundHalfEven(s * (TWO_52 / 2) as real) as real / (TWO_52 / 2) as real
  }

  /** The low 52 bits of a double in [1, 4). */
  function Mantissa(r: real): (m: int)
  {
    if r < 2.0 then ((r - 1.0) * TWO_52 as real).Floor else ((r - 2.0) * (TWO_52 / 2) as real).Floor
  }

  /** The factor in units of 2^-52. */
  function Units(rhs: real): (m: int) {
    RoundHalfEven(rhs * TWO_52 as real)
  }

  // ----- the operations

  /** A panic is an overflowing multiplication or a division by zero. */
  datatype Outcome = Value(v: u256) | InvalidInput | Panic

  /** `f64::EPSILON` is 2^-52. */
  function MulMantissa(rhs: real): (m: int)
    requires 0.0 <= rhs <= 1.0
  {
    Mantissa(RoundSum(RoundSum(rhs + 1.0) + 1.0 / TWO_52 as real))
  }

  function DivMantissa(rhs: real): (m: int)
    requires 0.0 <= rhs <= 1.0
  {
    Mantissa(RoundSum(rhs + 1.0))
  }

  function MulF64(x: u256, rhs: F64): (r: Outcome)
  {
    if !rhs.Finite? || !(0.0 <= rhs.v <= 1.0) then InvalidInput
    else if rhs.v == 1.0 then Value(x)
    else if rhs.v == 0.0 then Value(0)
    else
      var product := x * MulMantissa(rhs.v);
      if product < 0 || product >= TWO_256 then Panic else Value(product / TWO_52)
  }

  function DivF64(x: u256, rhs: F64): (r: Outcome)
  {
    match rhs
    case Infinite(_) => InvalidInput
    case NaN(mantissa) => // compares false with every bound
      Divided(x, mantissa)
    case Finite(v) =>
      if v <= 0.0 || v > 1.0 then InvalidInput
      else if v == 1.0 then Value(x)
      else Divided(x, DivMantissa(v))
  }

  /** The shift drops what does not fit 256 bits. */
  function Divided(x: u256, denom: int): (r: Outcome) {
    if denom <= 0 then Panic
    else
      QuotientBound(x * TWO_52 % TWO_256, denom);
      Value(x * TWO_52 % TWO_256 / denom)
  }

  // ----- reading the mantissa

  lemma RoundShift(y: real)
    ensures RoundHalfEven(y + TWO_52 as real) == RoundHalfEven(y) + TWO_52
  {
    var f := y.Floor;
    assert (y + TWO_52 as real).Floor == f + TWO_52;
    assert (f + TWO_52) % 2 == f % 2;
  }

  lemma RoundInteger(n: int)
    ensures RoundHalfEven(n as real) == n
  {}

  /** The first sum is exact up to the rounding of the factor. */
  lemma FirstSum(rhs: real)
    requires 0.0 <= rhs < 1.0
    ensures 0 <= Units(rhs) <= TWO_52
    ensures RoundSum(rhs + 1.0) == (Units(rhs) + TWO_52) as real / TWO_52 as real
  {
    RoundShift(rhs * TWO_52 as real);
    assert (rhs + 1.0) * TWO_52 as real == rhs * TWO_52 as real + TWO_52 as real;
  }

  lemma MantissaOf(u: nat)
    requires u <= TWO_52
    ensures Mantissa((u + TWO_52) as real / TWO_52 as real) == if u < TWO_52 then u else 0
  {
    if u < TWO_52 {
      assert ((u + TWO_52) as real / TWO_52 as real - 1.0) * TWO_52 as real == u as real;
    }
  }

  /** The second sum moves up by one unit, except that nothing lies between 2 and 2 + 2^-51. */
  lemma SecondSum(u: nat)
    requires u <= TWO_52
    ensures var s := (u + TWO_52) as real / TWO_52 as real + 1.0 / TWO_52 as real;
            RoundSum(s) == (if u < TWO_52 then u + 1 + TWO_52 else 2 * TWO_52) as real / TWO_52 as real
  {
    var s := (u + TWO_52) as real / TWO_52 as real + 1.0 / TWO_52 as real;
    assert s * TWO_52 as real == (u + 1 + TWO_52) as real;
    if u + 1 < TWO_52 {
      RoundInteger(u + 1 + TWO_52);
    } else if u + 1 == TWO_52 {
      assert s == 2.0;
      RoundInteger(TWO_52);
    } else {
      assert s * (TWO_52 / 2) as real == TWO_52 as real + 0.5;
      assert (TWO_52 as real + 0.5).Floor == TWO_52;
    }
  }

  /**
    What the two operations read as the mantissa: for a product one unit more than the factor,
    unless that wraps to zero.
   */
  lemma Mantissas(rhs: real)
    requires 0.0 <= rhs < 1.0
    ensures var u := Units(rhs);
            && DivMantissa(rhs) == (if u < TWO_52 then u else 0)
            && MulMantissa(rhs) == (if u + 1 < TWO_52 then u + 1 else 0)
  {
    FirstSum(rhs);
    var u := Units(rhs);
    MantissaOf(u);
    SecondSum(u);
    MantissaOf(if u < TWO_52 then u + 1 else TWO_52);
  }

  // ----- products

  /** A product by a factor in units: the mantissa read is one unit more, unless it wraps to zero. */
  function ByUnits(x: u256, u: nat): (r: Outcome) {
    MulNonNegative(x, u + 1);
    if u + 1 >= TWO_52 then Value(0)
    else if x * (u + 1) < TWO_256 then Value(x * (u + 1) / TWO_52)
    else Panic
  }

  /** A product of a factor strictly between zero and one, in whole numbers. */
  lemma MulByUnits(x: u256, rhs: real)
    requires 0.0 < rhs < 1.0
    ensures Units(rhs) >= 0 && MulF64(x, Finite(rhs)) == ByUnits(x, Units(rhs))
  {
    Mantissas(rhs);
    FirstSum(rhs);
    var u := Units(rhs);
    hide MulMantissa, Units, Mantissa, RoundSum;
    if u + 1 < TWO_52 {
      MulNonNegative(x, u + 1);
    }
  }

  lemma ProductFits(x: nat, n: nat)
    requires x < TWO_204 && n <= TWO_52
    ensures x * n < TWO_256
  {
    MulMonotone(n, TWO_52, x);
  }

  function Times(a: real, b: real): (e: real) {
    a * b
  }

  function Exact(x: nat, rhs: real): (e: real) {
    Times(x as real, rhs)
  }

  /** Between the exact product rounded down and the exact product plus one and a half units of the factor. */
  predicate CloseProduct(x: nat, rhs: real, r: nat) {
    Exact(x, rhs).Floor <= r && r as real <= Exact(x, rhs) + 1.5 * x as real / TWO_52 as real
  }

  lemma TimesMonotone(x: real, a: real, b: real)
    requires x >= 0.0 && a <= b
    ensures Times(x, a) <= Times(x, b)
  {}

  lemma TimesLinear(x: real, a: real)
    ensures Times(x, a * TWO_52 as real) == Times(x, a) * TWO_52 as real
    ensures Times(x, a + 1.5) == Times(x, a) + 1.5 * x
  {}

  lemma RealProduct(x: real, rhs: real, n: real)
    requires x >= 0.0 && rhs * TWO_52 as real <= n <= rhs * TWO_52 as real + 1.5
    ensures Times(x, rhs) * TWO_52 as real <= Times(x, n) <= Times(x, rhs) * TWO_52 as real + 1.5 * x
  {
    hide Times;
    var t := rhs * TWO_52 as real;
    TimesMonotone(x, t, n);
    TimesMonotone(x, n, t + 1.5);
    TimesLinear(x, t);
    TimesLinear(x, rhs);
  }

  lemma RealOfProduct(a: nat, b: nat)
    ensures (a * b) as real == Times(a as real, b as real)
  {}

  lemma Sandwich(x: nat, rhs: real, u: nat)
    requires u as real - 0.5 <= rhs * TWO_52 as real <= u as real + 0.5
    ensures Exact(x, rhs) * TWO_52 as real <= (x * (u + 1)) as real <= Exact(x, rhs) * TWO_52 as real + 1.5 * x as real
  {
    hide Times;
    RealOfProduct(x, u + 1);
    RealProduct(x as real, rhs, (u + 1) as real);
  }

  /** The product by units is close to the exact product. */
  lemma UnitsProductClose(x: nat, rhs: real, u: nat)
    requires u as real - 0.5 <= rhs * TWO_52 as real <= u as real + 0.5
    ensures CloseProduct(x, rhs, x * (u + 1) / TWO_52)
  {
    hide Exact;
    Sandwich(x, rhs, u);
    FloorQuotient(Exact(x, rhs), x * (u + 1), 1.5 * x as real);
  }

  lemma FloorQuotient(exact: real, product: nat, slack: real)
    requires exact * TWO_52 as real <= product as real <= exact * TWO_52 as real + slack
    ensures exact.Floor <= product / TWO_52
    ensures (product / TWO_52) as real <= exact + slack / TWO_52 as real
  {
    var q := product / TWO_52;
    assert q * TWO_52 <= product < (q + 1) * TWO_52;
    assert exact.Floor as real * TWO_52 as real <= product as real;
  }

  /**
    A product is a value close to the exact one if and only if the factor stays more than one unit
    below one and the product by units fits 256 bits, as it does below 2^204, or the factor does not
    and the exact product is below one.
   */
  lemma MulIsClose(x: u256, rhs: real)
    requires 0.0 < rhs < 1.0
    ensures var (r, u) := (MulF64(x, Finite(rhs)), Units(rhs));
            r.Value? && CloseProduct(x, rhs, r.v) <==>
            if u + 1 < TWO_52 then x * (u + 1) < TWO_256 else Exact(x, rhs) < 1.0
    ensures x < TWO_204 ==> MulF64(x, Finite(rhs)).Value?
  {
    MulByUnits(x, rhs);
    FirstSum(rhs);
    var u := Units(rhs);
    if u + 1 < TWO_52 {
      assert u as real - 0.5 <= rhs * TWO_52 as real <= u as real + 0.5;
      hide MulF64, CloseProduct, Units;
      UnitsProductClose(x, rhs, u);
      if x < TWO_204 {
        ProductFits(x, u + 1);
      }
    } else {
      assert Times(x as real, rhs) >= 0.0 && 1.5 * x as real / TWO_52 as real >= 0.0;
    }
  }

  /** A factor one unit below one takes everything: 1000 times 1 - 2^-52 is zero. */
  lemma NearOneGivesZero()
    ensures MulF64(1000, Finite(1.0 - 1.0 / TWO_52 as real)) == Value(0)
    ensures !CloseProduct(1000, 1.0 - 1.0 / TWO_52 as real, 0)
  {
    var rhs := 1.0 - 1.0 / TWO_52 as real;
    assert rhs * TWO_52 as real == (TWO_52 - 1) as real;
    RoundInteger(TWO_52 - 1);
    MulByUnits(1000, rhs);
  }

  // ----- quotients

  /** A quotient by a factor strictly between zero and one, in whole numbers. */
  lemma DivByUnits(x: u256, rhs: real)
    requires 0.0 < rhs < 1.0
    ensures var u := Units(rhs);
            DivF64(x, Finite(rhs)) ==
            if u == 0 || u == TWO_52 then Panic else Value(x * TWO_52 % TWO_256 / u)
  {
    Mantissas(rhs);
    FirstSum(rhs);
    hide DivMantissa, Units, Mantissa, RoundSum;
  }

  /** The shift keeps the low 204 bits of the dividend. */
  lemma ShiftKeepsLowBits(x: nat)
    ensures x * TWO_52 % TWO_256 == (x % TWO_204) * TWO_52
  {
    DivModUnique(x * TWO_52, TWO_256, x / TWO_204, (x % TWO_204) * TWO_52);
  }

  /** The integer quotient of a number by a factor in units. */
  function Quotient(x: nat, units: nat): (q: nat)
    requires units > 0
  {
    QuotientBound(x * TWO_52, units);
    x * TWO_52 / units
  }

  /** Every quotient is the integer quotient of the low 204 bits of the dividend. */
  lemma DivLowBits(x: u256, rhs: real)
    requires 0.0 < rhs < 1.0 && 1 <= Units(rhs) < TWO_52
    ensures DivF64(x, Finite(rhs)).Value? && DivF64(x, Finite(rhs)).v == Quotient(x % TWO_204, Units(rhs))
  {
    DivByUnits(x, rhs);
    ShiftKeepsLowBits(x);
    hide DivF64, Units;
  }

  lemma QuotientGap(a: nat, b: nat, u: nat)
    requires 0 < u && b + u <= a
    ensures b / u < a / u
  {
    var p, q := a / u, b / u;
    assert a == p * u + a % u && b == q * u + b % u;
    MulMonotone(p, q, u);
  }

  lemma LowQuotient(x: nat, u: nat)
    requires 1 <= u < TWO_52
    ensures Quotient(x % TWO_204, u) == Quotient(x, u) <==> x < TWO_204
    ensures Quotient(0, u) == 0
  {
    if x >= TWO_204 {
      QuotientGap(x * TWO_52, (x % TWO_204) * TWO_52, u);
    }
  }

  /** A quotient is the integer quotient of the whole dividend if and only if that is below 2^204. */
  lemma DivExact(x: u256, rhs: real)
    requires 0.0 < rhs < 1.0 && 1 <= Units(rhs) < TWO_52
    ensures DivF64(x, Finite(rhs)).Value?
    ensures DivF64(x, Finite(rhs)).v == Quotient(x, Units(rhs)) <==> x < TWO_204
    ensures x == TWO_204 ==> DivF64(x, Finite(rhs)).v == 0
  {
    hide DivF64, Units, Quotient;
    DivLowBits(x, rhs);
    LowQuotient(x, Units(rhs));
  }

  /** Division panics on a factor that rounds to zero or to one, and on no other. */
  lemma DivPanics(x: u256, rhs: real)
    requires 0.0 < rhs < 1.0
    ensures DivF64(x, Finite(rhs)).Panic? <==>
            rhs * TWO_52 as real <= 0.5 || rhs * TWO_52 as real >= TWO_52 as real - 0.5
  {
    DivByUnits(x, rhs);
    var y := rhs * TWO_52 as real;
    if y <= 0.5 {
      assert y.Floor == 0;
    } else if y >= TWO_52 as real - 0.5 {
      assert y.Floor == TWO_52 - 1;
    }
  }

  /** Which factors each operation refuses: the division lets every NaN through. */
  lemma RefusedFactors(x: u256, rhs: F64)
    ensures MulF64(x, rhs) == InvalidInput <==> !rhs.Finite? || !(0.0 <= rhs.v <= 1.0)
    ensures DivF64(x, rhs) == InvalidInput <==> rhs.Infinite? || (rhs.Finite? && !(0.0 < rhs.v <= 1.0))
  {
    hide MulMantissa, DivMantissa;
  }

  /** What a NaN divides by: its mantissa bits, of the low 204 bits of the dividend; it never panics. */
  lemma NanDivides(x: u256, m: nanbits)
    ensures DivF64(x, NaN(m)).Value? && DivF64(x, NaN(m)).v == Quotient(x % TWO_204, m)
  {
    ShiftKeepsLowBits(x);
  }

  /** The quiet NaN without payload doubles what fits. */
  lemma QuietNanDoubles(x: nat)
    requires x < TWO_204
    ensures DivF64(x, NaN(TWO_52 / 2)) == Value(2 * x)
  {
    NanDivides(x, TWO_52 / 2);
    DivModUnique(x * TWO_52, TWO_52 / 2, 2 * x, 0);
  }

  /** The ends of the range: one changes nothing, and zero times anything is zero. */
  lemma Ends(x: u256)
    ensures MulF64(x, Finite(1.0)) == DivF64(x, Finite(1.0)) == Value(x) && MulF64(x, Finite(0.0)) == Value(0)
  {
    hide MulMantissa, DivMantissa;
  }

  // ----- multiplying a quotient back

  lemma BackBounds(x: nat, u: nat, d: nat, product: nat, r: nat)
    requires u < TWO_52 && product <= x * TWO_52 < product + u
    requires r * TWO_52 <= product + d < r * TWO_52 + TWO_52
    ensures x - 1 <= r && r * TWO_52 <= x * TWO_52 + d
  {
    assert r * TWO_52 > (x - 2) * TWO_52;
  }

  lemma BackByUnits(x: nat, u: nat)
    requires 1 <= u < TWO_52
    ensures var d := x * TWO_52 / u; var r := d * (u + 1) / TWO_52;
            x - 1 <= r && r * TWO_52 <= x * TWO_52 + d
  {
    var shifted := x * TWO_52;
    var d := shifted / u;
    assert shifted == u * d + shifted % u;
    assert d * (u + 1) == u * d + d;
    BackBounds(x, u, d, u * d, (u * d + d) / TWO_52);
  }

  /** A quotient multiplied back lies between x - 1 and x plus one unit per quotient. */
  predicate CloseBack(x: nat, d: nat, r: nat) {
    x - 1 <= r && r as real <= x as real + d as real / TWO_52 as real
  }

  lemma BackClose(x: nat, u: nat)
    requires 1 <= u < TWO_52
    ensures var d := Quotient(x, u); CloseBack(x, d, d * (u + 1) / TWO_52)
  {
    BackByUnits(x, u);
    var d := Quotient(x, u);
    var r := d * (u + 1) / TWO_52;
    hide Quotient;
    assert r as real * TWO_52 as real <= x as real * TWO_52 as real + d as real;
  }

  /** From 2^204 on a product that fits is too small to come back. */
  lemma TooSmallToComeBack(x: nat, u: nat)
    requires x >= TWO_204 && u >= 1
    ensures var d := Quotient(x % TWO_204, u);
            d * (u + 1) < TWO_256 ==> d * (u + 1) / TWO_52 < x - 1
  {
    if x == TWO_204 {
      assert Quotient(0, u) == 0;
    }
  }

  lemma BackExactly(x: nat, u: nat, d: u256)
    requires 1 <= u < TWO_52 && d == Quotient(x % TWO_204, u)
    ensures var r := ByUnits(d, u);
            r.Value? && CloseBack(x, d, r.v) <==>
            x < TWO_204 && if u + 1 < TWO_52 then d * (u + 1) < TWO_256 else x <= 1
  {
    if u + 1 >= TWO_52 {
      assert d as real / TWO_52 as real >= 0.0;
    } else if x < TWO_204 {
      hide CloseBack, Quotient;
      BackClose(x, u);
    } else {
      hide Quotient;
      TooSmallToComeBack(x, u);
    }
  }

  /**
    Dividing and multiplying back gives a value close to the start if and only if the dividend is
    below 2^204, and either the factor stays more than one unit below one and the product of the
    quotient by units fits 256 bits, or there is at most one to divide.
   */
  lemma DivMulBack(x: u256, rhs: real)
    requires 0.0 < rhs < 1.0 && 1 <= Units(rhs) < TWO_52
    ensures DivF64(x, Finite(rhs)).Value?
    ensures var (d, u) := (DivF64(x, Finite(rhs)).v, Units(rhs));
            var r := MulF64(d, Finite(rhs));
            r.Value? && CloseBack(x, d, r.v) <==>
            x < TWO_204 && if u + 1 < TWO_52 then d * (u + 1) < TWO_256 else x <= 1
  {
    hide MulF64, DivF64, ByUnits, Quotient, CloseBack;
    DivLowBits(x, rhs);
    var u, d := Units(rhs), DivF64(x, Finite(rhs)).v;
    hide Units;
    MulByUnits(d, rhs);
    BackExactly(x, u, d);
  }
}
