/** The few facts about integer division that the proofs share. */
module Arithmetic {

  lemma MulAtLeast(d: nat, t: int)
    requires t >= 1
    ensures d * t >= d
  {
    assert d * (t - 1) >= 0;
  }

  lemma MulNonNegative(a: nat, b: nat)
    ensures a * b >= 0
  {}

  lemma MulMonotone(a: int, b: int, d: nat)
    ensures a <= b ==> a * d <= b * d
  {
    if a <= b {
      assert (b - a) * d >= 0;
    }
  }

  lemma QuotientBound(y: nat, d: nat)
    requires d > 0
    ensures 0 <= y / d <= y
  {
    assert y == d * (y / d) + y % d;
    if y / d > y {
      MulMonotone(1, d, y / d);
    }
  }

  lemma QuotientUnique(d: int, q: int, r: int, q': int, r': int)
    requires d > 0 && 0 <= r < d && 0 <= r' < d
    requires d * q + r == d * q' + r'
    ensures q == q' && r == r'
  {
    if q > q' {
      MulAtLeast(d, q - q');
    } else if q < q' {
      MulAtLeast(d, q' - q);
    }
  }

  /** A quotient and remainder in range are the quotient and remainder. */
  lemma DivModUnique(v: int, d: int, q: int, r: int)
    requires d > 0 && v == d * q + r && 0 <= r < d
    ensures v / d == q && v % d == r
  {
    QuotientUnique(d, q, r, v / d, v % d);
  }

  /** Reducing modulo `256 * p` byte by byte. */
  lemma ModSplit(v: nat, p: nat)
    requires p >= 1
    ensures (v / 256 % p) * 256 + v % 256 == v % (256 * p)
  {
    var u := v / 256;
    var q, r := u / p, u % p;
    assert v == (256 * p) * q + (256 * r + v % 256) by {
      assert u == p * q + r;
      assert 256 * (p * q) == (256 * p) * q;
    }
    DivModUnique(v, 256 * p, q, 256 * r + v % 256);
  }

  lemma ModFits(v: nat, m: nat)
    requires m > 0
    ensures v % m == v <==> v < m
  {
  }
}
