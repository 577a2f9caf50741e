/** Divisibility by a prime: Euclid's lemma and the two square roots of a number. */
module NumberTheory {
  import opened Arithmetic

  ghost predicate Divides(d: int, n: int) {
    exists k: int :: n == d * k
  }

  ghost predicate Prime(p: int) {
    p > 1 && forall d: int :: 1 < d < p ==> !Divides(d, p)
  }

  /** Euclid's lemma, by descent: if p divides a*b it divides r*b, where r is the remainder of p by a. */
  lemma {:induction false} Euclid(p: int, a: int, b: int, k: int) returns (m: int)
    requires Prime(p) && 0 < a < p && a * b == p * k
    ensures b == p * m
    decreases a
  {
    if a == 1 {
      m := k;
    } else {
      var q, r := p / a, p % a;
      assert p == a * q + r;
      assert r != 0 by {
        if r == 0 {
          assert p == a * q;
          assert Divides(a, p);
        }
      }
      calc {
        r * b;
        (p - a * q) * b;
        p * b - q * (a * b);
        p * b - q * (p * k);
        p * (b - q * k);
      }
      m := Euclid(p, r, b, b - q * k);
    }
  }

  /** By the same descent: a number below a prime times some number is one more than a multiple of the prime. */
  lemma {:induction false} Bezout(p: int, a: int) returns (k: int, m: int)
    requires Prime(p) && 0 < a < p
    ensures a * k == 1 + p * m
    decreases a
  {
    if a == 1 {
      k, m := 1, 0;
    } else {
      var q, r := p / a, p % a;
      assert p == a * q + r;
      assert r != 0 by {
        if r == 0 {
          assert p == a * q;
          assert Divides(a, p);
        }
      }
      var n, o := Bezout(p, r);
      k, m := -q * n, o - n;
      calc {
        a * k;
        (r - p) * n;
        r * n - p * n;
        1 + p * m;
      }
    }
  }

  /** Numbers below a prime have inverses. */
  lemma InverseExists(p: nat, a: nat) returns (k: nat)
    requires Prime(p) && 0 < a < p
    ensures k * a % p == 1
  {
    var i, m := Bezout(p, a);
    k := i % p;
    var q := i / p;
    assert i == p * q + k;
    assert k * a == 1 + p * (m - a * q);
    DivModUnique(k * a, p, m - a * q, 1);
  }

  lemma EuclidDivides(p: int, a: int, b: int)
    requires Prime(p) && Divides(p, a * b) && 0 < a < p
    ensures Divides(p, b)
  {
    var k: int :| a * b == p * k;
    var m := Euclid(p, a, b, k);
  }

  lemma ModDivides(n: int, d: int)
    requires d > 0
    ensures Divides(d, n) <==> n % d == 0
  {
    if n % d == 0 {
      assert n == d * (n / d);
    }
    if Divides(d, n) {
      var k: int :| n == d * k;
      DivModUnique(n, d, k, 0);
    }
  }

  /** Numbers with the same remainder differ by a multiple. */
  lemma SameRemainder(a: int, b: int, d: int)
    requires d > 0
    ensures a % d == b % d <==> Divides(d, a - b)
  {
    var qa, qb := a / d, b / d;
    assert a == d * qa + a % d && b == d * qb + b % d;
    if a % d == b % d {
      assert a - b == d * (qa - qb);
    }
    if Divides(d, a - b) {
      var k: int :| a - b == d * k;
      assert a == d * (qb + k) + b % d;
      DivModUnique(a, d, qb + k, b % d);
    }
  }

  /** Adding the same to two reduced numbers keeps them apart. */
  lemma SameAddend(a: nat, b: nat, k: nat, n: nat)
    requires b < n && k < n
    ensures (a + b) % n == (a + k) % n <==> b == k
  {
    hide Divides;
    SameRemainder(a + b, a + k, n);
    SameRemainder(b, k, n);
    ModFits(b, n);
    ModFits(k, n);
    assert (a + b) - (a + k) == b - k;
  }

  /** The negative of a reduced number. */
  function Negate(y: nat, p: nat): (n: nat)
    requires y < p
    ensures n < p
  {
    if y == 0 then 0 else p - y
  }

  function Square(y: nat, p: nat): (v: nat)
    requires p > 0
    ensures v < p
  {
    y * y % p
  }

  lemma NegateSquare(y: nat, p: nat)
    requires y < p
    ensures Square(Negate(y, p), p) == Square(y, p)
  {
    if y > 0 {
      assert (p - y) * (p - y) - y * y == p * (p - 2 * y);
      assert Divides(p, (p - y) * (p - y) - y * y);
      SameRemainder((p - y) * (p - y), y * y, p);
    }
  }

  lemma OnlyMultiple(p: int, n: int, k: int)
    requires n == p * k && 0 < n < 2 * p
    ensures n == p
  {
    MulMonotone(2, k, p);
    MulMonotone(k, 0, p);
  }

  lemma FactorsApart(p: int, d: int, sum: int)
    requires Prime(p) && 0 < d < p && 0 < sum < 2 * p && Divides(p, d * sum)
    ensures sum == p
  {
    EuclidDivides(p, d, sum);
    var k: int :| sum == p * k;
    OnlyMultiple(p, sum, k);
  }

  lemma DifferenceOfSquares(high: int, low: int)
    ensures (high - low) * (high + low) == high * high - low * low
  {}

  lemma RootsApart(p: int, high: int, low: int)
    requires Prime(p) && 0 <= low < high < p
    requires Divides(p, high * high - low * low)
    ensures high + low == p
  {
    DifferenceOfSquares(high, low);
    FactorsApart(p, high - low, high + low);
  }

  /** A number has at most two square roots modulo a prime, each the negative of the other. */
  lemma TwoRoots(p: nat, y: nat, r: nat)
    requires Prime(p) && y < p && r < p && Square(y, p) == Square(r, p)
    ensures y == r || y == Negate(r, p)
  {
    if y > r {
      SameRemainder(y * y, r * r, p);
      RootsApart(p, y, r);
    } else if y < r {
      SameRemainder(r * r, y * y, p);
      RootsApart(p, r, y);
    }
  }
}
