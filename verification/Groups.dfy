/** Groups of prime order, written additively, as the curve libraries provide them. */
module Groups {
  import opened Arithmetic
  import opened NumberTheory

  /** A group element. */
  type Point(==, !new)

  datatype Group = Group(zero: Point, add: (Point, Point) -> Point, neg: Point -> Point, g: Point, order: nat)

  ghost predicate Associative(c: Group) {
    forall x: Point, y: Point, z: Point :: c.add(c.add(x, y), z) == c.add(x, c.add(y, z))
  }

  ghost predicate Commutative(c: Group) {
    forall x: Point, y: Point :: c.add(x, y) == c.add(y, x)
  }

  ghost predicate Inverses(c: Group) {
    forall x: Point :: c.add(x, c.zero) == x && c.add(x, c.neg(x)) == c.zero
  }

  /** The order is prime, kills every element, and the generator is not zero. */
  ghost predicate PrimeOrder(c: Group) {
    && Associative(c) && Commutative(c) && Inverses(c)
    && Prime(c.order) && c.g != c.zero
    && forall x: Point :: Mul(c, c.order, x) == c.zero
  }

  /** `n` times `x`. */
  function Mul(c: Group, n: nat, x: Point): (y: Point)
  {
    if n == 0 then c.zero else c.add(x, Mul(c, n - 1, x))
  }

  function Sub(c: Group, x: Point, y: Point): (z: Point) {
    c.add(x, c.neg(y))
  }

  // ----- the laws, one instance at a time

  lemma Assoc(c: Group, x: Point, y: Point, z: Point)
    requires PrimeOrder(c)
    ensures c.add(c.add(x, y), z) == c.add(x, c.add(y, z))
  {}

  lemma Comm(c: Group, x: Point, y: Point)
    requires PrimeOrder(c)
    ensures c.add(x, y) == c.add(y, x)
  {}

  lemma Unit(c: Group, x: Point)
    requires PrimeOrder(c)
    ensures c.add(x, c.zero) == x && c.add(c.zero, x) == x && c.add(x, c.neg(x)) == c.zero && c.order > 1
  {
    assert Commutative(c) && c.add(c.zero, x) == c.add(x, c.zero);
  }

  /** Adding the same on the left can be undone. */
  lemma Cancel(c: Group, x: Point, y: Point, z: Point)
    requires PrimeOrder(c) && c.add(x, y) == c.add(x, z)
    ensures y == z
  {
    CancelStep(c, x, y);
    CancelStep(c, x, z);
  }

  lemma CancelStep(c: Group, x: Point, y: Point)
    requires PrimeOrder(c)
    ensures c.add(c.neg(x), c.add(x, y)) == y
  {
    Assoc(c, c.neg(x), x, y);
    Comm(c, c.neg(x), x);
    Unit(c, x);
    Unit(c, y);
  }

  /** Subtracting what was added gives the rest. */
  lemma SubSum(c: Group, x: Point, y: Point)
    requires PrimeOrder(c)
    ensures Sub(c, c.add(x, y), x) == y
  {
    Comm(c, c.add(x, y), c.neg(x));
    CancelStep(c, x, y);
  }

  // ----- multiples

  lemma {:induction false} MulAdd(c: Group, m: nat, n: nat, x: Point)
    requires PrimeOrder(c)
    ensures Mul(c, m + n, x) == c.add(Mul(c, m, x), Mul(c, n, x))
  {
    hide PrimeOrder;
    if m == 0 {
      Unit(c, Mul(c, n, x));
    } else {
      MulAdd(c, m - 1, n, x);
      Assoc(c, x, Mul(c, m - 1, x), Mul(c, n, x));
    }
  }

  lemma {:induction false} MulZero(c: Group, n: nat)
    requires PrimeOrder(c)
    ensures Mul(c, n, c.zero) == c.zero
  {
    hide PrimeOrder;
    if n > 0 {
      MulZero(c, n - 1);
      Unit(c, c.zero);
    }
  }

  lemma {:induction false} MulMul(c: Group, m: nat, n: nat, x: Point)
    requires PrimeOrder(c)
    ensures Mul(c, m * n, x) == Mul(c, m, Mul(c, n, x))
  {
    hide PrimeOrder;
    if m > 0 {
      assert m * n == n + (m - 1) * n;
      MulMul(c, m - 1, n, x);
      MulAdd(c, n, (m - 1) * n, x);
    }
  }

  /** Where a multiple is killed, only the remainder counts. */
  lemma DropKilled(c: Group, total: nat, k: nat, n: nat, r: nat, x: Point)
    requires PrimeOrder(c) && total == k * n + r && Mul(c, n, x) == c.zero
    ensures Mul(c, total, x) == Mul(c, r, x)
  {
    hide PrimeOrder, Mul;
    var product := k * n;
    assert product >= 0;
    MulAdd(c, product, r, x);
    MulMul(c, k, n, x);
    MulZero(c, k);
    Unit(c, Mul(c, r, x));
  }

  lemma OrderKills(c: Group, x: Point)
    requires PrimeOrder(c)
    ensures c.order > 1 && Mul(c, c.order, x) == c.zero
  {}

  lemma GeneratorNotZero(c: Group)
    requires PrimeOrder(c)
    ensures c.g != c.zero && c.order > 1
  {}

  lemma NoDivisor(c: Group, n: nat)
    requires PrimeOrder(c) && 1 < n < c.order
    ensures c.order % n != 0
  {
    assert Prime(c.order) && !Divides(n, c.order);
    hide *;
    ModDivides(c.order, n);
  }

  lemma Division(n: nat, d: nat)
    requires d > 0
    ensures n == (n / d) * d + n % d
  {}

  /** Multiples by numbers with the same remainder are the same. */
  lemma MulMod(c: Group, n: nat, x: Point)
    requires PrimeOrder(c)
    ensures c.order > 1 && Mul(c, n % c.order, x) == Mul(c, n, x)
  {
    hide PrimeOrder, Mul;
    OrderKills(c, x);
    Division(n, c.order);
    DropKilled(c, n, n / c.order, c.order, n % c.order, x);
  }

  /** By descent: an element killed by a number strictly between zero and the order is zero. */
  lemma {:induction false} SmallMultiple(c: Group, n: nat, x: Point)
    requires PrimeOrder(c) && 0 < n < c.order && Mul(c, n, x) == c.zero
    ensures x == c.zero
    decreases n
  {
    hide PrimeOrder;
    if n == 1 {
      assert Mul(c, 1, x) == c.add(x, Mul(c, 0, x));
      Unit(c, x);
    } else {
      OrderKills(c, x);
      NoDivisor(c, n);
      Division(c.order, n);
      hide Mul;
      DropKilled(c, c.order, c.order / n, n, c.order % n, x);
      SmallMultiple(c, c.order % n, x);
    }
  }

  /** A multiple of a non-zero element is zero exactly for multiples of the order. */
  lemma MulZeroIff(c: Group, n: nat, x: Point)
    requires PrimeOrder(c) && x != c.zero
    ensures Mul(c, n, x) == c.zero <==> n % c.order == 0
  {
    MulMod(c, n, x);
    if n % c.order != 0 && Mul(c, n, x) == c.zero {
      SmallMultiple(c, n % c.order, x);
    }
  }

  lemma Different(c: Group, m: nat, n: nat, x: Point)
    requires PrimeOrder(c) && x != c.zero && m < n < c.order
    ensures Mul(c, m, x) != Mul(c, n, x)
  {
    hide PrimeOrder;
    var d: nat := n - m;
    if Mul(c, m, x) == Mul(c, n, x) {
      DifferenceKills(c, m, n, x);
      SmallMultiple(c, d, x);
    }
  }

  /** Reduced multiples of a non-zero element are all different. */
  lemma MulInjective(c: Group, m: nat, n: nat, x: Point)
    requires PrimeOrder(c) && x != c.zero && m < c.order && n < c.order
    ensures Mul(c, m, x) == Mul(c, n, x) <==> m == n
  {
    hide PrimeOrder;
    if m < n {
      Different(c, m, n, x);
    } else if n < m {
      Different(c, n, m, x);
    }
  }

  lemma DifferenceKills(c: Group, m: nat, n: nat, x: Point)
    requires PrimeOrder(c) && m < n && Mul(c, m, x) == Mul(c, n, x)
    ensures Mul(c, n - m, x) == c.zero
  {
    hide PrimeOrder;
    MulAdd(c, m, n - m, x);
    Unit(c, Mul(c, m, x));
    Cancel(c, Mul(c, m, x), Mul(c, n - m, x), c.zero);
  }

  /** A reduced linear combination of scalars is the combination of the multiples. */
  lemma LinearCombination(c: Group, r: nat, h: nat, a: nat, x: Point)
    requires PrimeOrder(c)
    ensures c.order > 0 && Mul(c, (r + h * a) % c.order, x) == c.add(Mul(c, h, Mul(c, a, x)), Mul(c, r, x))
  {
    hide PrimeOrder, Mul;
    var product := h * a;
    assert product >= 0;
    MulMod(c, r + product, x);
    MulAdd(c, r, product, x);
    MulMul(c, h, a, x);
    Comm(c, Mul(c, r, x), Mul(c, product, x));
  }

  // ----- subtraction and division

  /** The difference is what has to be added. */
  lemma SubIff(c: Group, r: Point, x: Point, y: Point)
    requires PrimeOrder(c)
    ensures r == Sub(c, x, y) <==> c.add(r, y) == x
  {
    hide PrimeOrder;
    Comm(c, r, y);
    SubSum(c, y, r);
    Assoc(c, x, c.neg(y), y);
    Comm(c, c.neg(y), y);
    Unit(c, y);
    Unit(c, x);
  }

  lemma One(c: Group, x: Point)
    requires PrimeOrder(c)
    ensures Mul(c, 1, x) == x
  {
    assert Mul(c, 1, x) == c.add(x, Mul(c, 0, x));
    hide PrimeOrder, Mul;
    Unit(c, x);
  }

  /** `k` times `a` is one modulo the order. */
  predicate Inverse(a: nat, k: nat, order: nat)
    requires order > 0
  {
    k * a % order == 1
  }

  /** Multiplying by an inverse undoes a multiplication. */
  lemma Undo(c: Group, a: nat, k: nat, x: Point)
    requires PrimeOrder(c) && c.order > 0 && Inverse(a, k, c.order)
    ensures Mul(c, k, Mul(c, a, x)) == x
  {
    hide PrimeOrder, Mul;
    MulMul(c, k, a, x);
    var product := k * a;
    assert product >= 0;
    MulMod(c, product, x);
    One(c, x);
  }

  /** The difference of two multipliers, modulo the order. */
  function Gap(order: nat, s: nat, s': nat): (e: nat)
    requires order > 0
  {
    MulNonNegative(order - 1, s');
    s + (order - 1) * s'
  }

  /** Two answers to different challenges for one commitment relate the two points. */
  lemma TwoAnswers(c: Group, r: Point, v: Point, b: Point, h: nat, s: nat, h': nat, s': nat)
    requires PrimeOrder(c) && h' < h
    requires c.add(r, Mul(c, h, v)) == Mul(c, s, b) && c.add(r, Mul(c, h', v)) == Mul(c, s', b)
    ensures c.order > 1 && Mul(c, h - h', v) == Mul(c, Gap(c.order, s, s'), b)
  {
    hide PrimeOrder, Mul;
    OrderKills(c, b);
    var d, e := h - h', Gap(c.order, s, s');
    calc {
      c.add(Mul(c, s', b), Mul(c, d, v));
      { Assoc(c, r, Mul(c, h', v), Mul(c, d, v)); }
      c.add(r, c.add(Mul(c, h', v), Mul(c, d, v)));
      { MulAdd(c, h', d, v); }
      Mul(c, s, b);
      { DropKilled(c, s' * c.order + s, s', c.order, s, b); }
      Mul(c, s' * c.order + s, b);
      { assert s' * c.order + s == s' + e; }
      Mul(c, s' + e, b);
      { MulAdd(c, s', e, b); }
      c.add(Mul(c, s', b), Mul(c, e, b));
    }
    Cancel(c, Mul(c, s', b), Mul(c, d, v), Mul(c, e, b));
  }
}
