/**
  Point compression of BN254 public keys, over any odd prime below 2^255 and any correct square
  root, and the reading of secret scalars.
 */
module Bn254 {
  import opened Arithmetic
  import opened Wrappers
  import opened Bytes
  import opened NumberTheory
  import opened Primitives

  /** An affine point; the point at infinity is no value of this type. */
  datatype Point = Point(x: nat, y: nat)

  const B: nat := 3

  ghost predicate OddPrime(p: nat) {
    p > 2 && Prime(p) && p % 2 == 1 && 2 * p <= Pow256(32)
  }

  /** The right-hand side of the curve equation. */
  function Cubic(x: nat, p: nat): (v: nat)
    requires p > 0
    ensures v < p
  {
    (x * x * x + B) % p
  }

  predicate OnCurve(pt: Point, p: nat)
    requires p > 0
  {
    pt.x < p && pt.y < p && Square(pt.y, p) == Cubic(pt.x, p)
  }

  /** A square root function finds a root of every number that has one. */
  ghost predicate SquareRoot(sqrt: nat -> Option<nat>, p: nat)
    requires p > 0
  {
    forall a: nat :: a < p ==>
      match sqrt(a)
      case Some(r) => r < p && Square(r, p) == a
      case None => forall y: nat :: y < p ==> Square(y, p) != a
  }

  /** A fully reduced big-endian field element, and nothing else. */
  function CanonicalFq(bytes: word, p: nat): (r: Option<nat>)
    requires p > 0
  {
    var element := FromBE(bytes) % p;
    if ToBE(element, 32) == bytes then Some(element) else None
  }

  function Masked(bytes: word): (x: word) {
    [bytes[0] % 128] + bytes[1..]
  }

  function Decompress(bytes: word, p: nat, sqrt: nat -> Option<nat>): (r: Option<Point>)
    requires p > 0
  {
    var yIsOdd := bytes[0] >= 128;
    match CanonicalFq(Masked(bytes), p)
    case None => None
    case Some(x) =>
      match sqrt(Cubic(x, p))
      case None => None
      case Some(root) =>
        if root >= p then None // a root function returns reduced numbers
        else Some(Point(x, if (root % 2 == 1) == yIsOdd then root else Negate(root, p)))
  }

  function SetSignBit(b: byte): (r: byte) {
    if b >= 128 then b else b + 128
  }

  function Compress(pt: Point): (bytes: word) {
    var x := ToBE(pt.x, 32);
    if pt.y % 2 == 1 then [SetSignBit(x[0])] + x[1..] else x
  }

  /** The buffer the compressed form is written to. */
  method ToBytes(pt: Point) returns (ret: array<byte>)
    ensures fresh(ret) && ret[..] == Compress(pt)
  {
    var x := ToBE(pt.x, 32);
    ret := new byte[32](i requires 0 <= i < 32 => x[i]);
    assert ret[..] == x;
    if pt.y % 2 == 1 {
      ret[0] := SetSignBit(ret[0]);
    }
  }

  // ----- reduced elements and the sign bit

  lemma CanonicalIsReduced(bytes: word, p: nat)
    requires 0 < p <= Pow256(32)
    ensures CanonicalFq(bytes, p) == if FromBE(bytes) < p then Some(FromBE(bytes)) else None
  {
    hide Pow256;
    var v := FromBE(bytes);
    ToFromBE(bytes);
    ModFits(v, p);
    FromToBE(v % p, 32);
  }

  lemma FirstByte(bytes: word)
    ensures FromBE(bytes) == bytes[0] * Pow256(31) + FromBE(bytes[1..]) && FromBE(bytes[1..]) < Pow256(31)
  {
    assert [bytes[0]][..0] == [];
    assert FromBE([bytes[0]]) == bytes[0];
    hide Pow256, FromBE;
    assert bytes == [bytes[0]] + bytes[1..];
    FromBEConcat([bytes[0]], bytes[1..]);
    FromBEBound(bytes[1..]);
  }

  lemma TopHalf(b: nat, q: nat, x: nat)
    requires b * q <= x < 128 * q
    ensures b < 128
  {
    MulMonotone(128, b, q);
  }

  /** A reduced element leaves the sign bit clear. */
  lemma SignBitClear(x: nat, p: nat)
    requires x < p && 2 * p <= Pow256(32)
    ensures ToBE(x, 32)[0] < 128 && FromBE(ToBE(x, 32)) == x
  {
    assert Pow256(32) == 256 * Pow256(31);
    hide *;
    FromToBE(x, 32);
    FirstByte(ToBE(x, 32));
    TopHalf(ToBE(x, 32)[0], Pow256(31), x);
  }

  lemma CompressedParts(pt: Point, p: nat)
    requires pt.x < p && 2 * p <= Pow256(32)
    ensures Masked(Compress(pt)) == ToBE(pt.x, 32)
    ensures Compress(pt)[0] >= 128 <==> pt.y % 2 == 1
  {
    hide ToBE, FromBE, Pow256;
    SignBitClear(pt.x, p);
    var x := ToBE(pt.x, 32);
    assert x == [x[0]] + x[1..];
  }

  lemma MaskedParts(bytes: word)
    ensures bytes == if bytes[0] >= 128 then [SetSignBit(Masked(bytes)[0])] + Masked(bytes)[1..] else Masked(bytes)
  {}

  // ----- the main results

  /** Exactly the strings whose masked x is reduced and lies on the curve are accepted. */
  lemma DecompressAccepts(bytes: word, p: nat, sqrt: nat -> Option<nat>)
    requires OddPrime(p) && SquareRoot(sqrt, p)
    ensures var x := FromBE(Masked(bytes));
            Decompress(bytes, p, sqrt).Some? <==> x < p && exists y: nat :: OnCurve(Point(x, y), p)
  {
    hide Cubic, Square, Prime, Pow256;
    CanonicalIsReduced(Masked(bytes), p);
    var x := FromBE(Masked(bytes));
    if x < p {
      var root := sqrt(Cubic(x, p));
      if root.Some? {
        assert OnCurve(Point(x, root.value), p);
      }
    }
  }

  /**
    What is accepted denotes a point of the curve, with the x of the string and the parity its sign
    bit says, unless y is zero.
   */
  lemma DecompressedPoint(bytes: word, p: nat, sqrt: nat -> Option<nat>)
    requires OddPrime(p) && SquareRoot(sqrt, p) && Decompress(bytes, p, sqrt).Some?
    ensures var pt := Decompress(bytes, p, sqrt).value;
            && OnCurve(pt, p) && pt.x == FromBE(Masked(bytes))
            && (pt.y != 0 ==> (pt.y % 2 == 1 <==> bytes[0] >= 128))
  {
    hide Cubic, Square, Prime, Pow256;
    CanonicalIsReduced(Masked(bytes), p);
    var root := sqrt(Cubic(FromBE(Masked(bytes)), p)).value;
    NegateSquare(root, p);
  }

  /** Every point of the curve survives compression. */
  lemma DecompressCompress(pt: Point, p: nat, sqrt: nat -> Option<nat>)
    requires OddPrime(p) && SquareRoot(sqrt, p) && OnCurve(pt, p)
    ensures Decompress(Compress(pt), p, sqrt) == Some(pt)
  {
    hide Cubic, Square, Prime, Pow256, FromBE, ToBE, CanonicalFq;
    CompressedParts(pt, p);
    SignBitClear(pt.x, p);
    CanonicalIsReduced(ToBE(pt.x, 32), p);
    var root := sqrt(Cubic(pt.x, p)).value;
    TwoRoots(p, pt.y, root);
  }

  /** An accepted string is the compression of its point, except when y is zero and the sign bit is set. */
  lemma CompressDecompress(bytes: word, p: nat, sqrt: nat -> Option<nat>)
    requires OddPrime(p) && SquareRoot(sqrt, p) && Decompress(bytes, p, sqrt).Some?
    ensures var pt := Decompress(bytes, p, sqrt).value;
            Compress(pt) == bytes <==> pt.y != 0 || bytes[0] < 128
  {
    hide Cubic, Square, Prime, Pow256;
    DecompressedPoint(bytes, p, sqrt);
    ToFromBE(Masked(bytes));
    MaskedParts(bytes);
    var pt := Decompress(bytes, p, sqrt).value;
    CompressedParts(pt, p);
  }

  /** No point of the curve has y zero; this holds for BN254, where -3 is no cube. */
  ghost predicate NoRoot(p: nat)
    requires p > 0
  {
    forall x: nat :: x < p ==> Cubic(x, p) != 0
  }

  lemma NeverZero(pt: Point, p: nat)
    requires p > 0 && NoRoot(p) && OnCurve(pt, p)
    ensures pt.y != 0
  {
    hide Cubic;
    assert Square(0, p) == 0;
  }

  /** Where x^3 + 3 has no root, accepted strings and curve points correspond one to one. */
  lemma CompressionIsBijective(a: word, b: word, p: nat, sqrt: nat -> Option<nat>)
    requires p > 0 && OddPrime(p) && SquareRoot(sqrt, p) && NoRoot(p)
    requires Decompress(a, p, sqrt).Some? && Decompress(b, p, sqrt).Some?
    ensures Compress(Decompress(a, p, sqrt).value) == a
    ensures Decompress(a, p, sqrt) == Decompress(b, p, sqrt) ==> a == b
  {
    hide *;
    DecompressedPoint(a, p, sqrt);
    DecompressedPoint(b, p, sqrt);
    NeverZero(Decompress(a, p, sqrt).value, p);
    NeverZero(Decompress(b, p, sqrt).value, p);
    CompressDecompress(a, p, sqrt);
    CompressDecompress(b, p, sqrt);
  }

  // ----- small fields that show the laws can be met, and what a root of x^3 + 3 does

  lemma NotDivisor(d: int, p: int)
    requires (p == 5 || p == 7) && 1 < d < p
    ensures p % d != 0
  {
    if d == 2 {} else if d == 3 {} else if d == 4 {} else if d == 5 {} else {}
  }

  lemma SmallPrime(p: nat)
    requires p == 5 || p == 7
    ensures Prime(p)
  {
    hide Divides;
    forall d: int | 1 < d < p ensures !Divides(d, p) {
      NotDivisor(d, p);
      ModDivides(p, d);
    }
  }

  lemma SmallOddPrime(p: nat)
    requires p == 5 || p == 7
    ensures OddPrime(p)
  {
    hide Pow256, Prime;
    SmallPrime(p);
    Widths();
  }

  function RootOfSeven(a: nat): (r: Option<nat>) {
    if a == 0 then Some(0) else if a == 1 then Some(1) else if a == 2 then Some(3) else if a == 4 then Some(2) else None
  }

  function RootOfFive(a: nat): (r: Option<nat>) {
    if a == 0 then Some(0) else if a == 1 then Some(1) else if a == 4 then Some(2) else None
  }

  lemma ValuesModSeven(y: nat)
    requires y < 7
    ensures Square(y, 7) == [0, 1, 4, 2, 2, 4, 1][y] && Cubic(y, 7) == [3, 4, 4, 2, 4, 2, 2][y]
  {
    if y == 0 {} else if y == 1 {} else if y == 2 {} else if y == 3 {} else if y == 4 {} else if y == 5 {} else {}
  }

  lemma ValuesModFive(y: nat)
    requires y < 5
    ensures Square(y, 5) == [0, 1, 4, 4, 1][y] && Cubic(3, 5) == 0
  {
    if y == 0 {} else if y == 1 {} else if y == 2 {} else if y == 3 {} else {}
  }

  lemma SevenHasRoots()
    ensures SquareRoot(RootOfSeven, 7)
  {
    forall y: nat | y < 7 ensures Square(y, 7) == [0, 1, 4, 2, 2, 4, 1][y] {
      ValuesModSeven(y);
    }
    hide Square, Cubic;
  }

  /** Modulo seven all the laws hold and the curve has points, so none of the results is empty. */
  lemma LawsHoldForSeven()
    ensures OddPrime(7) && SquareRoot(RootOfSeven, 7) && NoRoot(7) && OnCurve(Point(1, 2), 7)
  {
    hide Square, Cubic, OddPrime, SquareRoot;
    SmallOddPrime(7);
    SevenHasRoots();
    forall x: nat | x < 7 ensures Cubic(x, 7) != 0 {
      ValuesModSeven(x);
    }
    ValuesModSeven(1);
    ValuesModSeven(2);
  }

  lemma ThreeInBytes()
    ensures FromBE(Zeros(31) + [3]) == 3 && ToBE(3, 32) == Zeros(31) + [3]
  {
    assert FromBE([3]) == 3 by {
      assert [3][..0] == [];
    }
    hide FromBE, ToBE, Pow256;
    FromBEPadded(31, [3]);
    Widths();
    ToBEPadded([3], 32);
  }

  /** Modulo five, x = 3 is a root: the string with the sign bit set is accepted but not re-encoded to itself. */
  lemma SignBitOfZeroIsLost()
    ensures var bytes := [128] + Zeros(30) + [3];
            && Decompress(bytes, 5, RootOfFive) == Some(Point(3, 0))
            && Compress(Point(3, 0)) == Zeros(31) + [3] != bytes
  {
    hide FromBE, ToBE, Pow256, Square, Cubic;
    var bytes := [128] + Zeros(30) + [3];
    assert Masked(bytes) == Zeros(31) + [3];
    ThreeInBytes();
    assert CanonicalFq(Masked(bytes), 5) == Some(3);
    ValuesModFive(0);
  }

  // ----- affine coordinates

  function FromAffine(x: word, y: word, p: nat): (r: Option<word>)
    requires p > 0
  {
    match (CanonicalFq(x, p), CanonicalFq(y, p))
    case (Some(fx), Some(fy)) => if OnCurve(Point(fx, fy), p) then Some(Compress(Point(fx, fy))) else None
    case _ => None
  }

  function ToAffine(key: word, p: nat, sqrt: nat -> Option<nat>): (r: Option<(word, word)>)
    requires p > 0
  {
    match Decompress(key, p, sqrt)
    case None => None
    case Some(pt) => Some((ToBE(pt.x, 32), ToBE(pt.y, 32)))
  }

  /** Coordinates are accepted exactly when both are reduced and on the curve, and the key gives them back. */
  lemma AffineRoundTrip(x: word, y: word, p: nat, sqrt: nat -> Option<nat>)
    requires OddPrime(p) && SquareRoot(sqrt, p)
    ensures FromAffine(x, y, p).Some? <==>
            FromBE(x) < p && FromBE(y) < p && OnCurve(Point(FromBE(x), FromBE(y)), p)
    ensures FromAffine(x, y, p).Some? ==> ToAffine(FromAffine(x, y, p).value, p, sqrt) == Some((x, y))
  {
    hide Cubic, Square, Prime, Pow256;
    CanonicalIsReduced(x, p);
    CanonicalIsReduced(y, p);
    if FromAffine(x, y, p).Some? {
      DecompressCompress(Point(FromBE(x), FromBE(y)), p, sqrt);
      ToFromBE(x);
      ToFromBE(y);
    }
  }

  /** A key's coordinates rebuild the key. */
  lemma KeyRoundTrip(key: word, p: nat, sqrt: nat -> Option<nat>)
    requires OddPrime(p) && SquareRoot(sqrt, p) && NoRoot(p) && ToAffine(key, p, sqrt).Some?
    ensures var (x, y) := ToAffine(key, p, sqrt).value; FromAffine(x, y, p) == Some(key)
  {
    hide Cubic, Square, Prime, Pow256;
    DecompressedPoint(key, p, sqrt);
    CompressDecompress(key, p, sqrt);
    NeverZero(Decompress(key, p, sqrt).value, p);
    var pt := Decompress(key, p, sqrt).value;
    FromToBE(pt.x, 32);
    FromToBE(pt.y, 32);
    CanonicalIsReduced(ToBE(pt.x, 32), p);
    CanonicalIsReduced(ToBE(pt.y, 32), p);
  }

  // ----- secret scalars

  function FromLE(s: seq<byte>): (v: nat)
  {
    if s == [] then 0 else s[0] + 256 * FromLE(s[1..])
  }

  function Reverse(s: seq<byte>): (r: seq<byte>)
    ensures |r| == |s|
  {
    if s == [] then [] else Reverse(s[1..]) + [s[0]]
  }

  lemma {:induction false} FromLEReversed(s: seq<byte>)
    ensures FromBE(Reverse(s)) == FromLE(s)
  {
    if s != [] {
      FromLEReversed(s[1..]);
      assert Reverse(s)[..|s| - 1] == Reverse(s[1..]);
    }
  }

  lemma Scale(power: nat, value: nat)
    ensures 256 * (power * value) == (256 * power) * value
  {}

  lemma {:induction false} FromLEConcat(s: seq<byte>, t: seq<byte>)
    ensures FromLE(s + t) == FromLE(s) + Pow256(|s|) * FromLE(t)
  {
    if s == [] {
      assert s + t == t;
    } else {
      FromLEConcat(s[1..], t);
      assert (s + t)[1..] == s[1..] + t;
      assert Pow256(|s|) == 256 * Pow256(|s| - 1);
      assert FromLE(s + t) == s[0] + 256 * FromLE(s[1..] + t);
      hide *;
      Scale(Pow256(|s| - 1), FromLE(t));
    }
  }

  const LIMB: nat := 0x1_0000_0000_0000_0000

  /** The number four little-endian limbs denote. */
  function LimbValue(limbs: seq<u64>): (v: nat)
  {
    if limbs == [] then 0 else limbs[0] + LIMB * LimbValue(limbs[1..])
  }

  lemma {:induction false} LimbValueAppend(limbs: seq<u64>, x: u64)
    ensures LimbValue(limbs + [x]) == LimbValue(limbs) + Pow256(8 * |limbs|) * x
  {
    if limbs == [] {
      assert limbs + [x] == [x];
    } else {
      assert (limbs + [x])[1..] == limbs[1..] + [x];
      LimbValueAppend(limbs[1..], x);
      Widths();
      Pow256Add(8, 8 * (|limbs| - 1));
      var p := Pow256(8 * (|limbs| - 1));
      assert LIMB * (p * x) == (LIMB * p) * x;
    }
  }

  lemma FromLEBound(s: seq<byte>)
    ensures FromLE(s) < Pow256(|s|)
  {
    FromLEReversed(s);
    FromBEBound(Reverse(s));
  }

  /** Fills the limbs from the eight-byte chunks of the secret. */
  method Limbs(bytes: word) returns (limbs: array<u64>)
    ensures fresh(limbs) && limbs.Length == 4 && LimbValue(limbs[..]) == FromLE(bytes)
  {
    limbs := new u64[4](_ => 0);
    for i := 0 to 4
      invariant LimbValue(limbs[..i]) == FromLE(bytes[..8 * i])
    {
      var chunk := bytes[8 * i..8 * i + 8];
      FromLEBound(chunk);
      Widths();
      limbs[i] := FromLE(chunk);
      assert limbs[..i + 1] == limbs[..i] + [limbs[i]];
      LimbValueAppend(limbs[..i], limbs[i]);
      assert bytes[..8 * (i + 1)] == bytes[..8 * i] + chunk;
      FromLEConcat(bytes[..8 * i], chunk);
    }
    assert limbs[..] == limbs[..4] && bytes == bytes[..32];
  }

  /** Multiples of the generator; the point at infinity is no key. */
  type Multiplier = nat -> Option<Point>

  function FromPrivkey(secret: seq<byte>, order: nat, mulG: Multiplier): (key: Option<word>)
    requires order > 0
  {
    if |secret| != 32 || FromLE(secret) >= order then None
    else
      match mulG(FromLE(secret) % order)
      case None => None
      case Some(pt) => Some(Compress(pt))
  }

  method FromPrivkeyLimbs(secret: seq<byte>, order: nat, mulG: Multiplier) returns (key: Option<word>)
    requires order > 0
    ensures key == FromPrivkey(secret, order, mulG)
  {
    if |secret| != 32 {
      return None;
    }
    var limbs := Limbs(secret);
    if LimbValue(limbs[..]) >= order {
      return None;
    }
    match mulG(FromLE(secret) % order)
    case None => return None;
    case Some(pt) => return Some(Compress(pt));
  }

  function FromPrivkeyBE(secret: seq<byte>, order: nat, mulG: Multiplier): (key: Option<word>)
    requires order > 0
  {
    FromPrivkey(Reverse(secret), order, mulG)
  }

  lemma {:induction false} ReverseTwice(s: seq<byte>)
    ensures Reverse(Reverse(s)) == s
  {
    if s != [] {
      ReverseTwice(s[1..]);
      ReverseAppend(Reverse(s[1..]), s[0]);
      assert s == [s[0]] + s[1..];
    }
  }

  lemma {:induction false} ReverseAppend(s: seq<byte>, b: byte)
    ensures Reverse(s + [b]) == [b] + Reverse(s)
  {
    if s != [] {
      assert (s + [b])[1..] == s[1..] + [b];
      ReverseAppend(s[1..], b);
    }
  }

  /** A group of this order: its multiples are points of the curve, all different, none at infinity but the zeroth. */
  ghost predicate Generates(mulG: Multiplier, order: nat, p: nat)
    requires p > 0
  {
    forall s: nat, t: nat :: s < order && t < order ==>
      && (mulG(s).None? <==> s == 0)
      && (mulG(s).Some? ==> OnCurve(mulG(s).value, p))
      && (mulG(s) == mulG(t) ==> s == t)
  }

  lemma ScalarAccepted(secret: seq<byte>, order: nat, mulG: Multiplier, p: nat)
    requires order > 0 && p > 0 && Generates(mulG, order, p)
    ensures FromPrivkey(secret, order, mulG) ==
            if |secret| == 32 && 0 < FromLE(secret) < order then Some(Compress(mulG(FromLE(secret)).value)) else None
  {
    hide OnCurve, Compress;
    ModFits(FromLE(secret), order);
  }

  /** Exactly the non-zero reduced scalars are accepted, in either byte order. */
  lemma PrivkeyAccepts(secret: seq<byte>, order: nat, mulG: Multiplier, p: nat)
    requires order > 0 && p > 0 && Generates(mulG, order, p)
    ensures FromPrivkey(secret, order, mulG).Some? <==> |secret| == 32 && 0 < FromLE(secret) < order
    ensures FromPrivkeyBE(secret, order, mulG).Some? <==> |secret| == 32 && 0 < FromBE(secret) < order
  {
    hide OnCurve, Compress, FromPrivkey, Generates;
    ScalarAccepted(secret, order, mulG, p);
    ScalarAccepted(Reverse(secret), order, mulG, p);
    FromLEReversed(Reverse(secret));
    ReverseTwice(secret);
  }

  /** A key has one accepted secret only: two secrets with the same key are the same bytes. */
  lemma PrivkeyInjective(s: seq<byte>, t: seq<byte>, order: nat, mulG: Multiplier, p: nat, sqrt: nat -> Option<nat>)
    requires order > 0 && OddPrime(p) && SquareRoot(sqrt, p) && Generates(mulG, order, p)
    requires FromPrivkey(s, order, mulG).Some? && FromPrivkey(s, order, mulG) == FromPrivkey(t, order, mulG)
    ensures s == t
  {
    ScalarAccepted(s, order, mulG, p);
    ScalarAccepted(t, order, mulG, p);
    var a, b := FromLE(s), FromLE(t);
    hide OnCurve, Compress, FromPrivkey, SquareRoot, Prime, Decompress;
    DecompressCompress(mulG(a).value, p, sqrt);
    DecompressCompress(mulG(b).value, p, sqrt);
    FromLEReversed(s);
    FromLEReversed(t);
    FromBEInjective(Reverse(s), Reverse(t));
    ReverseTwice(s);
    ReverseTwice(t);
  }
}
