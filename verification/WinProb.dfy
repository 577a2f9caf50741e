/**
  Winning probabilities in seven bytes: the encoded number is the largest winning luck, and the
  conversions to and from doubles drop or fill its low four bits.
 */
module WinProb {
  import opened Bytes
  import opened FloatOps
  import opened Primitives
  import opened Tickets
  import opened Wrappers

  const TWO_56: nat := 0x100_0000_0000_0000

  /** The snapping tolerance. */
  const EPSILON: real := 0.00000001

  const NEVER: winprob := [0, 0, 0, 0, 0, 0, 0]
  const ALWAYS: winprob := [255, 255, 255, 255, 255, 255, 255]

  /** `as_luck`: the seven bytes behind a zero byte. */
  function AsLuck(p: winprob): (luck: u64)
    ensures luck == FromBE(p) < TWO_56
  {
    Widths();
    Widened(p, 8)
  }

  /** `as_f64`; the double with exponent zero and the significand's upper 52 bits, less one. */
  function AsF64(p: winprob): (v: real)
  {
    if p == NEVER then 0.0
    else if p == ALWAYS then 1.0
    else ((AsLuck(p) + 1) / 16) as real / TWO_52 as real
  }

  function TryFromF64(v: F64): (r: Option<winprob>)
  {
    if !v.Finite? || !(0.0 <= v.v <= 1.0) then None
    else if v.v <= EPSILON then Some(NEVER)
    else if 1.0 - v.v <= EPSILON then Some(ALWAYS)
    else
      var significand := DivMantissa(v.v);
      if significand < 1 then None // the subtraction would underflow
      else Some(ToBE((significand - 1) * 16 + 15, 7))
  }

  // ----- which lucks win

  /** `check_ticket_win`: seven bytes of a hash against the luck of the probability. */
  predicate Wins(hash: word, p: winprob) {
    Widened(hash[..7], 8) <= AsLuck(p)
  }

  predicate Below(d: nat, n: nat) {
    d < n
  }

  ghost function Draws(n: nat): (draws: set<nat>) {
    set d: nat | d < n && Below(d, n)
  }

  /** The seven-byte draws that win. */
  ghost function WinningDraws(p: winprob): (draws: set<nat>) {
    set d | d in Draws(TWO_56) && d <= AsLuck(p)
  }

  lemma {:induction false} CountDraws(n: nat)
    ensures |Draws(n)| == n
  {
    if n == 0 {
      assert Draws(0) == {};
    } else {
      CountDraws(n - 1);
      forall d: nat ensures d in Draws(n) <==> d in Draws(n - 1) + {n - 1} {
        assert Below(d, n) <==> Below(d, n - 1) || d == n - 1;
      }
      assert Draws(n) == Draws(n - 1) + {n - 1};
    }
  }

  /** One more draw than the luck wins, also for `NEVER`. */
  lemma WinningDrawsCount(p: winprob)
    ensures |WinningDraws(p)| == AsLuck(p) + 1
  {
    var n := AsLuck(p) + 1;
    CountDraws(n);
    forall d: nat ensures d in WinningDraws(p) <==> d in Draws(n) {
      assert Below(d, n) <==> Below(d, TWO_56) && d <= AsLuck(p);
    }
    assert WinningDraws(p) == Draws(n);
  }

  lemma WinsByDraw(hash: word, p: winprob)
    ensures Wins(hash, p) <==> FromBE(hash[..7]) in WinningDraws(p)
  {
    Widths();
  }

  // ----- the probability as a double

  lemma {:induction false} AllOnes(s: seq<byte>)
    requires forall i :: 0 <= i < |s| ==> s[i] == 255
    ensures FromBE(s) == Pow256(|s|) - 1
  {
    if s != [] {
      AllOnes(s[..|s| - 1]);
    }
  }

  lemma LuckOfEnds()
    ensures AsLuck(NEVER) == 0 && AsLuck(ALWAYS) == TWO_56 - 1
  {
    assert NEVER == Zeros(7);
    FromBEZeros(7);
    AllOnes(ALWAYS);
    Widths();
  }

  lemma LuckInjective(p: winprob, q: winprob)
    requires AsLuck(p) == AsLuck(q)
    ensures p == q
  {
    FromBEInjective(p, q);
  }

  /** The share of winning draws lies less than one unit of 2^-52 above the double. */
  lemma ShareWithinUnit(p: winprob)
    ensures AsF64(p) <= |WinningDraws(p)| as real / TWO_56 as real < AsF64(p) + 1.0 / TWO_52 as real
  {
    WinningDrawsCount(p);
    LuckOfEnds();
    hide AsLuck, WinningDraws;
  }

  lemma UnitsOrdered(a: int, b: int)
    requires a <= b
    ensures a as real / TWO_52 as real <= b as real / TWO_52 as real
  {}

  lemma SixteenUnits(u: int)
    ensures (16 * u) as real / TWO_56 as real == u as real / TWO_52 as real
  {}

  /** More luck is never a smaller double, across both special cases. */
  lemma AsF64Monotone(p: winprob, q: winprob)
    requires AsLuck(p) <= AsLuck(q)
    ensures AsF64(p) <= AsF64(q)
  {
    LuckOfEnds();
    if q == NEVER {
      LuckInjective(p, q);
    }
    if p == ALWAYS {
      LuckInjective(p, q);
    }
    hide AsLuck;
    UnitsOrdered((AsLuck(p) + 1) / 16, (AsLuck(q) + 1) / 16);
    AsF64Range(p);
    AsF64Range(q);
  }

  lemma AsF64Range(p: winprob)
    ensures 0.0 <= AsF64(p) <= 1.0
  {
    hide AsLuck;
    UnitsOrdered((AsLuck(p) + 1) / 16, TWO_52);
  }

  // ----- the probability from a double

  lemma HalfEvenMonotone(x: real, y: real)
    requires x <= y
    ensures RoundHalfEven(x) <= RoundHalfEven(y)
  {}

  /** Between the snapped ends the significand is the factor in units of 2^-52, never zero and never wrapped. */
  lemma MiddleUnits(v: real)
    requires EPSILON < v && 1.0 - v > EPSILON
    ensures DivMantissa(v) == Units(v) && 1 <= Units(v) < TWO_52
  {
    Mantissas(v);
  }

  /** Every double in range is accepted, and nothing else; the subtraction never underflows. */
  lemma TryFromAccepts(v: F64)
    ensures TryFromF64(v).Some? <==> v.Finite? && 0.0 <= v.v <= 1.0
  {
    if v.Finite? && EPSILON < v.v && 1.0 - v.v > EPSILON {
      MiddleUnits(v.v);
    }
  }

  lemma MiddleLuck(v: real)
    requires EPSILON < v && 1.0 - v > EPSILON
    ensures TryFromF64(Finite(v)).Some?
    ensures AsLuck(TryFromF64(Finite(v)).value) == 16 * Units(v) - 1
  {
    MiddleUnits(v);
    hide Units, DivMantissa;
    Widths();
    FromToBE((Units(v) - 1) * 16 + 15, 7);
  }

  lemma ShareOfUnits(p: winprob, u: nat)
    requires AsLuck(p) == 16 * u - 1 && 1 <= u < TWO_52
    ensures |WinningDraws(p)| as real / TWO_56 as real == u as real / TWO_52 as real
    ensures AsF64(p) == u as real / TWO_52 as real
  {
    LuckOfEnds();
    WinningDrawsCount(p);
    hide WinningDraws, AsLuck;
    SixteenUnits(u);
  }

  /** Between the snapped ends the share of winning draws is the double rounded to 2^-52, exactly. */
  lemma MiddleShare(v: real)
    requires EPSILON < v && 1.0 - v > EPSILON
    ensures TryFromF64(Finite(v)).Some?
    ensures var p := TryFromF64(Finite(v)).value;
            && |WinningDraws(p)| as real / TWO_56 as real == Units(v) as real / TWO_52 as real
            && AsF64(p) == Units(v) as real / TWO_52 as real
  {
    MiddleLuck(v);
    MiddleUnits(v);
    ShareOfUnits(TryFromF64(Finite(v)).value, Units(v));
  }

  function LuckFrom(v: real): (luck: int)
  {
    if v <= EPSILON then 0 else if 1.0 - v <= EPSILON then TWO_56 - 1 else 16 * Units(v) - 1
  }

  lemma LuckFromIs(v: real)
    requires 0.0 <= v <= 1.0
    ensures TryFromF64(Finite(v)).Some? && AsLuck(TryFromF64(Finite(v)).value) == LuckFrom(v)
  {
    LuckOfEnds();
    if EPSILON < v && 1.0 - v > EPSILON {
      MiddleLuck(v);
    }
  }

  /** A larger double never gives less luck, across both snapped ends. */
  lemma TryFromMonotone(v: real, w: real)
    requires 0.0 <= v <= w <= 1.0
    ensures TryFromF64(Finite(v)).Some? && TryFromF64(Finite(w)).Some?
    ensures AsLuck(TryFromF64(Finite(v)).value) <= AsLuck(TryFromF64(Finite(w)).value)
  {
    LuckFromIs(v);
    LuckFromIs(w);
    HalfEvenMonotone(v * TWO_52 as real, w * TWO_52 as real);
    if EPSILON < w && 1.0 - w > EPSILON {
      MiddleUnits(w);
    }
    if EPSILON < v && 1.0 - v > EPSILON {
      MiddleUnits(v);
    }
    hide TryFromF64, AsLuck;
  }

  /**
    A probability survives the way through a double if and only if it was not snapped and one more
    than its luck is a multiple of sixteen, or it is one of the two ends.
   */
  lemma RoundTrip(p: winprob)
    ensures var v := AsF64(p);
            TryFromF64(Finite(v)) == Some(p) <==>
            || p == NEVER || p == ALWAYS
            || (EPSILON < v && 1.0 - v > EPSILON && (AsLuck(p) + 1) % 16 == 0)
  {
    var v := AsF64(p);
    AsF64Range(p);
    LuckOfEnds();
    if p != NEVER && p != ALWAYS && EPSILON < v && 1.0 - v > EPSILON {
      var k := (AsLuck(p) + 1) / 16;
      assert v * TWO_52 as real == k as real;
      RoundInteger(k);
      MiddleLuck(v);
      var q := TryFromF64(Finite(v)).value;
      if AsLuck(q) == AsLuck(p) {
        LuckInjective(p, q);
      }
    }
  }

  // ----- comparisons

  datatype Ordering = Less | Equal | Greater

  /** `approx_cmp`: equal within the tolerance, otherwise ordered as doubles. */
  function ApproxCmp(p: winprob, q: winprob): (o: Ordering)
  {
    var a, b := AsF64(p), AsF64(q);
    if -EPSILON <= a - b <= EPSILON then Equal else if a < b then Less else Greater
  }

  /** Where the approximate comparison decides, the lucks agree with it. */
  lemma ApproxAgreesWithLuck(p: winprob, q: winprob)
    ensures ApproxCmp(p, q) == Less ==> AsLuck(p) < AsLuck(q)
    ensures ApproxCmp(p, q) == Greater ==> AsLuck(p) > AsLuck(q)
    ensures AsLuck(p) == AsLuck(q) ==> ApproxCmp(p, q) == Equal
  {
    hide AsLuck;
    if AsLuck(q) <= AsLuck(p) {
      AsF64Monotone(q, p);
    }
    if AsLuck(p) <= AsLuck(q) {
      AsF64Monotone(p, q);
    }
  }
}
