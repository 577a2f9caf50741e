/**
  From a redeemable ticket to the words of its redemption: the points and scalars of the VRF proof
  with the witnesses the contract checks instead of multiplying itself.
 */
module Redemption {
  import opened Abi
  import opened Bytes
  import opened Groups
  import opened Payload
  import opened Primitives
  import opened Tickets
  import opened Wrappers
  import S = TicketStates
  import V = Vrf

  /** Finite points have two coordinates of 32 bytes. */
  ghost predicate Coordinates(hs: V.Hashes, c: Group) {
    forall p: Point :: p != c.zero ==> |hs.coordinates(p)| == 64
  }

  /** `point_xy_words`; the point at infinity has no coordinates to cut, and the code panics. */
  function PointWords(hs: V.Hashes, p: Point): (w: Option<seq<word>>)
    ensures w.Some? ==> |w.value| == 2
  {
    var b := hs.coordinates(p);
    if |b| != 64 then None else Some([RightAlign32(b[..32]), RightAlign32(b[32..])])
  }

  /** The fourteen words spelled from six points and two scalars. */
  function Spelled(hs: V.Hashes, v: Point, s: nat, h: nat, sB: Point, hV: Point, a: Point, sG: Point, hA: Point)
    : (w: Option<vrfwords>)
  {
    match (PointWords(hs, v), PointWords(hs, sB), PointWords(hs, hV))
    case (Some(wv), Some(wsB), Some(whV)) =>
      (match (PointWords(hs, a), PointWords(hs, sG), PointWords(hs, hA))
       case (Some(wa), Some(wsG), Some(whA)) =>
         Some(wv + [RightAlign32(ToBE(s, 32)), RightAlign32(ToBE(h, 32))] + wsB + whV + wa + wsG + whA)
       case _ => None)
    case _ => None
  }

  /** `vrf_parameters_words` of a redeemable ticket for the account `me`. */
  function VrfWords(c: Group, hs: V.Hashes, p: V.Proof, me: address, hash: word, dst: word): (w: Option<vrfwords>)
  {
    match V.SBWitness(c, hs, p, me, hash, dst)
    case None => None
    case Some(sB) => Spelled(hs, p.V, p.s, p.h, sB, V.HVWitness(c, p), p.A, V.SGWitness(c, p), V.HAWitness(c, p))
  }

  /** The redeemable ticket as the redemption call takes it. */
  function ToAcked(c: S.Crypto, o: S.Object, me: address): (acked: AckedTicket)
    requires o.Redeemable?
  {
    AckedTicket(o.ticket.channelId, o.ticket.ticket, o.response,
                VrfWords(c.curve.group, c.hashes, o.proof, me, o.ticket.hash, o.channelDst))
  }

  /**
    For a ticket its redeemer made redeemable, the words spell s*B as h*V + r*B and s*G as h*A + r*G
    for one nonce r, with the V and A of the redeemer's secret: the two equations of the proof.
   */
  lemma WordsSatisfyEquations(c: S.Crypto, v: S.VerifiedTicket, response: word, key: S.ChainKey, dst: word,
                              random: seq<byte>, native: bool)
    requires c.curve.group.order > 0 && PrimeOrder(c.curve.group)
    requires S.IntoRedeemable(c, v, response, key, dst, random, native).Some?
    ensures var g := c.curve.group;
            var o := S.IntoRedeemable(c, v, response, key, dst, random, native).value;
            && o.Redeemable? && V.Payload(c.hashes, key.account, v.hash, dst).Some?
            && var B := V.Payload(c.hashes, key.account, v.hash, dst).value;
            && V.Nonce(c.hashes, key.secret, Mul(g, key.secret, B), random, dst).Some?
            && var r := V.Nonce(c.hashes, key.secret, Mul(g, key.secret, B), random, dst).value;
            var hV := Mul(g, o.proof.h, Mul(g, key.secret, B));
            var hA := Mul(g, o.proof.h, Mul(g, key.secret, g.g));
            ToAcked(c, o, key.account).vrf ==
            Spelled(c.hashes, Mul(g, key.secret, B), o.proof.s, o.proof.h,
                    g.add(hV, Mul(g, r, B)), hV, Mul(g, key.secret, g.g), g.add(hA, Mul(g, r, g.g)), hA)
  {
    hide PrimeOrder, Mul, V.DeriveBy, V.Verify, V.Payload, V.Nonce, Spelled, S.TicketWins;
    V.DerivedProves(native, c.curve.group, c.hashes, key.account, key.secret, v.hash, dst, random);
  }

  /** Two neighbouring words as one string. */
  function Joined(w: seq<word>, i: nat): (b: seq<byte>)
    requires i + 1 < |w|
  {
    var (x: seq<byte>, y: seq<byte>) := (w[i], w[i + 1]);
    x + y
  }

  lemma PointWordsReadBack(hs: V.Hashes, c: Group, p: Point)
    requires Coordinates(hs, c) && p != c.zero
    ensures PointWords(hs, p).Some? && Joined(PointWords(hs, p).value, 0) == hs.coordinates(p)
  {
    var b := hs.coordinates(p);
    RightAlignWhole(b[..32]);
    RightAlignWhole(b[32..]);
  }

  lemma ScalarWordReadBack(s: nat)
    requires s < Pow256(32)
    ensures FromBE(RightAlign32(ToBE(s, 32))) == s
  {
    RightAlignWhole(ToBE(s, 32));
    FromToBE(s, 32);
  }

  /**
    Whoever reads the fourteen words finds the coordinates of the six points and both scalars, in
    the contract's order.
   */
  lemma SpelledReadBack(hs: V.Hashes, c: Group, v: Point, s: nat, h: nat,
                        sB: Point, hV: Point, a: Point, sG: Point, hA: Point)
    requires Coordinates(hs, c) && s < Pow256(32) && h < Pow256(32)
    requires v != c.zero && sB != c.zero && hV != c.zero && a != c.zero && sG != c.zero && hA != c.zero
    ensures Spelled(hs, v, s, h, sB, hV, a, sG, hA).Some?
    ensures var w := Spelled(hs, v, s, h, sB, hV, a, sG, hA).value;
            && Joined(w, 0) == hs.coordinates(v) && FromBE(w[2]) == s && FromBE(w[3]) == h
            && Joined(w, 4) == hs.coordinates(sB) && Joined(w, 6) == hs.coordinates(hV)
            && Joined(w, 8) == hs.coordinates(a) && Joined(w, 10) == hs.coordinates(sG)
            && Joined(w, 12) == hs.coordinates(hA)
  {
    hide PointWords, RightAlign32, ToBE, FromBE, Pow256;
    PointWordsReadBack(hs, c, v);
    PointWordsReadBack(hs, c, sB);
    PointWordsReadBack(hs, c, hV);
    PointWordsReadBack(hs, c, a);
    PointWordsReadBack(hs, c, sG);
    PointWordsReadBack(hs, c, hA);
    ScalarWordReadBack(s);
    ScalarWordReadBack(h);
  }

  /**
    The redemption call of a signed ticket carries its channel, its fields and its response, and these
    words behind them.
   */
  lemma CallCarriesWords(c: S.Crypto, o: S.Object, me: address)
    requires o.Redeemable? && o.ticket.ticket.signature.Some? && ToAcked(c, o, me).vrf.Some?
    ensures RedeemWords(ToAcked(c, o, me)).Some?
    ensures var w := RedeemWords(ToAcked(c, o, me)).value;
            && RedeemableTicketWords(o.ticket.channelId, o.ticket.ticket, o.response) == Ok(w[..8])
            && Some(w[8..]) == VrfWords(c.curve.group, c.hashes, o.proof, me, o.ticket.hash, o.channelDst)
  {
    hide VrfWords, TruncatedWord, RightAlign32;
    var w := RedeemWords(ToAcked(c, o, me)).value;
    var words := RedeemableTicketWords(o.ticket.channelId, o.ticket.ticket, o.response).value;
    assert w[..8] == words;
  }
}
