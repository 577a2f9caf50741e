/**
  Proof of Relay: challenges are curve points, half-keys and responses are scalars in 32 bytes. Keys
  that were not validated on the way in are rejected where they are used.
 */
module ProofOfRelay {
  import opened Arithmetic
  import opened Bytes
  import opened Groups
  import opened NumberTheory
  import opened Primitives
  import opened Wrappers

  /** A curve with the compressed encoding of its points and the address a point hashes to. */
  datatype Curve = Curve(group: Group, encode: Point -> seq<byte>, decode: seq<byte> -> Option<Point>,
                         addressOf: Point -> address)

  /** Decoding undoes encoding; the point at infinity has no encoding. */
  ghost predicate Lawful(c: Curve) {
    && PrimeOrder(c.group) && c.group.order <= Pow256(32)
    && forall p: Point :: p != c.group.zero ==> c.decode(c.encode(p)) == Some(p)
  }

  /** A key of 32 bytes as a non-zero reduced scalar. */
  function Scalar(c: Curve, key: word): (s: Option<nat>) {
    if 0 < FromBE(key) < c.group.order then Some(FromBE(key)) else None
  }

  function PublicPoint(c: Curve, key: word): (p: Option<Point>) {
    match Scalar(c, key)
    case None => None
    case Some(s) => Some(Mul(c.group, s, c.group.g))
  }

  function HalfKeyToChallenge(c: Curve, key: word): (r: Option<seq<byte>>)
  {
    match PublicPoint(c, key)
    case None => None
    case Some(p) => Some(c.encode(p))
  }

  /** Fails when either challenge is no point, and when the sum is the point at infinity. */
  function FromHintAndShare(c: Curve, ownShare: seq<byte>, hint: seq<byte>): (r: Option<Point>)
  {
    match (c.decode(ownShare), c.decode(hint))
    case (Some(p), Some(q)) =>
      var sum := c.group.add(p, q);
      if sum == c.group.zero then None else Some(sum)
    case _ => None
  }

  function FromOwnShareAndHalfKey(c: Curve, ownShare: seq<byte>, key: word): (r: Option<Point>)
  {
    match HalfKeyToChallenge(c, key)
    case None => None
    case Some(hint) => FromHintAndShare(c, ownShare, hint)
  }

  function FromHalfKeys(c: Curve, first: word, second: word): (r: Option<word>)
    requires c.group.order > 0
  {
    match (Scalar(c, first), Scalar(c, second))
    case (Some(a), Some(b)) =>
      var sum := (a + b) % c.group.order;
      if sum == 0 then None else Some(ToBE(sum, 32))
    case _ => None
  }

  function ResponseToChallenge(c: Curve, response: word): (p: Option<Point>) {
    PublicPoint(c, response)
  }

  /** `UnacknowledgedTicket::acknowledge`, for a ticket with this challenge. */
  function Acknowledge(c: Curve, challenge: address, ownKey: word, acknowledgement: word): (response: Option<word>)
    requires c.group.order > 0
  {
    match FromHalfKeys(c, ownKey, acknowledgement)
    case None => None
    case Some(response) =>
      match ResponseToChallenge(c, response)
      case None => None
      case Some(p) => if c.addressOf(p) == challenge then Some(response) else None
  }

  // ----- scalars and points

  lemma KeyPoint(c: Curve, key: word)
    requires Lawful(c) && Scalar(c, key).Some?
    ensures var p := Mul(c.group, FromBE(key), c.group.g);
            && p != c.group.zero && PublicPoint(c, key) == Some(p)
            && HalfKeyToChallenge(c, key) == Some(c.encode(p)) && c.decode(c.encode(p)) == Some(p)
  {
    hide PrimeOrder, Mul, FromBE, ToBE, Pow256;
    GeneratorNotZero(c.group);
    ModFits(FromBE(key), c.group.order);
    MulZeroIff(c.group, FromBE(key), c.group.g);
  }

  lemma ScalarWord(c: Curve, s: nat)
    requires Lawful(c) && 0 < s < c.group.order
    ensures Scalar(c, ToBE(s, 32)) == Some(s)
  {
    hide PrimeOrder, Mul, FromBE, ToBE, Pow256;
    FromToBE(s, 32);
  }

  lemma OrderPositive(c: Curve)
    requires Lawful(c)
    ensures c.group.order > 1 && c.group.g != c.group.zero
  {}

  lemma SumPoint(g: Group, a: nat, b: nat)
    requires PrimeOrder(g)
    ensures g.order > 1 && g.add(Mul(g, a, g.g), Mul(g, b, g.g)) == Mul(g, (a + b) % g.order, g.g)
    ensures (a + b) % g.order == 0 <==> g.add(Mul(g, a, g.g), Mul(g, b, g.g)) == g.zero
  {
    hide PrimeOrder, Mul, FromBE, ToBE, Pow256;
    GeneratorNotZero(g);
    MulAdd(g, a, b, g.g);
    MulMod(g, a + b, g.g);
    MulZeroIff(g, a + b, g.g);
  }

  // ----- the main results

  /**
    Adding two half-key challenges gives the challenge of the summed half-keys; the two ways fail
    together, and for valid half-keys exactly when the scalars add up to zero.
   */
  lemma ChallengeOfSum(c: Curve, first: word, second: word)
    requires Lawful(c) && Scalar(c, first).Some? && Scalar(c, second).Some?
    ensures c.group.order > 0
    ensures var p, q := HalfKeyToChallenge(c, first).value, HalfKeyToChallenge(c, second).value;
            var response := FromHalfKeys(c, first, second);
            && FromHintAndShare(c, p, q) == (if response.Some? then ResponseToChallenge(c, response.value) else None)
            && (response.Some? ==>
                 ResponseToChallenge(c, response.value)
                 == Some(Mul(c.group, (FromBE(first) + FromBE(second)) % c.group.order, c.group.g)))
            && (response.None? <==> (FromBE(first) + FromBE(second)) % c.group.order == 0)
            && FromOwnShareAndHalfKey(c, p, second) == FromHintAndShare(c, p, q)
  {
    hide PrimeOrder, Mul, FromBE, ToBE, Pow256;
    OrderPositive(c);
    KeyPoint(c, first);
    KeyPoint(c, second);
    SumPoint(c.group, FromBE(first), FromBE(second));
    var sum := (FromBE(first) + FromBE(second)) % c.group.order;
    if sum != 0 {
      ScalarWord(c, sum);
    }
  }

  /**
    Any two words have a response exactly when both have a challenge and the challenges add up to
    one: a zero or oversized half-key fails on both ways, like two that cancel out.
   */
  lemma ResponseIffChallenge(c: Curve, first: word, second: word)
    requires Lawful(c)
    ensures c.group.order > 0
    ensures FromHalfKeys(c, first, second).Some?
            <==> HalfKeyToChallenge(c, first).Some?
                 && FromOwnShareAndHalfKey(c, HalfKeyToChallenge(c, first).value, second).Some?
  {
    hide PrimeOrder, Mul, FromBE, ToBE, Pow256;
    OrderPositive(c);
    if Scalar(c, first).Some? && Scalar(c, second).Some? {
      KeyPoint(c, first);
      KeyPoint(c, second);
      ChallengeOfSum(c, first, second);
    }
  }

  /** Different points have different addresses. */
  ghost predicate InjectiveAddresses(c: Curve) {
    forall p: Point, q: Point :: c.addressOf(p) == c.addressOf(q) ==> p == q
  }

  /** The half-key a challenge was built for is accepted, with the response whose challenge it is. */
  lemma MatchingKeyAccepted(c: Curve, own: word, other: word)
    requires Lawful(c) && Scalar(c, own).Some? && Scalar(c, other).Some?
    requires FromHintAndShare(c, HalfKeyToChallenge(c, own).value, HalfKeyToChallenge(c, other).value).Some?
    ensures c.group.order > 0
    ensures var p := FromHintAndShare(c, HalfKeyToChallenge(c, own).value, HalfKeyToChallenge(c, other).value).value;
            Acknowledge(c, c.addressOf(p), own, other) == FromHalfKeys(c, own, other) != None
  {
    hide PrimeOrder, Mul, FromBE, ToBE, Pow256;
    ChallengeOfSum(c, own, other);
  }

  /** For an injective address hash no other half-key is accepted. */
  lemma OnlyMatchingKeyAccepted(c: Curve, own: word, other: word, acknowledgement: word)
    requires Lawful(c) && InjectiveAddresses(c) && Scalar(c, own).Some? && Scalar(c, other).Some?
    requires FromHintAndShare(c, HalfKeyToChallenge(c, own).value, HalfKeyToChallenge(c, other).value).Some?
    ensures c.group.order > 0
    ensures var p := FromHintAndShare(c, HalfKeyToChallenge(c, own).value, HalfKeyToChallenge(c, other).value).value;
            Acknowledge(c, c.addressOf(p), own, acknowledgement).Some? <==> acknowledgement == other
  {
    hide PrimeOrder, Mul, FromBE, ToBE, Pow256;
    OrderPositive(c);
    MatchingKeyAccepted(c, own, other);
    ChallengeOfSum(c, own, other);
    var p := FromHintAndShare(c, HalfKeyToChallenge(c, own).value, HalfKeyToChallenge(c, other).value).value;
    if Acknowledge(c, c.addressOf(p), own, acknowledgement).Some? {
      ChallengeOfSum(c, own, acknowledgement);
      var a, b, k := FromBE(own), FromBE(other), FromBE(acknowledgement);
      MulInjective(c.group, (a + b) % c.group.order, (a + k) % c.group.order, c.group.g);
      SameAddend(a, b, k, c.group.order);
      FromBEInjective(acknowledgement, other);
    }
  }
}
