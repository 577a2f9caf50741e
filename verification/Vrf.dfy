/**
  The verifiable random function of a ticket: a discrete-log-equality proof over two bases, its
  verification, the witnesses handed to the contract, and the 130-byte form of the proof.
 */
module Vrf {
  import opened Bytes
  import opened Arithmetic
  import opened Groups
  import opened NumberTheory
  import opened Primitives
  import opened Tickets
  import opened Wrappers

  type Messages = seq<seq<byte>>

  /** Hashing to the curve and to its scalars, which may fail, and the two uncompressed coordinates of a point. */
  datatype Hashes = Hashes(toCurve: (Messages, seq<byte>) -> Option<Point>,
                           toScalar: (Messages, seq<byte>) -> Option<nat>,
                           coordinates: Point -> seq<byte>)

  /** `VrfParameters`. */
  datatype Proof = Proof(V: Point, h: nat, s: nat, A: Point)

  /** `get_encoded_payload`. */
  function Payload(hs: Hashes, creator: address, msg: seq<byte>, dst: seq<byte>): (B: Option<Point>) {
    hs.toCurve([creator, msg], dst)
  }

  /** The secret nonce of a proof. */
  function Nonce(hs: Hashes, secret: nat, V: Point, random: seq<byte>, dst: seq<byte>): (r: Option<nat>) {
    hs.toScalar([ToBE(secret, 32), hs.coordinates(V), random], dst)
  }

  /** The challenge, bound to both bases. */
  function ChallengeScalar(hs: Hashes, creator: address, A: Point, V: Point, Rg: Point, Rv: Point,
                           msg: seq<byte>, dst: seq<byte>): (h: Option<nat>) {
    hs.toScalar([creator, hs.coordinates(A), hs.coordinates(V), hs.coordinates(Rg), hs.coordinates(Rv), msg], dst)
  }

  /** `derive_vrf_parameters` over the pure-Rust curve, for the account `creator` with its secret scalar. */
  function Derive(c: Group, hs: Hashes, creator: address, secret: nat, msg: seq<byte>, dst: seq<byte>,
                  random: seq<byte>): (r: Option<Proof>)
    requires c.order > 0
  {
    var A := Mul(c, secret, c.g);
    match Payload(hs, creator, msg, dst)
    case None => None
    case Some(B) =>
      var V := Mul(c, secret, B);
      match Nonce(hs, secret, V, random, dst)
      case None => None
      case Some(r) =>
        match ChallengeScalar(hs, creator, A, V, Mul(c, r, c.g), Mul(c, r, B), msg, dst)
        case None => None
        case Some(h) => Some(Proof(V, h, (r + h * secret) % c.order, A))
  }

  // ----- the operations of the C library, which know neither zero nor infinity

  /** `PublicKey::from_byte_array_uncompressed` of a serialized point. */
  function NativeKey(c: Group, p: Point): (k: Option<Point>) {
    if p == c.zero then None else Some(p)
  }

  /** `Scalar::from_be_bytes`: reduced, possibly zero. */
  function NativeScalar(c: Group, s: nat): (r: Option<nat>) {
    if s < c.order then Some(s) else None
  }

  /** `SecretKey::from_byte_array` and `PublicKey::from_secret_key`. */
  function NativeBaseMul(c: Group, s: nat): (k: Option<Point>) {
    if 0 < s < c.order then Some(Mul(c, s, c.g)) else None
  }

  /** `mul_tweak`. */
  function NativeMul(c: Group, p: Point, s: nat): (k: Option<Point>) {
    if s == 0 then None else Some(Mul(c, s, p))
  }

  /** `derive_vrf_parameters` over the C library: every step may fail. */
  function DeriveNative(c: Group, hs: Hashes, creator: address, secret: nat, msg: seq<byte>, dst: seq<byte>,
                        random: seq<byte>): (r: Option<Proof>)
    requires c.order > 0
  {
    match Payload(hs, creator, msg, dst)
    case None => None
    case Some(B) =>
      match (NativeKey(c, B), NativeScalar(c, secret), NativeBaseMul(c, secret))
      case (Some(base), Some(a), Some(A)) =>
        (match NativeMul(c, base, a)
         case None => None
         case Some(V) =>
           match Nonce(hs, secret, V, random, dst)
           case None => None
           case Some(r) => NativeProof(c, hs, creator, base, a, A, V, r, msg, dst))
      case _ => None
  }

  /** The commitments and the challenge for a given nonce. */
  function NativeProof(c: Group, hs: Hashes, creator: address, base: Point, a: nat, A: Point, V: Point, r: nat,
                       msg: seq<byte>, dst: seq<byte>): (p: Option<Proof>)
    requires c.order > 0
  {
    match (NativeScalar(c, r), NativeMul(c, base, r), NativeBaseMul(c, r))
    case (Some(_), Some(Rv), Some(Rg)) =>
      (match ChallengeScalar(hs, creator, A, V, Rg, Rv, msg, dst)
       case None => None
       case Some(h) => Some(Proof(V, h, (r + h * a) % c.order, A)))
    case _ => None
  }

  /** The derivation of either build. */
  function DeriveBy(native: bool, c: Group, hs: Hashes, creator: address, secret: nat, msg: seq<byte>, dst: seq<byte>,
                    random: seq<byte>): (r: Option<Proof>)
    requires c.order > 0
  {
    if native then DeriveNative(c, hs, creator, secret, msg, dst, random)
    else Derive(c, hs, creator, secret, msg, dst, random)
  }

  function Verify(c: Group, hs: Hashes, p: Proof, creator: address, msg: seq<byte>, dst: seq<byte>): (ok: bool)
  {
    match Payload(hs, creator, msg, dst)
    case None => false
    case Some(B) =>
      var Rv := Sub(c, Mul(c, p.s, B), Mul(c, p.h, p.V));
      var Rg := Sub(c, Mul(c, p.s, c.g), Mul(c, p.h, p.A));
      ChallengeScalar(hs, creator, p.A, p.V, Rg, Rv, msg, dst) == Some(p.h)
  }

  // ----- the witnesses handed to the contract

  function HVWitness(c: Group, p: Proof): (w: Point) {
    Mul(c, p.h, p.V)
  }

  function HAWitness(c: Group, p: Proof): (w: Point) {
    Mul(c, p.h, p.A)
  }

  function SGWitness(c: Group, p: Proof): (w: Point) {
    Mul(c, p.s, c.g)
  }

  function SBWitness(c: Group, hs: Hashes, p: Proof, creator: address, msg: seq<byte>, dst: seq<byte>)
    : (w: Option<Point>)
  {
    match Payload(hs, creator, msg, dst)
    case None => None
    case Some(B) => Some(Mul(c, p.s, B))
  }

  // ----- the main results

  /** One base: multiplying by s is multiplying by h and adding the commitment. */
  lemma OneBase(c: Group, r: nat, h: nat, secret: nat, x: Point)
    requires PrimeOrder(c)
    ensures c.order > 0
    ensures var left, hx := Mul(c, (r + h * secret) % c.order, x), Mul(c, h, Mul(c, secret, x));
            left == c.add(hx, Mul(c, r, x)) && Sub(c, left, hx) == Mul(c, r, x)
  {
    hide PrimeOrder, Mul, Sub;
    LinearCombination(c, r, h, secret, x);
    SubSum(c, Mul(c, h, Mul(c, secret, x)), Mul(c, r, x));
  }

  /**
    What a proof is for: it passes verification, and its witnesses satisfy the two equations the
    contract checks, s*B = h*V + r*B and s*G = h*A + r*G, with one nonce r and the V and A of the secret.
   */
  predicate Proves(c: Group, hs: Hashes, creator: address, secret: nat, msg: seq<byte>, dst: seq<byte>,
                   random: seq<byte>, p: Proof) {
    var B := Payload(hs, creator, msg, dst);
    && Verify(c, hs, p, creator, msg, dst)
    && B.Some? && Nonce(hs, secret, p.V, random, dst).Some?
    && var r := Nonce(hs, secret, p.V, random, dst).value;
    && SBWitness(c, hs, p, creator, msg, dst) == Some(c.add(HVWitness(c, p), Mul(c, r, B.value)))
    && SGWitness(c, p) == c.add(HAWitness(c, p), Mul(c, r, c.g))
    && p.A == Mul(c, secret, c.g) && p.V == Mul(c, secret, B.value) && p.s < c.order
  }

  lemma PlainProves(c: Group, hs: Hashes, creator: address, secret: nat, msg: seq<byte>, dst: seq<byte>,
                    random: seq<byte>)
    requires PrimeOrder(c) && c.order > 0
    requires Derive(c, hs, creator, secret, msg, dst, random).Some?
    ensures Proves(c, hs, creator, secret, msg, dst, random, Derive(c, hs, creator, secret, msg, dst, random).value)
  {
    hide PrimeOrder, Mul, Sub, Payload, Nonce, ChallengeScalar;
    var p := Derive(c, hs, creator, secret, msg, dst, random).value;
    var B := Payload(hs, creator, msg, dst).value;
    var r := Nonce(hs, secret, p.V, random, dst).value;
    OneBase(c, r, p.h, secret, B);
    OneBase(c, r, p.h, secret, c.g);
  }

  /** Every derived proof, of either build, does what a proof is for. */
  lemma DerivedProves(native: bool, c: Group, hs: Hashes, creator: address, secret: nat, msg: seq<byte>,
                      dst: seq<byte>, random: seq<byte>)
    requires PrimeOrder(c) && c.order > 0
    requires DeriveBy(native, c, hs, creator, secret, msg, dst, random).Some?
    ensures Proves(c, hs, creator, secret, msg, dst, random,
                   DeriveBy(native, c, hs, creator, secret, msg, dst, random).value)
  {
    hide PrimeOrder, Proves, Derive, DeriveNative;
    if native {
      NativeSucceeds(c, hs, creator, secret, msg, dst, random);
    }
    PlainProves(c, hs, creator, secret, msg, dst, random);
  }

  /** Where the C library does not fail, it derives the same proof. */
  lemma NativeSucceeds(c: Group, hs: Hashes, creator: address, secret: nat, msg: seq<byte>, dst: seq<byte>,
                       random: seq<byte>)
    requires c.order > 0 && DeriveNative(c, hs, creator, secret, msg, dst, random).Some?
    ensures DeriveNative(c, hs, creator, secret, msg, dst, random) == Derive(c, hs, creator, secret, msg, dst, random)
  {
    hide Mul, Payload, Nonce, ChallengeScalar;
  }

  /** Hashed scalars are reduced. */
  ghost predicate Reduced(hs: Hashes, order: nat) {
    forall ms: Messages, dst: seq<byte> :: hs.toScalar(ms, dst).Some? ==> hs.toScalar(ms, dst).value < order
  }

  /**
    For the secret of a key pair the two derivations agree, except that the C library fails for a
    payload at infinity and for a nonce of zero.
   */
  lemma VariantsAgree(c: Group, hs: Hashes, creator: address, secret: nat, msg: seq<byte>, dst: seq<byte>,
                      random: seq<byte>)
    requires 0 < secret < c.order && Reduced(hs, c.order)
    ensures var B := Payload(hs, creator, msg, dst);
            DeriveNative(c, hs, creator, secret, msg, dst, random) ==
            if B == Some(c.zero) || (B.Some? && Nonce(hs, secret, Mul(c, secret, B.value), random, dst) == Some(0))
            then None else Derive(c, hs, creator, secret, msg, dst, random)
  {
    hide Mul, ChallengeScalar;
  }

  // ----- what acceptance means

  /** The commitments of a proof: R_V + h*V = s*B and R_G + h*A = s*G. */
  predicate Commits(c: Group, p: Proof, B: Point, Rg: Point, Rv: Point) {
    c.add(Rv, Mul(c, p.h, p.V)) == Mul(c, p.s, B) && c.add(Rg, Mul(c, p.h, p.A)) == Mul(c, p.s, c.g)
  }

  /**
    A proof is accepted exactly when its scalar h is the challenge for its own commitments over both
    bases: the hash of account, A, V, R_G, R_V and message.
   */
  lemma AcceptedIff(c: Group, hs: Hashes, p: Proof, creator: address, msg: seq<byte>, dst: seq<byte>)
    requires PrimeOrder(c)
    ensures Verify(c, hs, p, creator, msg, dst) <==>
            exists B: Point, Rg: Point, Rv: Point ::
              && Commits(c, p, B, Rg, Rv) && hs.toCurve([creator, msg], dst) == Some(B)
              && hs.toScalar([creator, hs.coordinates(p.A), hs.coordinates(p.V), hs.coordinates(Rg),
                              hs.coordinates(Rv), msg], dst) == Some(p.h)
  {
    hide PrimeOrder, Mul, Sub;
    if hs.toCurve([creator, msg], dst).Some? {
      var B := hs.toCurve([creator, msg], dst).value;
      forall Rg: Point, Rv: Point
        ensures Commits(c, p, B, Rg, Rv) <==>
                Rv == Sub(c, Mul(c, p.s, B), Mul(c, p.h, p.V)) && Rg == Sub(c, Mul(c, p.s, c.g), Mul(c, p.h, p.A))
      {
        SubIff(c, Rv, Mul(c, p.s, B), Mul(c, p.h, p.V));
        SubIff(c, Rg, Mul(c, p.s, c.g), Mul(c, p.h, p.A));
      }
      hide Commits;
      assert Commits(c, p, B, Sub(c, Mul(c, p.s, c.g), Mul(c, p.h, p.A)), Sub(c, Mul(c, p.s, B), Mul(c, p.h, p.V)));
    }
  }

  /** The secret two answers for the same commitments give away. */
  function Extracted(order: nat, inverse: nat, s: nat, s': nat): (x: nat)
    requires order > 0
  {
    MulNonNegative(inverse, Gap(order, s, s'));
    inverse * Gap(order, s, s')
  }

  lemma ExtractOne(c: Group, inverse: nat, r: Point, v: Point, b: Point, h: nat, s: nat, h': nat, s': nat)
    requires PrimeOrder(c) && c.order > 0 && h' < h && Inverse(h - h', inverse, c.order)
    requires c.add(r, Mul(c, h, v)) == Mul(c, s, b) && c.add(r, Mul(c, h', v)) == Mul(c, s', b)
    ensures v == Mul(c, Extracted(c.order, inverse, s, s'), b)
  {
    hide PrimeOrder, Mul, Inverse, Gap;
    TwoAnswers(c, r, v, b, h, s, h', s');
    Undo(c, h - h', inverse, v);
    MulMul(c, inverse, Gap(c.order, s, s'), b);
  }

  lemma ExtractBoth(c: Group, p: Proof, q: Proof, B: Point, Rg: Point, Rv: Point) returns (x: nat)
    requires PrimeOrder(c) && p.V == q.V && p.A == q.A && q.h < p.h < c.order
    requires Commits(c, p, B, Rg, Rv) && Commits(c, q, B, Rg, Rv)
    ensures p.V == Mul(c, x, B) && p.A == Mul(c, x, c.g)
  {
    assert Prime(c.order);
    hide PrimeOrder, Mul;
    var inverse := InverseExists(c.order, p.h - q.h);
    x := Extracted(c.order, inverse, p.s, q.s);
    ExtractOne(c, inverse, Rv, p.V, B, p.h, p.s, q.h, q.s);
    ExtractOne(c, inverse, Rg, p.A, c.g, p.h, p.s, q.h, q.s);
  }

  /**
    Soundness: two proofs for the same commitments, V and A that answer different challenges force V
    and A to be the same multiple of B and of G. So for a wrong V there is, for any commitments, at
    most one challenge that can be answered.
   */
  lemma Sound(c: Group, p: Proof, q: Proof, B: Point, Rg: Point, Rv: Point) returns (x: nat)
    requires PrimeOrder(c) && p.V == q.V && p.A == q.A && p.h != q.h && p.h < c.order && q.h < c.order
    requires Commits(c, p, B, Rg, Rv) && Commits(c, q, B, Rg, Rv)
    ensures p.V == Mul(c, x, B) && p.A == Mul(c, x, c.g)
  {
    hide PrimeOrder, Mul, Commits;
    if q.h < p.h {
      x := ExtractBoth(c, p, q, B, Rg, Rv);
    } else {
      x := ExtractBoth(c, q, p, B, Rg, Rv);
    }
  }

  /** R_G and R_V as a verifier computes them. */
  function Commitments(c: Group, p: Proof, B: Point): (r: (Point, Point)) {
    (Sub(c, Mul(c, p.s, c.g), Mul(c, p.h, p.A)), Sub(c, Mul(c, p.s, B), Mul(c, p.h, p.V)))
  }

  /** What is hashed for the challenge of a proof. */
  function Hashed(hs: Hashes, p: Proof, creator: address, Rg: Point, Rv: Point, msg: seq<byte>): (ms: Messages) {
    [creator, hs.coordinates(p.A), hs.coordinates(p.V), hs.coordinates(Rg), hs.coordinates(Rv), msg]
  }

  /**
    Accepted with the same V, A and commitments under two hashes that differ in the challenge for
    these, a proof is about one secret: V = x*B and A = x*G.
   */
  lemma AcceptedTwice(c: Group, hs: Hashes, hs': Hashes, p: Proof, q: Proof, B: Point, creator: address,
                      msg: seq<byte>, dst: seq<byte>) returns (x: nat)
    requires PrimeOrder(c) && Reduced(hs, c.order) && Reduced(hs', c.order)
    requires Verify(c, hs, p, creator, msg, dst) && Verify(c, hs', q, creator, msg, dst)
    requires hs.toCurve([creator, msg], dst) == Some(B) == hs'.toCurve([creator, msg], dst)
    requires p.V == q.V && p.A == q.A && Commitments(c, p, B) == Commitments(c, q, B)
    requires var (Rg, Rv) := Commitments(c, p, B);
             hs.toScalar(Hashed(hs, p, creator, Rg, Rv, msg), dst)
             != hs'.toScalar(Hashed(hs', p, creator, Rg, Rv, msg), dst)
    ensures p.V == Mul(c, x, B) && p.A == Mul(c, x, c.g)
  {
    hide PrimeOrder, Mul, Sub;
    var (Rg, Rv) := Commitments(c, p, B);
    assert p.h != q.h && p.h < c.order && q.h < c.order;
    hide Verify, Hashed, Reduced;
    SubIff(c, Rv, Mul(c, p.s, B), Mul(c, p.h, p.V));
    SubIff(c, Rg, Mul(c, p.s, c.g), Mul(c, p.h, p.A));
    SubIff(c, Rv, Mul(c, q.s, B), Mul(c, q.h, q.V));
    SubIff(c, Rg, Mul(c, q.s, c.g), Mul(c, q.h, q.A));
    x := Sound(c, p, q, B, Rg, Rv);
  }

  // ----- what a derivation needs

  ghost predicate Total(hs: Hashes) {
    forall ms: Messages, dst: seq<byte> :: hs.toCurve(ms, dst).Some? && hs.toScalar(ms, dst).Some?
  }

  /** Where hashing never fails, a proof can always be derived. */
  lemma TotalHashesDerive(c: Group, hs: Hashes, creator: address, secret: nat, msg: seq<byte>, dst: seq<byte>,
                          random: seq<byte>)
    requires c.order > 0 && Total(hs)
    ensures Derive(c, hs, creator, secret, msg, dst, random).Some?
  {
    hide Mul;
  }

  /** A hash that tells one list of messages from all others, with coordinates that tell one point. */
  function Telling(ms: Messages, v: Point): (hs: Hashes) {
    Hashes((_, _) => None, (xs, _) => if xs == ms then Some(0) else None, x => if x == v then [1] else [])
  }

  /** The nonce depends on the secret, on V and on the fresh randomness: no two of these share it for every hash. */
  lemma NonceBinds(secret: nat, v: Point, random: seq<byte>, secret': nat, v': Point, random': seq<byte>,
                   dst: seq<byte>)
    requires secret < Pow256(32) && secret' < Pow256(32)
    ensures (forall hs: Hashes :: Nonce(hs, secret, v, random, dst) == Nonce(hs, secret', v', random', dst)) <==>
            secret == secret' && v == v' && random == random'
  {
    FromToBE(secret, 32);
    FromToBE(secret', 32);
    hide ToBE, FromBE;
    var ms: Messages := [ToBE(secret, 32), [1], random];
    var hs := Telling(ms, v);
    assert Nonce(hs, secret, v, random, dst) == Some(0);
    if Nonce(hs, secret', v', random', dst) == Some(0) {
      var xs: Messages := [ToBE(secret', 32), hs.coordinates(v'), random'];
      assert xs == ms && xs[0] == ms[0] && xs[1] == ms[1] && xs[2] == ms[2];
      assert v == v';
    }
  }

  // ----- the byte form

  const PROOF_SIZE: nat := 130

  /** Points in 33 bytes; the point at infinity has no such form. */
  datatype PointCodec = PointCodec(encode: Point -> seq<byte>, decode: seq<byte> -> Option<Point>)

  /** The tags of the compressed form, which tell the parity of y; the library decodes other tags too. */
  predicate Compressed(b: seq<byte>) {
    |b| == 33 && b[0] in {2, 3}
  }

  /** The encoder writes the compressed form, and what it writes is read back; that form is unique. */
  ghost predicate Canonical(k: PointCodec, c: Group) {
    && (forall p: Point :: p != c.zero ==> Compressed(k.encode(p)) && k.decode(k.encode(p)) == Some(p))
    && (forall b: seq<byte> :: |b| == 33 && k.decode(b).Some? ==>
          k.decode(b).value != c.zero && (Compressed(b) ==> k.encode(k.decode(b).value) == b))
  }

  function ToBytes(k: PointCodec, p: Proof): (s: seq<byte>) {
    k.encode(p.V) + ToBE(p.h, 32) + ToBE(p.s, 32) + k.encode(p.A)
  }

  /** The buffer the proof is written to, with a running offset. */
  method IntoBytes(k: PointCodec, p: Proof) returns (ret: array<byte>)
    requires |k.encode(p.V)| == 33 && |k.encode(p.A)| == 33
    ensures fresh(ret) && ret[..] == ToBytes(k, p)
  {
    hide ToBE;
    ret := new byte[PROOF_SIZE](_ => 0);
    var off := 0;
    CopyFromSlice(ret, off, k.encode(p.V));
    off := off + 33;
    assert ret[..33] == k.encode(p.V);
    CopyFromSlice(ret, off, ToBE(p.h, 32));
    off := off + 32;
    assert ret[..65] == k.encode(p.V) + ToBE(p.h, 32);
    CopyFromSlice(ret, off, ToBE(p.s, 32));
    off := off + 32;
    assert ret[..97] == k.encode(p.V) + ToBE(p.h, 32) + ToBE(p.s, 32);
    CopyFromSlice(ret, off, k.encode(p.A));
    assert ret[..PROOF_SIZE] == ret[..];
  }

  function ScalarFromBytes(b: seq<byte>, order: nat): (s: Option<nat>) {
    if |b| == 32 && FromBE(b) < order then Some(FromBE(b)) else None
  }

  function FromBytes(k: PointCodec, order: nat, value: seq<byte>): (r: Option<Proof>)
  {
    if |value| != PROOF_SIZE then None
    else
      match (k.decode(value[0..33]), ScalarFromBytes(value[33..65], order),
             ScalarFromBytes(value[65..97], order), k.decode(value[97..130]))
      case (Some(V), Some(h), Some(s), Some(A)) => Some(Proof(V, h, s, A))
      case _ => None
  }

  lemma PointRoundTrip(k: PointCodec, c: Group, p: Point)
    requires Canonical(k, c) && p != c.zero
    ensures Compressed(k.encode(p)) && k.decode(k.encode(p)) == Some(p)
  {}

  lemma FourParts(v: seq<byte>, h: seq<byte>, s: seq<byte>, a: seq<byte>)
    requires |v| == |a| == 33 && |h| == |s| == 32
    ensures var b := v + h + s + a; b[0..33] == v && b[33..65] == h && b[65..97] == s && b[97..130] == a
  {}

  lemma PartsParsed(k: PointCodec, order: nat, v: seq<byte>, h: seq<byte>, s: seq<byte>, a: seq<byte>, p: Proof)
    requires |v| == |a| == 33 && |h| == |s| == 32
    requires k.decode(v) == Some(p.V) && k.decode(a) == Some(p.A)
    requires ScalarFromBytes(h, order) == Some(p.h) && ScalarFromBytes(s, order) == Some(p.s)
    ensures FromBytes(k, order, v + h + s + a) == Some(p)
  {
    hide ScalarFromBytes;
    FourParts(v, h, s, a);
  }

  /** A proof with reduced scalars and finite points comes back from its bytes. */
  lemma BytesRoundTrip(k: PointCodec, c: Group, p: Proof)
    requires Canonical(k, c) && c.order <= Pow256(32)
    requires p.V != c.zero && p.A != c.zero && p.h < c.order && p.s < c.order
    ensures FromBytes(k, c.order, ToBytes(k, p)) == Some(p)
  {
    FromToBE(p.h, 32);
    FromToBE(p.s, 32);
    PointRoundTrip(k, c, p.V);
    PointRoundTrip(k, c, p.A);
    assert ScalarFromBytes(ToBE(p.h, 32), c.order) == Some(p.h) && ScalarFromBytes(ToBE(p.s, 32), c.order) == Some(p.s);
    hide ToBE, FromBE, Pow256, Canonical, ScalarFromBytes;
    PartsParsed(k, c.order, k.encode(p.V), ToBE(p.h, 32), ToBE(p.s, 32), k.encode(p.A), p);
    hide FromBytes;
  }

  lemma DecodedPoint(k: PointCodec, c: Group, b: seq<byte>)
    requires Canonical(k, c) && |b| == 33 && k.decode(b).Some?
    ensures |k.encode(k.decode(b).value)| == 33
    ensures k.encode(k.decode(b).value) == b <==> Compressed(b)
  {
    var p := k.decode(b).value;
    assert Compressed(k.encode(p));
  }

  /** Accepted bytes are the bytes of the proof they stand for if and only if both points carry a compressed tag. */
  lemma BytesCanonical(k: PointCodec, c: Group, value: seq<byte>)
    requires Canonical(k, c) && FromBytes(k, c.order, value).Some?
    ensures ToBytes(k, FromBytes(k, c.order, value).value) == value <==>
            Compressed(value[0..33]) && Compressed(value[97..130])
  {
    DecodedPoint(k, c, value[0..33]);
    DecodedPoint(k, c, value[97..130]);
    ToFromBE(value[33..65]);
    ToFromBE(value[65..97]);
    hide ToBE, FromBE, Canonical, Compressed;
    var p := FromBytes(k, c.order, value).value;
    assert value == value[0..33] + value[33..65] + value[65..97] + value[97..130];
    FourParts(k.encode(p.V), value[33..65], value[65..97], k.encode(p.A));
  }
}
