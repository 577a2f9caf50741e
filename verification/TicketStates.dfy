/**
  The ticket state machine: signing and verifying, acknowledging, redeeming and transferring, and
  what holds of every ticket any sequence of these steps can produce.
 */
module TicketStates {
  import opened Bytes
  import opened Groups
  import opened Primitives
  import opened Tickets
  import opened Wrappers
  import P = ProofOfRelay
  import V = Vrf
  import W = WinProb

  // ----- compact signatures

  /** A signature and its recovery id, below 4, as the signing library returns them. */
  datatype RawSignature = RawSignature(bytes: signature, recoveryId: nat)

  /** `ChainSignature::new`: the parity of the recovery id replaces the top bit of `s`. */
  function Embed(raw: RawSignature): (sig: signature)
  {
    raw.bytes[..32] + [raw.bytes[32] % 128 + 128 * (raw.recoveryId % 2)] + raw.bytes[33..]
  }

  /** `raw_signature`: the bytes without the parity bit, and the parity. */
  function Extract(sig: signature): (raw: RawSignature)
  {
    RawSignature(sig[..32] + [sig[32] % 128] + sig[33..], sig[32] / 128)
  }

  /** Every compact signature is put together again from its parts. */
  lemma EmbedExtract(sig: signature)
    ensures Embed(Extract(sig)) == sig
  {
    assert sig == sig[..32] + [sig[32]] + sig[33..];
  }

  /** A raw signature survives exactly when its `s` leaves the top bit clear and its recovery id is a parity. */
  lemma ExtractEmbed(raw: RawSignature)
    ensures Extract(Embed(raw))
         == RawSignature(raw.bytes[..32] + [raw.bytes[32] % 128] + raw.bytes[33..], raw.recoveryId % 2)
    ensures Extract(Embed(raw)) == raw <==> raw.bytes[32] < 128 && raw.recoveryId < 2
  {
    var (b, e) := (raw.bytes, Embed(raw));
    assert e[..32] == b[..32] && e[33..] == b[33..] && e[32] == b[32] % 128 + 128 * (raw.recoveryId % 2);
    assert e[32] % 128 == b[32] % 128 && e[32] / 128 == raw.recoveryId % 2;
    hide Embed;
    CutAt(b);
    if Extract(e) == raw {
      assert Extract(e).bytes[32] == b[32] % 128;
    }
  }

  lemma CutAt(b: signature)
    ensures b == b[..32] + [b[32]] + b[33..]
  {}

  // ----- the cryptography the machine runs on

  datatype ChainKey = ChainKey(account: address, secret: nat)

  datatype Crypto = Crypto(
    keccak: Digest,
    recover: (signature, nat, word) -> Option<address>,
    sign: (word, ChainKey) -> RawSignature,
    curve: P.Curve,
    hashes: V.Hashes)

  /** The recovery id is tried with either x-coordinate overflow, as only its parity is kept. */
  function RecoverFromHash(c: Crypto, sig: signature, hash: word): (signer: Option<address>)
  {
    var raw := Extract(sig);
    var first := c.recover(raw.bytes, raw.recoveryId, hash);
    if first.Some? then first else c.recover(raw.bytes, raw.recoveryId + 2, hash)
  }

  /**
    What a signing library promises: the signer is recovered, `s` is in the lower half, the recovery
    id has two bits.
   */
  ghost predicate LawfulSigning(c: Crypto) {
    forall hash: word, key: ChainKey ::
      var raw := c.sign(hash, key);
      raw.recoveryId < 4 && raw.bytes[32] < 128 && c.recover(raw.bytes, raw.recoveryId, hash) == Some(key.account)
  }

  /** The recovery id is a parity, or its parity alone recovers nobody else. */
  predicate Recoverable(c: Crypto, hash: word, key: ChainKey) {
    var raw := c.sign(hash, key);
    raw.recoveryId < 2 || c.recover(raw.bytes, raw.recoveryId - 2, hash) in {None, Some(key.account)}
  }

  /** A fresh signature recovers to its signer exactly when it is recoverable. */
  lemma SignedRecovers(c: Crypto, hash: word, key: ChainKey)
    requires LawfulSigning(c)
    ensures RecoverFromHash(c, Embed(c.sign(hash, key)), hash) == Some(key.account) <==> Recoverable(c, hash, key)
  {
    var raw := c.sign(hash, key);
    ExtractEmbed(raw);
    assert raw.bytes == raw.bytes[..32] + [raw.bytes[32]] + raw.bytes[33..];
  }

  // ----- the states of a ticket

  datatype VerifiedTicket = VerifiedTicket(ticket: Ticket, hash: word, issuer: address, channelId: word)

  datatype Object =
    | Plain(plain: Ticket)
    | Verified(ticket: VerifiedTicket)
    | Unacknowledged(ticket: VerifiedTicket, ownKey: word)
    | Acknowledged(ticket: VerifiedTicket, response: word)
    | Redeemable(ticket: VerifiedTicket, response: word, proof: V.Proof, channelDst: word)
    | Transferable(plain: Ticket, response: word, proof: V.Proof, signer: address)

  const REDEEM_CALL_SELECTOR: seq<byte> := [235, 19, 235, 17]

  /** The channel and the hash that is signed. */
  function GetHash(keccak: Digest, t: Ticket, issuer: address, dst: word): (r: (word, word))
  {
    var ticketHash := keccak(ForSigning(keccak, t, issuer));
    var hashStruct := keccak(REDEEM_CALL_SELECTOR + Zeros(28) + ticketHash);
    (ChannelId(keccak, issuer, t.counterparty), keccak([0x19, 0x01] + dst + hashStruct))
  }

  function Sign(c: Crypto, t: Ticket, key: ChainKey, dst: word): (v: VerifiedTicket)
  {
    var (channelId, hash) := GetHash(c.keccak, t, key.account, dst);
    VerifiedTicket(t.(signature := Some(Embed(c.sign(hash, key)))), hash, key.account, channelId)
  }

  function Verify(c: Crypto, t: Ticket, issuer: address, dst: word): (v: Option<VerifiedTicket>)
  {
    var (channelId, hash) := GetHash(c.keccak, t, issuer, dst);
    match t.signature
    case None => None
    case Some(sig) =>
      if RecoverFromHash(c, sig, hash) == Some(issuer) then Some(VerifiedTicket(t, hash, issuer, channelId)) else None
  }

  /** `check_ticket_win` over the ticket's hash, the proof's V, the response and the signature. */
  predicate TicketWins(c: Crypto, v: VerifiedTicket, response: word, proof: V.Proof) {
    v.ticket.signature.Some?
    && W.Wins(c.keccak(v.hash + c.hashes.coordinates(proof.V) + response + v.ticket.signature.value),
              v.ticket.encodedWinProb)
  }

  /** Acknowledged to redeemable; the recipient must not be the issuer, and the ticket must win. */
  function IntoRedeemable(c: Crypto, v: VerifiedTicket, response: word, key: ChainKey, dst: word,
                          random: seq<byte>, native: bool)
    : (r: Option<Object>)
    requires c.curve.group.order > 0
  {
    if key.account == v.issuer then None
    else
      match V.DeriveBy(native, c.curve.group, c.hashes, key.account, key.secret, v.hash, dst, random)
      case None => None
      case Some(proof) =>
        if TicketWins(c, v, response, proof) then Some(Redeemable(v, response, proof, dst)) else None
  }

  function IntoTransferable(o: Object): (r: Object)
    requires o.Redeemable?
  {
    Transferable(o.ticket.ticket, o.response, o.proof, o.ticket.issuer)
  }

  /** Transferable to redeemable, verifying the signature and the win again. */
  function BackToRedeemable(c: Crypto, o: Object, expectedIssuer: address, dst: word): (r: Option<Object>)
    requires o.Transferable?
  {
    if o.signer != expectedIssuer then None
    else
      match Verify(c, o.plain, o.signer, dst)
      case None => None
      case Some(v) =>
        if TicketWins(c, v, o.response, o.proof) then Some(Redeemable(v, o.response, o.proof, dst)) else None
  }

  /** `PartialEq` of redeemable tickets ignores the proof. */
  predicate SameRedeemable(a: Object, b: Object)
    requires a.Redeemable? && b.Redeemable?
  {
    a.ticket == b.ticket && a.channelDst == b.channelDst && a.response == b.response
  }

  // ----- runs

  /** A step makes a new object from one of those at hand, or receives one from outside. */
  datatype Step =
    | Receive(plain: Ticket)
    | ReceiveTransferable(plain: Ticket, response: word, proof: V.Proof, signer: address)
    | SignStep(i: nat, key: ChainKey, dst: word)
    | VerifyStep(i: nat, issuer: address, dst: word)
    | Leak(i: nat)
    | IntoUnacknowledged(i: nat, ownKey: word)
    | IntoAcknowledged(i: nat, response: word)
    | Acknowledge(i: nat, acknowledgement: word)
    | Redeem(i: nat, key: ChainKey, dst: word, random: seq<byte>, native: bool)
    | Transfer(i: nat)
    | TakeBack(i: nat, expectedIssuer: address, dst: word)
    | Unredeem(i: nat)

  function AsVerified(v: Option<VerifiedTicket>): (r: Option<Object>) {
    if v.Some? then Some(Verified(v.value)) else None
  }

  function AsAcknowledged(v: VerifiedTicket, response: Option<word>): (r: Option<Object>) {
    if response.Some? then Some(Acknowledged(v, response.value)) else None
  }

  /** The object a step makes of another, if the step applies and succeeds. */
  function Transition(c: Crypto, o: Object, s: Step): (r: Option<Object>)
    requires c.curve.group.order > 0
  {
    match s
    case SignStep(_, key, dst) => if o.Plain? then Some(Verified(Sign(c, o.plain, key, dst))) else None
    case VerifyStep(_, issuer, dst) => if o.Plain? then AsVerified(Verify(c, o.plain, issuer, dst)) else None
    case Leak(_) => if o.Verified? then Some(Plain(o.ticket.ticket)) else None
    case IntoUnacknowledged(_, own) => if o.Verified? then Some(Unacknowledged(o.ticket, own)) else None
    case IntoAcknowledged(_, response) => if o.Verified? then Some(Acknowledged(o.ticket, response)) else None
    case Acknowledge(_, ack) =>
      if o.Unacknowledged?
      then AsAcknowledged(o.ticket, P.Acknowledge(c.curve, o.ticket.ticket.challenge, o.ownKey, ack)) else None
    case Redeem(_, key, dst, random, native) =>
      if o.Acknowledged? then IntoRedeemable(c, o.ticket, o.response, key, dst, random, native) else None
    case Transfer(_) => if o.Redeemable? then Some(IntoTransferable(o)) else None
    case TakeBack(_, issuer, dst) => if o.Transferable? then BackToRedeemable(c, o, issuer, dst) else None
    case Unredeem(_) => if o.Redeemable? then Some(Acknowledged(o.ticket, o.response)) else None
    case _ => None
  }

  function Yield(c: Crypto, pool: seq<Object>, s: Step): (r: Option<Object>)
    requires c.curve.group.order > 0
  {
    if s.Receive? then Some(Plain(s.plain))
    else if s.ReceiveTransferable? then Some(Transferable(s.plain, s.response, s.proof, s.signer))
    else if s.i < |pool| then Transition(c, pool[s.i], s)
    else None
  }

  function After(c: Crypto, pool: seq<Object>, s: Step): (r: seq<Object>)
    requires c.curve.group.order > 0
  {
    match Yield(c, pool, s)
    case None => pool
    case Some(o) => pool + [o]
  }

  function Run(c: Crypto, pool: seq<Object>, steps: seq<Step>): (r: seq<Object>)
    requires c.curve.group.order > 0
    decreases |steps|
  {
    if steps == [] then pool else Run(c, After(c, pool, steps[0]), steps[1..])
  }

  // ----- what every object of every run satisfies

  /** The hash and the channel are those of the ticket for its issuer, and the signature recovers to that issuer. */
  ghost predicate Trusted(c: Crypto, v: VerifiedTicket) {
    && (exists dst: word :: GetHash(c.keccak, v.ticket, v.issuer, dst) == (v.channelId, v.hash))
    && v.ticket.signature.Some?
    && RecoverFromHash(c, v.ticket.signature.value, v.hash) == Some(v.issuer)
  }

  ghost predicate Sound(c: Crypto, o: Object) {
    match o
    case Plain(_) => true
    case Transferable(_, _, _, _) => true
    case Redeemable(v, response, proof, _) => Trusted(c, v) && TicketWins(c, v, response, proof)
    case _ => Trusted(c, o.ticket)
  }

  ghost predicate AllSound(c: Crypto, pool: seq<Object>) {
    forall i :: 0 <= i < |pool| ==> Sound(c, pool[i])
  }

  /** Signing gives a trusted ticket exactly when the signature is recoverable. */
  lemma SignTrusted(c: Crypto, t: Ticket, key: ChainKey, dst: word)
    requires LawfulSigning(c)
    ensures Trusted(c, Sign(c, t, key, dst)) <==> Recoverable(c, GetHash(c.keccak, t, key.account, dst).1, key)
  {
    hide RecoverFromHash, Embed, Recoverable;
    var v := Sign(c, t, key, dst);
    SignatureNotHashed(c.keccak, t, v.ticket.signature, key.account, dst);
    SignedRecovers(c, v.hash, key);
    assert GetHash(c.keccak, v.ticket, v.issuer, dst) == (v.channelId, v.hash);
  }

  /** The signature is no part of what is hashed. */
  lemma SignatureNotHashed(keccak: Digest, t: Ticket, sig: Option<signature>, issuer: address, dst: word)
    ensures GetHash(keccak, t.(signature := sig), issuer, dst) == GetHash(keccak, t, issuer, dst)
  {
    assert Tail(t.(signature := sig)) == Tail(t);
  }

  lemma VerifyTrusted(c: Crypto, t: Ticket, issuer: address, dst: word)
    requires Verify(c, t, issuer, dst).Some?
    ensures Trusted(c, Verify(c, t, issuer, dst).value)
  {
    hide RecoverFromHash, GetHash;
    var v := Verify(c, t, issuer, dst).value;
    assert GetHash(c.keccak, v.ticket, v.issuer, dst) == (v.channelId, v.hash);
  }

  /** A signing step makes a recoverable signature; no other step asks for anything. */
  predicate SignsRecoverably(c: Crypto, o: Object, s: Step) {
    s.SignStep? && o.Plain? ==> Recoverable(c, GetHash(c.keccak, o.plain, s.key.account, s.dst).1, s.key)
  }

  lemma TransitionSound(c: Crypto, o: Object, s: Step)
    requires LawfulSigning(c) && c.curve.group.order > 0
    requires Sound(c, o) && Transition(c, o, s).Some?
    ensures Sound(c, Transition(c, o, s).value) <==> SignsRecoverably(c, o, s)
  {
    hide Trusted, TicketWins, Sign, Verify, LawfulSigning, Recoverable;
    match s
    case SignStep(_, key, dst) => SignTrusted(c, o.plain, key, dst);
    case VerifyStep(_, issuer, dst) => VerifyTrusted(c, o.plain, issuer, dst);
    case TakeBack(_, _, dst) => VerifyTrusted(c, o.plain, o.signer, dst);
    case _ =>
  }

  /** Every signature made along a run is recoverable. */
  predicate AllRecoverable(c: Crypto, pool: seq<Object>, steps: seq<Step>)
    requires c.curve.group.order > 0
    decreases |steps|
  {
    steps == [] ||
    (var s := steps[0];
     && (s.SignStep? && s.i < |pool| ==> SignsRecoverably(c, pool[s.i], s))
     && AllRecoverable(c, After(c, pool, s), steps[1..]))
  }

  lemma {:induction false} RunExtends(c: Crypto, pool: seq<Object>, steps: seq<Step>)
    requires c.curve.group.order > 0
    ensures pool <= Run(c, pool, steps)
    decreases |steps|
  {
    if steps != [] {
      RunExtends(c, After(c, pool, steps[0]), steps[1..]);
    }
  }

  lemma AfterSound(c: Crypto, pool: seq<Object>, s: Step)
    requires LawfulSigning(c) && c.curve.group.order > 0 && AllSound(c, pool)
    ensures AllSound(c, After(c, pool, s)) <==> (s.SignStep? && s.i < |pool| ==> SignsRecoverably(c, pool[s.i], s))
  {
    hide LawfulSigning, Transition, Sound, Recoverable;
    if s.Receive? || s.ReceiveTransferable? {
      Received(c, s);
    } else if s.i < |pool| && Transition(c, pool[s.i], s).Some? {
      TransitionSound(c, pool[s.i], s);
      var next := After(c, pool, s);
      assert next[|pool|] == Transition(c, pool[s.i], s).value;
      assert forall i :: 0 <= i < |pool| ==> next[i] == pool[i];
    } else if s.i < |pool| {
      AlwaysSigns(c, pool[s.i], s);
    }
  }

  lemma Received(c: Crypto, s: Step)
    requires s.Receive? || s.ReceiveTransferable?
    ensures s.Receive? ==> Sound(c, Plain(s.plain))
    ensures s.ReceiveTransferable? ==> Sound(c, Transferable(s.plain, s.response, s.proof, s.signer))
  {}

  lemma AlwaysSigns(c: Crypto, o: Object, s: Step)
    requires c.curve.group.order > 0 && Transition(c, o, s).None?
    ensures s.SignStep? ==> !o.Plain?
  {}

  /**
    Along every run, verified tickets stay trustworthy and redeemable tickets are winning, if and
    only if every signature made on the way is recoverable.
   */
  lemma {:induction false} RunKeepsSound(c: Crypto, pool: seq<Object>, steps: seq<Step>)
    requires LawfulSigning(c) && c.curve.group.order > 0 && AllSound(c, pool)
    ensures AllSound(c, Run(c, pool, steps)) <==> AllRecoverable(c, pool, steps)
    decreases |steps|
  {
    if steps != [] {
      hide LawfulSigning, After, Sound, SignsRecoverably;
      var next := After(c, pool, steps[0]);
      AfterSound(c, pool, steps[0]);
      if AllSound(c, next) {
        RunKeepsSound(c, next, steps[1..]);
      } else {
        RunExtends(c, next, steps[1..]);
        var i :| 0 <= i < |next| && !Sound(c, next[i]);
        assert Run(c, pool, steps)[i] == next[i];
      }
    }
  }

  // ----- what transitions carry over

  function PlainOf(o: Object): (t: Ticket) {
    match o
    case Plain(t) => t
    case Transferable(t, _, _, _) => t
    case _ => o.ticket.ticket
  }

  predicate HasResponse(o: Object) {
    o.Acknowledged? || o.Redeemable? || o.Transferable?
  }

  function ResponseOf(o: Object): (r: word)
    requires HasResponse(o)
  {
    match o
    case Acknowledged(_, r) => r
    case Redeemable(_, r, _, _) => r
    case Transferable(_, r, _, _) => r
  }

  function ProofOf(o: Object): (p: Option<V.Proof>) {
    match o
    case Redeemable(_, _, p, _) => Some(p)
    case Transferable(_, _, p, _) => Some(p)
    case _ => None
  }

  /** What was verified stays as it is. */
  function VerifiedOf(o: Object): (v: Option<VerifiedTicket>) {
    match o
    case Plain(_) => None
    case Transferable(_, _, _, _) => None
    case _ => Some(o.ticket)
  }

  /**
    Only signing touches a ticket, and only its signature; a verified ticket, a response and a proof
    are handed on unchanged from every state to the next.
   */
  lemma TransitionCarries(c: Crypto, o: Object, s: Step)
    requires c.curve.group.order > 0 && Transition(c, o, s).Some?
    ensures var r := Transition(c, o, s).value;
            && PlainOf(r).(signature := None) == PlainOf(o).(signature := None)
            && (!s.SignStep? ==> PlainOf(r) == PlainOf(o))
            && (VerifiedOf(o).Some? && VerifiedOf(r).Some? ==> VerifiedOf(r) == VerifiedOf(o))
            && (HasResponse(o) ==> HasResponse(r) && ResponseOf(r) == ResponseOf(o))
            && (ProofOf(o).Some? && ProofOf(r).Some? ==> ProofOf(r) == ProofOf(o))
            && (s.IntoUnacknowledged? ==> r == Unacknowledged(o.ticket, s.ownKey))
            && (s.IntoAcknowledged? ==> r == Acknowledged(o.ticket, s.response))
  {
    hide GetHash, RecoverFromHash, TicketWins, V.DeriveBy, P.Acknowledge, Embed;
  }

  /** A ticket, up to its signature, was in the pool or was received on the way. */
  predicate Known(pool: seq<Object>, steps: seq<Step>, t: Ticket) {
    || (exists i :: 0 <= i < |pool| && PlainOf(pool[i]).(signature := None) == t.(signature := None))
    || (exists j :: 0 <= j < |steps| && Brings(steps[j], t))
  }

  predicate Brings(s: Step, t: Ticket) {
    (s.Receive? || s.ReceiveTransferable?) && s.plain.(signature := None) == t.(signature := None)
  }

  lemma AfterKnown(c: Crypto, pool: seq<Object>, s: Step, t: Ticket)
    requires c.curve.group.order > 0 && Known(After(c, pool, s), [], t)
    ensures Known(pool, [s], t)
  {
    hide Transition;
    var next := After(c, pool, s);
    var i :| 0 <= i < |next| && PlainOf(next[i]).(signature := None) == t.(signature := None);
    if i < |pool| {
      assert next[i] == pool[i];
    } else if s.Receive? || s.ReceiveTransferable? {
      assert Brings([s][0], t);
    } else {
      TransitionCarries(c, pool[s.i], s);
    }
  }

  /** No run makes up a ticket: every object holds one that was there or was received, up to its signature. */
  lemma {:induction false} RunKnowsTickets(c: Crypto, pool: seq<Object>, steps: seq<Step>, i: nat)
    requires c.curve.group.order > 0 && i < |Run(c, pool, steps)|
    ensures Known(pool, steps, PlainOf(Run(c, pool, steps)[i]))
    decreases |steps|
  {
    var t := PlainOf(Run(c, pool, steps)[i]);
    if steps != [] {
      hide After, PlainOf;
      var next := After(c, pool, steps[0]);
      RunKnowsTickets(c, next, steps[1..], i);
      if exists j :: 0 <= j < |steps[1..]| && Brings(steps[1..][j], t) {
        var j :| 0 <= j < |steps[1..]| && Brings(steps[1..][j], t);
        assert Brings(steps[j + 1], t);
      } else {
        assert Known(next, [], t);
        AfterKnown(c, pool, steps[0], t);
        assert Brings([steps[0]][0], t) ==> Brings(steps[0], t);
      }
    }
  }

  // ----- the proofs that redeemable tickets carry

  /** The hash of a verified ticket was computed under this separator. */
  predicate HashedUnder(c: Crypto, v: VerifiedTicket, dst: word) {
    GetHash(c.keccak, v.ticket, v.issuer, dst).1 == v.hash
  }

  /** A proof that verifies for some account. */
  ghost predicate VerifiesForSomeone(c: Crypto, proof: V.Proof, hash: word, dst: word) {
    exists account: address :: V.Verify(c.curve.group, c.hashes, proof, account, hash, dst)
  }

  /** Under one separator: hashes were computed with it, and every proof verifies for the hash of its ticket. */
  ghost predicate Proven(c: Crypto, o: Object, dst: word) {
    match o
    case Plain(_) => true
    case Transferable(t, _, proof, signer) =>
      VerifiesForSomeone(c, proof, GetHash(c.keccak, t, signer, dst).1, dst)
    case Redeemable(v, _, proof, d) => d == dst && HashedUnder(c, v, dst) && VerifiesForSomeone(c, proof, v.hash, dst)
    case _ => HashedUnder(c, o.ticket, dst)
  }

  /** A step uses no other separator, and what it receives carries a verifying proof. */
  ghost predicate Faithful(c: Crypto, s: Step, dst: word) {
    match s
    case ReceiveTransferable(t, response, proof, signer) => Proven(c, Transferable(t, response, proof, signer), dst)
    case SignStep(_, _, d) => d == dst
    case VerifyStep(_, _, d) => d == dst
    case Redeem(_, _, d, _, _) => d == dst
    case TakeBack(_, _, d) => d == dst
    case _ => true
  }

  lemma TransitionProven(c: Crypto, o: Object, s: Step, dst: word)
    requires c.curve.group.order > 0 && PrimeOrder(c.curve.group)
    requires Proven(c, o, dst) && Faithful(c, s, dst) && Transition(c, o, s).Some?
    ensures Proven(c, Transition(c, o, s).value, dst)
  {
    hide PrimeOrder, TicketWins, RecoverFromHash, VerifiesForSomeone, GetHash;
    match s
    case SignStep(_, key, _) =>
      SignatureNotHashed(c.keccak, o.plain, Transition(c, o, s).value.ticket.ticket.signature, key.account, dst);
    case Redeem(_, key, _, random, native) =>
      ProofMade(c, o.ticket, o.response, key, dst, random, native);
    case _ =>
  }

  lemma ProofMade(c: Crypto, v: VerifiedTicket, response: word, key: ChainKey, dst: word,
                  random: seq<byte>, native: bool)
    requires c.curve.group.order > 0 && PrimeOrder(c.curve.group)
    requires IntoRedeemable(c, v, response, key, dst, random, native).Some?
    ensures VerifiesForSomeone(c, IntoRedeemable(c, v, response, key, dst, random, native).value.proof, v.hash, dst)
  {
    RedeemedProofVerifies(c, v, response, key, dst, random, native);
    hide V.Verify, V.DeriveBy, PrimeOrder;
  }

  ghost predicate AllProven(c: Crypto, pool: seq<Object>, dst: word) {
    forall i :: 0 <= i < |pool| ==> Proven(c, pool[i], dst)
  }

  ghost predicate AllFaithful(c: Crypto, steps: seq<Step>, dst: word) {
    forall i :: 0 <= i < |steps| ==> Faithful(c, steps[i], dst)
  }

  lemma AfterProven(c: Crypto, pool: seq<Object>, s: Step, dst: word)
    requires c.curve.group.order > 0 && PrimeOrder(c.curve.group)
    requires AllProven(c, pool, dst) && Faithful(c, s, dst)
    ensures AllProven(c, After(c, pool, s), dst)
  {
    hide PrimeOrder, Proven, Transition, Faithful;
    if s.Receive? || s.ReceiveTransferable? {
      ReceivedProven(c, s, dst);
    } else if Yield(c, pool, s).Some? {
      TransitionProven(c, pool[s.i], s, dst);
    }
  }

  /**
    Along every run under one separator, in which every transferable ticket received carries a
    verifying proof, every redeemable ticket carries a proof that verifies for some account.
   */
  lemma {:induction false} RunKeepsProofs(c: Crypto, pool: seq<Object>, steps: seq<Step>, dst: word)
    requires c.curve.group.order > 0 && PrimeOrder(c.curve.group)
    requires AllProven(c, pool, dst) && AllFaithful(c, steps, dst)
    ensures AllProven(c, Run(c, pool, steps), dst)
    decreases |steps|
  {
    if steps != [] {
      hide PrimeOrder, AllProven, After, Faithful;
      AfterProven(c, pool, steps[0], dst);
      RunKeepsProofs(c, After(c, pool, steps[0]), steps[1..], dst);
    }
  }

  lemma ReceivedProven(c: Crypto, s: Step, dst: word)
    requires (s.Receive? || s.ReceiveTransferable?) && Faithful(c, s, dst)
    ensures s.Receive? ==> Proven(c, Plain(s.plain), dst)
    ensures s.ReceiveTransferable? ==> Proven(c, Transferable(s.plain, s.response, s.proof, s.signer), dst)
  {}

  // ----- what single transitions give back

  /**
    A signed ticket verifies under the same separator to the very same verified ticket, exactly when
    its signature is recoverable.
   */
  lemma SignThenVerify(c: Crypto, t: Ticket, key: ChainKey, dst: word)
    requires LawfulSigning(c)
    ensures Verify(c, Sign(c, t, key, dst).ticket, key.account, dst) == Some(Sign(c, t, key, dst)) <==>
            Recoverable(c, GetHash(c.keccak, t, key.account, dst).1, key)
  {
    SignTrusted(c, t, key, dst);
    var v := Sign(c, t, key, dst);
    SignatureNotHashed(c.keccak, t, v.ticket.signature, key.account, dst);
    hide GetHash, RecoverFromHash, Recoverable;
    assert GetHash(c.keccak, v.ticket, v.issuer, dst) == (v.channelId, v.hash);
  }

  /**
    A redeemable ticket comes back from its transferable form, proof and all, if and only if the
    separator is the one it was made redeemable under and the one its hash was computed with; under
    any other it is refused or comes back different.
   */
  lemma TransferRoundTrip(c: Crypto, o: Object, dst: word)
    requires o.Redeemable? && Sound(c, o)
    ensures var back := BackToRedeemable(c, IntoTransferable(o), o.ticket.issuer, dst);
            && (back == Some(o) <==> dst == o.channelDst && HashedUnder(c, o.ticket, dst))
            && (back.Some? && SameRedeemable(back.value, o) <==> back == Some(o))
  {
    hide RecoverFromHash;
    var v := o.ticket;
    SameChannel(c.keccak, v.ticket, v.issuer, dst);
    hide GetHash;
  }

  lemma SameChannel(keccak: Digest, t: Ticket, issuer: address, dst: word)
    ensures GetHash(keccak, t, issuer, dst).0 == ChannelId(keccak, issuer, t.counterparty)
  {}

  /** What is made redeemable locally carries a proof that verifies for its redeemer, who did not issue the ticket. */
  lemma RedeemedProofVerifies(c: Crypto, v: VerifiedTicket, response: word, key: ChainKey, dst: word,
                              random: seq<byte>, native: bool)
    requires c.curve.group.order > 0 && PrimeOrder(c.curve.group)
    requires IntoRedeemable(c, v, response, key, dst, random, native).Some?
    ensures var o := IntoRedeemable(c, v, response, key, dst, random, native).value;
            && o.Redeemable? && o.ticket == v && o.response == response && o.channelDst == dst
            && key.account != v.issuer
            && V.Verify(c.curve.group, c.hashes, o.proof, key.account, v.hash, dst)
  {
    hide PrimeOrder, TicketWins, V.Verify, V.DeriveBy;
    V.DerivedProves(native, c.curve.group, c.hashes, key.account, key.secret, v.hash, dst, random);
  }

  /**
    A ticket is made redeemable exactly by an account that did not issue it, can derive a proof for
    the ticket's hash, and wins with it.
   */
  lemma RedeemsExactly(c: Crypto, v: VerifiedTicket, response: word, key: ChainKey, dst: word,
                       random: seq<byte>, native: bool)
    requires c.curve.group.order > 0
    ensures var proof := V.DeriveBy(native, c.curve.group, c.hashes, key.account, key.secret, v.hash, dst, random);
            IntoRedeemable(c, v, response, key, dst, random, native).Some? <==>
            key.account != v.issuer && proof.Some? && TicketWins(c, v, response, proof.value)
  {
    hide V.DeriveBy, TicketWins;
  }

  /**
    A transferable ticket is taken back exactly as the verified ticket of its signer, who must be the
    expected issuer: with the hash under the given separator, from which the signature recovers the
    issuer, and with a winning draw.
   */
  lemma TakesBackExactly(c: Crypto, o: Object, issuer: address, dst: word, v: VerifiedTicket)
    requires o.Transferable?
    ensures BackToRedeemable(c, o, issuer, dst) == Some(Redeemable(v, o.response, o.proof, dst)) <==>
            && issuer == o.signer == v.issuer && v.ticket == o.plain
            && GetHash(c.keccak, o.plain, issuer, dst) == (v.channelId, v.hash)
            && o.plain.signature.Some? && RecoverFromHash(c, o.plain.signature.value, v.hash) == Some(issuer)
            && TicketWins(c, v, o.response, o.proof)
    ensures BackToRedeemable(c, o, issuer, dst).Some? ==>
              exists w :: BackToRedeemable(c, o, issuer, dst) == Some(Redeemable(w, o.response, o.proof, dst))
  {
    hide GetHash, RecoverFromHash, TicketWins;
  }

  /**
    When a ticket is taken back, nothing is said about its proof: for every account the proof of the
    redeemable ticket verifies exactly when the transferred one does for the ticket's hash.
   */
  lemma TakenBackProof(c: Crypto, o: Object, issuer: address, dst: word, account: address)
    requires o.Transferable? && BackToRedeemable(c, o, issuer, dst).Some?
    ensures var b := BackToRedeemable(c, o, issuer, dst).value;
            V.Verify(c.curve.group, c.hashes, b.proof, account, b.ticket.hash, b.channelDst) <==>
            V.Verify(c.curve.group, c.hashes, o.proof, account, GetHash(c.keccak, o.plain, o.signer, dst).1, dst)
  {
    hide RecoverFromHash, GetHash, V.Verify, TicketWins;
  }

  /** A signed ticket that always wins, as it is received for redemption. */
  function SureWin(proof: V.Proof): (o: Object) {
    Transferable(Ticket(Zeros(20), 0, 0, W.ALWAYS, 0, Zeros(20), Some(Zeros(64))), Zeros(32), proof, Zeros(20))
  }

  /** Cryptography in which every challenge scalar is zero, and every signature recovers to one account. */
  function ZeroChallenges(curve: P.Curve, toCurve: (V.Messages, seq<byte>) -> Option<Point>): (c: Crypto) {
    Crypto(_ => Zeros(32), (_, _, _) => Some(Zeros(20)), (_, _) => RawSignature(Zeros(64), 0), curve,
           V.Hashes(toCurve, (_, _) => Some(0), _ => []))
  }

  /** A taken-back ticket whose proof verifies for nobody: its challenge scalar is not the hash of anything. */
  lemma FalseProofTakenBack(curve: P.Curve, toCurve: (V.Messages, seq<byte>) -> Option<Point>,
                            v: Point, a: Point, dst: word)
    ensures var c := ZeroChallenges(curve, toCurve);
            var back := BackToRedeemable(c, SureWin(V.Proof(v, 1, 0, a)), Zeros(20), dst);
            && back.Some? && back.value.proof == V.Proof(v, 1, 0, a)
            && !VerifiesForSomeone(c, back.value.proof, back.value.ticket.hash, dst)
  {
    FromBEZeros(7);
    W.LuckOfEnds();
    assert Zeros(32)[..7] == Zeros(7);
    var c := ZeroChallenges(curve, toCurve);
    assert forall account: address, hash: word ::
      !V.Verify(c.curve.group, c.hashes, V.Proof(v, 1, 0, a), account, hash, dst);
  }

  /** A response found by acknowledging solves the challenge of the ticket. */
  lemma AcknowledgedSolves(c: Crypto, o: Object, s: Step)
    requires P.Lawful(c.curve) && c.curve.group.order > 0
    requires o.Unacknowledged? && s.Acknowledge? && Transition(c, o, s).Some?
    ensures var r := Transition(c, o, s).value;
            && r.Acknowledged? && r.ticket == o.ticket
            && P.FromHalfKeys(c.curve, o.ownKey, s.acknowledgement) == Some(r.response)
            && P.ResponseToChallenge(c.curve, r.response).Some?
            && c.curve.addressOf(P.ResponseToChallenge(c.curve, r.response).value) == o.ticket.ticket.challenge
  {
    hide P.FromHalfKeys, P.ResponseToChallenge;
  }
}
