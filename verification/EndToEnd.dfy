/**
  From a node action to signed bytes and back: the generator, the envelope, signer recovery and the
  parser together.
 */
module EndToEnd {
  import opened Bytes
  import opened Envelope
  import opened Parser
  import opened ParserProofs
  import opened Payload
  import opened Primitives
  import opened Rlp
  import opened Tickets
  import opened Wrappers

  /** Recovers the address that signed a hash, given the parity, `r` and `s` of the signature. */
  type Recover = (word, nat, nat, nat) -> Option<address>

  function ParseFromEip2718(keccak: Digest, recover: Recover, bytes: seq<byte>, safeModule: address,
                            addrs: ContractAddresses): (r: Result<(ParsedAction, address), ParseError>)
  {
    match DecodeSigned(bytes)
    case None => Err(MalformedEnvelope)
    case Some(signed) =>
      match recover(keccak(PayloadOf(signed.tx)), signed.yParity, signed.r, signed.s)
      case None => Err(NoSigner)
      case Some(signer) =>
        match Parse(keccak, Transaction(signed.tx.to, signed.tx.value, signed.tx.input), signer, safeModule, addrs)
        case Err(e) => Err(e)
        case Ok(action) => Ok((action, signer))
  }

  /** Recovery returns the signer of the payload hash for the signature the signer made. */
  predicate RecoversSigner(recover: Recover, hash: word, sig: EcdsaSignature, signer: address) {
    recover(hash, sig.recoveryId, FromBE(sig.r), FromBE(sig.s)) == Some(signer)
  }

  /**
    The bytes a node signs for an action are parsed back as that action of that node exactly when
    the action satisfies `ReadBack` and the signature has a parity and no leading zero bytes.
   */
  lemma ParseInvertsSign(keccak: Digest, recover: Recover, g: Generator, safeModule: address, a: Action,
                         nonce: u64, chainId: u64, gas: GasEstimation, sig: EcdsaSignature)
    requires Applies(g, safeModule, a) && Meaning(keccak, g, a).Some? && sig.recoveryId < 4
    requires |SignedEnvelope(Generate(g, a).value, nonce, chainId, gas, sig)| < 0x1_0000_0000_0000_0000
    requires RecoversSigner(recover, keccak(SigningPayload(Generate(g, a).value, nonce, chainId, gas)), sig, g.me)
    ensures ParseFromEip2718(keccak, recover, SignedEnvelope(Generate(g, a).value, nonce, chainId, gas, sig),
                             safeModule, g.addrs)
            == Ok((Meaning(keccak, g, a).value, g.me))
            <==> (Canonical(sig) && ReadBack(g, safeModule, a))
  {
    var req := Generate(g, a).value;
    SignedRoundTrip(req, nonce, chainId, gas, sig);
    PayloadRebuilt(req, nonce, chainId, gas);
    ParseInvertsGenerate(keccak, g, safeModule, a);
  }

  // ----- a signature that is lost

  /** Whatever was signed: without a canonical signature nothing is decoded. */
  lemma NotCanonicalIsLost(keccak: Digest, recover: Recover, req: TransactionRequest, nonce: u64, chainId: u64,
                           gas: GasEstimation, sig: EcdsaSignature, safeModule: address, addrs: ContractAddresses)
    requires sig.recoveryId < 4 && !Canonical(sig)
    requires |SignedEnvelope(req, nonce, chainId, gas, sig)| < 0x1_0000_0000_0000_0000
    ensures ParseFromEip2718(keccak, recover, SignedEnvelope(req, nonce, chainId, gas, sig), safeModule, addrs)
            == Err(MalformedEnvelope)
  {
    hide Canonical, SignedEnvelope;
    SignedRoundTrip(req, nonce, chainId, gas, sig);
  }

  /** An item whose encoding takes at most 56 bytes. */
  predicate Short(x: Item) {
    x == List([]) || (x.Str? && |x.bytes| <= 55)
  }

  lemma ShortLength(x: Item)
    requires Short(x)
    ensures |Rlp.Encode(x)| <= 56
  {
    assert EncodeAll([]) == [];
  }

  lemma {:induction false} ShortItemsLength(xs: seq<Item>)
    requires forall i :: 0 <= i < |xs| ==> Short(xs[i])
    ensures |EncodeAll(xs)| <= 56 * |xs|
  {
    if xs != [] {
      ShortLength(xs[0]);
      ShortItemsLength(xs[1..]);
    }
  }

  lemma ShortListLength(xs: seq<Item>)
    requires |xs| <= 12 && forall i :: 0 <= i < |xs| ==> Short(xs[i])
    ensures |[2] + Rlp.Encode(List(xs))| < 0x1_0000
  {
    ShortItemsLength(xs);
    Widths();
    MinimalBELength(|EncodeAll(xs)|, 8);
  }

  lemma ShortFields(req: TransactionRequest, nonce: u64, chainId: u64, gas: GasEstimation)
    requires |req.input| <= 55
    ensures forall i :: 0 <= i < 9 ==> Short(UnsignedItems(req, nonce, chainId, gas)[i])
  {
    hide MinimalBE, TrimBE, FromBE;
    IntegerFields(nonce, chainId, gas, req.value);
  }

  lemma ShortSignature(sig: EcdsaSignature)
    requires sig.recoveryId < 4
    ensures forall i :: 0 <= i < 3 ==> Short(SignatureItems(sig)[i])
  {
    OneByte(sig.recoveryId);
  }

  lemma SmallEnvelope(req: TransactionRequest, nonce: u64, chainId: u64, gas: GasEstimation, sig: EcdsaSignature)
    requires |req.input| <= 55 && sig.recoveryId < 4
    ensures |SignedEnvelope(req, nonce, chainId, gas, sig)| < 0x1_0000
  {
    ShortFields(req, nonce, chainId, gas);
    ShortSignature(sig);
    hide UnsignedItems, SignatureItems, Short, Rlp.Encode;
    ShortListLength(UnsignedItems(req, nonce, chainId, gas) + SignatureItems(sig));
  }

  /**
    The registration of a safe, signed with an `r` of 2^240: the bytes of `r` start with a zero, so no
    strict decoder accepts the envelope. Signed with an `r` of 2^248 the same request is read back.
   */
  lemma LeadingZeroIsLost(keccak: Digest, recover: Recover, me: address, addrs: ContractAddresses,
                          safeModule: address, safe: address, nonce: u64)
    requires addrs.nodeSafeRegistry != safeModule
    ensures var (g, s) := (Basic(me, addrs), [1] + Zeros(31));
            var (lost, kept) := (EcdsaSignature(0, [0, 1] + Zeros(30), s), EcdsaSignature(0, [1] + Zeros(31), s));
            var req := Generate(g, RegisterSafe(safe));
            && req.Ok? && ReadBack(g, safeModule, RegisterSafe(safe))
            && ParseFromEip2718(keccak, recover, SignedEnvelope(req.value, nonce, 1, DEFAULT_GAS, lost),
                                safeModule, addrs) == Err(MalformedEnvelope)
            && (RecoversSigner(recover, keccak(SigningPayload(req.value, nonce, 1, DEFAULT_GAS)), kept, me) ==>
                  ParseFromEip2718(keccak, recover, SignedEnvelope(req.value, nonce, 1, DEFAULT_GAS, kept),
                                   safeModule, addrs) == Ok((RegisterSafeAddress(safe), me)))
  {
    var (g, s) := (Basic(me, addrs), [1] + Zeros(31));
    var (lost, kept) := (EcdsaSignature(0, [0, 1] + Zeros(30), s), EcdsaSignature(0, [1] + Zeros(31), s));
    var req := Generate(g, RegisterSafe(safe)).value;
    hide SignedEnvelope, SigningPayload, ParseFromEip2718;
    SmallEnvelope(req, nonce, 1, DEFAULT_GAS, lost);
    SmallEnvelope(req, nonce, 1, DEFAULT_GAS, kept);
    NotCanonicalIsLost(keccak, recover, req, nonce, 1, DEFAULT_GAS, lost, safeModule, addrs);
    if RecoversSigner(recover, keccak(SigningPayload(req, nonce, 1, DEFAULT_GAS)), kept, me) {
      ParseInvertsSign(keccak, recover, g, safeModule, RegisterSafe(safe), nonce, 1, DEFAULT_GAS, kept);
    }
  }
}
