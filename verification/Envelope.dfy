/**
  EIP-1559 transactions in their EIP-2718 envelope: the payload that is signed, the signed bytes,
  and the strict decoding of both.
 */
module Envelope {
  import opened Bytes
  import opened Payload
  import opened Primitives
  import opened Rlp
  import opened Wrappers

  type u128 = v: nat | v < 0x1_0000000000000000_0000000000000000

  datatype GasEstimation = GasEstimation(gasLimit: u64, maxFeePerGas: u128, maxPriorityFeePerGas: u128)

  const DEFAULT_GAS: GasEstimation := GasEstimation(10_000_000, 10_000_000_000, 2_000_000_000)

  /** A recoverable ECDSA signature as the signing library returns it, with a recovery id below 4. */
  datatype EcdsaSignature = EcdsaSignature(recoveryId: nat, r: word, s: word)

  /** The fields of an EIP-1559 transaction; the entries of the access list are kept undecoded. */
  datatype Eip1559 = Eip1559(
    chainId: nat, nonce: nat, maxPriorityFee: nat, maxFee: nat, gasLimit: nat,
    to: Option<address>, value: nat, input: seq<byte>, accessList: seq<Item>)

  // ----- what is written

  /** Strips the leading zeros of a big-endian integer. */
  function TrimBE(s: seq<byte>): (t: seq<byte>)
    ensures t != [] ==> t[0] != 0
  {
    if s != [] && s[0] == 0 then TrimBE(s[1..]) else s
  }

  function ToBytes(to: Option<address>): (s: seq<byte>)
  {
    match to
    case Some(a) => a
    case None => []
  }

  function UnsignedItems(req: TransactionRequest, nonce: u64, chainId: u64, gas: GasEstimation): (xs: seq<Item>)
  {
    [Str(MinimalBE(chainId)), Str(MinimalBE(nonce)), Str(MinimalBE(gas.maxPriorityFeePerGas)),
     Str(MinimalBE(gas.maxFeePerGas)), Str(MinimalBE(gas.gasLimit)), Str(ToBytes(req.to)),
     Str(TrimBE(req.value)), Str(req.input), List([])]
  }

  function SigningPayload(req: TransactionRequest, nonce: u64, chainId: u64, gas: GasEstimation): (s: seq<byte>)
  {
    [2] + Encode(List(UnsignedItems(req, nonce, chainId, gas)))
  }

  /** The signature items: the recovery id as an integer, `r` and `s` with all their 32 bytes. */
  function SignatureItems(sig: EcdsaSignature): (xs: seq<Item>)
  {
    [Str(MinimalBE(sig.recoveryId)), Str(sig.r), Str(sig.s)]
  }

  function SignedEnvelope(req: TransactionRequest, nonce: u64, chainId: u64, gas: GasEstimation,
                          sig: EcdsaSignature): (s: seq<byte>)
  {
    [2] + Encode(List(UnsignedItems(req, nonce, chainId, gas) + SignatureItems(sig)))
  }

  /** The stream a list of a declared number of items is appended to. */
  class RlpStream {
    const expected: nat
    var items: seq<Item>

    constructor (n: nat)
      ensures expected == n && items == []
    {
      expected := n;
      items := [];
    }

    method Append(bytes: seq<byte>)
      modifies this
      ensures items == old(items) + [Str(bytes)]
    {
      items := items + [Str(bytes)];
    }

    method AppendUint(v: nat)
      modifies this
      ensures items == old(items) + [Str(MinimalBE(v))]
    {
      items := items + [Str(MinimalBE(v))];
    }

    method BeginEmptyList()
      modifies this
      ensures items == old(items) + [List([])]
    {
      items := items + [List([])];
    }

    method Out() returns (s: seq<byte>)
      requires |items| == expected
      ensures s == Encode(List(items))
    {
      s := Encode(List(items));
    }
  }

  lemma NineInOrder(xs: seq<Item>)
    requires |xs| == 9
    ensures [] + [xs[0]] + [xs[1]] + [xs[2]] + [xs[3]] + [xs[4]] + [xs[5]] + [xs[6]] + [xs[7]] + [xs[8]] == xs
  {
  }

  lemma ThreeBehind(xs: seq<Item>, ys: seq<Item>)
    requires |ys| == 3
    ensures xs + [ys[0]] + [ys[1]] + [ys[2]] == xs + ys
  {
  }

  method BuildStream(req: TransactionRequest, nonce: u64, chainId: u64, gas: GasEstimation,
                     sig: Option<EcdsaSignature>) returns (stream: RlpStream)
    ensures fresh(stream) && stream.expected == (if sig.Some? then 12 else 9)
    ensures stream.items == UnsignedItems(req, nonce, chainId, gas)
                            + (if sig.Some? then SignatureItems(sig.value) else [])
  {
    hide MinimalBE, TrimBE, ToBytes, Encode, EncodeAll;
    stream := new RlpStream(if sig.Some? then 12 else 9);
    stream.AppendUint(chainId);
    stream.AppendUint(nonce);
    stream.AppendUint(gas.maxPriorityFeePerGas);
    stream.AppendUint(gas.maxFeePerGas);
    stream.AppendUint(gas.gasLimit);
    stream.Append(ToBytes(req.to));
    stream.Append(TrimBE(req.value));
    stream.Append(req.input);
    stream.BeginEmptyList();
    NineInOrder(UnsignedItems(req, nonce, chainId, gas));
    if sig.Some? {
      stream.AppendUint(sig.value.recoveryId);
      stream.Append(sig.value.r);
      stream.Append(sig.value.s);
      ThreeBehind(UnsignedItems(req, nonce, chainId, gas), SignatureItems(sig.value));
    }
  }

  method TypedPayload(req: TransactionRequest, nonce: u64, chainId: u64, gas: GasEstimation,
                      sig: Option<EcdsaSignature>) returns (out: seq<byte>)
    ensures sig.None? ==> out == SigningPayload(req, nonce, chainId, gas)
    ensures sig.Some? ==> out == SignedEnvelope(req, nonce, chainId, gas, sig.value)
  {
    var stream := BuildStream(req, nonce, chainId, gas, sig);
    assert UnsignedItems(req, nonce, chainId, gas) + [] == UnsignedItems(req, nonce, chainId, gas);
    var rlp := stream.Out();
    out := [2];
    out := out + rlp;
  }

  /** Signs the payload hash and writes the signed envelope; the request's own gas limit is not used. */
  method SignAndEncodeToEip2718(req: TransactionRequest, nonce: u64, chainId: u64, maxGas: Option<GasEstimation>,
                                keccak: seq<byte> -> word, sign: word -> EcdsaSignature)
    returns (encoded: seq<byte>)
    ensures var gas := if maxGas.Some? then maxGas.value else DEFAULT_GAS;
            encoded == SignedEnvelope(req, nonce, chainId, gas,
                                      sign(keccak(SigningPayload(req, nonce, chainId, gas))))
  {
    var gas := if maxGas.Some? then maxGas.value else DEFAULT_GAS;
    var toSign := TypedPayload(req, nonce, chainId, gas, None);
    var sig := sign(keccak(toSign));
    encoded := TypedPayload(req, nonce, chainId, gas, Some(sig));
  }

  // ----- what is read

  /** An integer of at most `width` bytes without leading zeros. */
  function UintItem(x: Item, width: nat): (v: Option<nat>)
  {
    if x.Str? && |x.bytes| <= width && (x.bytes != [] ==> x.bytes[0] != 0) then Some(FromBE(x.bytes)) else None
  }

  function RecipientItem(x: Item): (to: Option<Option<address>>)
  {
    if x.Str? && |x.bytes| == 20 then Some(Some(x.bytes))
    else if x == Str([]) then Some(None)
    else None
  }

  function DecodeFields(xs: seq<Item>): (tx: Option<Eip1559>)
    requires |xs| >= 9
  {
    var chainId, nonce := UintItem(xs[0], 8), UintItem(xs[1], 8);
    var priority, fee := UintItem(xs[2], 16), UintItem(xs[3], 16);
    var gas, to, value := UintItem(xs[4], 8), RecipientItem(xs[5]), UintItem(xs[6], 32);
    if chainId.Some? && nonce.Some? && priority.Some? && fee.Some? && gas.Some? && to.Some? && value.Some?
       && xs[7].Str? && xs[8].List?
    then Some(Eip1559(chainId.value, nonce.value, priority.value, fee.value, gas.value, to.value,
                      value.value, xs[7].bytes, xs[8].items))
    else None
  }

  /** The items of a type-2 envelope that holds exactly one list. */
  function EnvelopeItems(s: seq<byte>): (xs: Option<seq<Item>>)
  {
    if s == [] || s[0] != 2 then None
    else
      match Decode(s[1..])
      case Some((List(xs), rest)) => if rest == [] then Some(xs) else None
      case _ => None
  }

  function DecodeSigningPayload(s: seq<byte>): (tx: Option<Eip1559>)
  {
    match EnvelopeItems(s)
    case None => None
    case Some(xs) => if |xs| == 9 then DecodeFields(xs) else None
  }

  datatype Signed = Signed(tx: Eip1559, yParity: nat, r: nat, s: nat)

  /** A signed transaction: the parity is 0 or 1, and `r` and `s` are canonical integers. */
  function DecodeSigned(bytes: seq<byte>): (signed: Option<Signed>)
  {
    match EnvelopeItems(bytes)
    case None => None
    case Some(xs) =>
      if |xs| != 12 then None
      else
        var tx := DecodeFields(xs);
        var y, r, s := UintItem(xs[9], 1), UintItem(xs[10], 32), UintItem(xs[11], 32);
        if tx.Some? && y.Some? && y.value <= 1 && r.Some? && s.Some?
        then Some(Signed(tx.value, y.value, r.value, s.value)) else None
  }

  // ----- reading undoes writing

  lemma {:induction false} TrimKeepsValue(s: seq<byte>)
    ensures FromBE(TrimBE(s)) == FromBE(s) && |TrimBE(s)| <= |s|
  {
    if s != [] && s[0] == 0 {
      TrimKeepsValue(s[1..]);
      FromBEPadded(1, s[1..]);
      assert s == Zeros(1) + s[1..];
    }
  }

  /** Trimming a fixed-width integer is writing its minimal form. */
  lemma TrimIsMinimal(s: seq<byte>)
    ensures TrimBE(s) == MinimalBE(FromBE(s))
  {
    TrimKeepsValue(s);
    MinimalFromBE(TrimBE(s));
  }

  lemma UintItemRoundTrip(v: nat, width: nat)
    requires v < Pow256(width)
    ensures UintItem(Str(MinimalBE(v)), width) == Some(v)
  {
    MinimalBELength(v, width);
    FromMinimalBE(v);
  }

  /** The transaction a request stands for. */
  function Fields(req: TransactionRequest, nonce: u64, chainId: u64, gas: GasEstimation): (tx: Eip1559)
  {
    Eip1559(chainId, nonce, gas.maxPriorityFeePerGas, gas.maxFeePerGas, gas.gasLimit,
            req.to, FromBE(req.value), req.input, [])
  }

  lemma IntegerFields(nonce: u64, chainId: u64, gas: GasEstimation, value: word)
    ensures UintItem(Str(MinimalBE(chainId)), 8) == Some(chainId)
    ensures UintItem(Str(MinimalBE(nonce)), 8) == Some(nonce)
    ensures UintItem(Str(MinimalBE(gas.maxPriorityFeePerGas)), 16) == Some(gas.maxPriorityFeePerGas)
    ensures UintItem(Str(MinimalBE(gas.maxFeePerGas)), 16) == Some(gas.maxFeePerGas)
    ensures UintItem(Str(MinimalBE(gas.gasLimit)), 8) == Some(gas.gasLimit)
    ensures UintItem(Str(TrimBE(value)), 32) == Some(FromBE(value))
  {
    Widths();
    UintItemRoundTrip(chainId, 8);
    UintItemRoundTrip(nonce, 8);
    UintItemRoundTrip(gas.maxPriorityFeePerGas, 16);
    UintItemRoundTrip(gas.maxFeePerGas, 16);
    UintItemRoundTrip(gas.gasLimit, 8);
    TrimKeepsValue(value);
  }

  lemma DecodeNine(xs: seq<Item>, tx: Eip1559)
    requires |xs| >= 9
    requires UintItem(xs[0], 8) == Some(tx.chainId) && UintItem(xs[1], 8) == Some(tx.nonce)
    requires UintItem(xs[2], 16) == Some(tx.maxPriorityFee) && UintItem(xs[3], 16) == Some(tx.maxFee)
    requires UintItem(xs[4], 8) == Some(tx.gasLimit) && RecipientItem(xs[5]) == Some(tx.to)
    requires UintItem(xs[6], 32) == Some(tx.value) && xs[7] == Str(tx.input) && xs[8] == List(tx.accessList)
    ensures DecodeFields(xs) == Some(tx)
  {
  }

  lemma RecipientRoundTrip(to: Option<address>)
    ensures RecipientItem(Str(ToBytes(to))) == Some(to)
  {
  }

  lemma FieldsRoundTrip(req: TransactionRequest, nonce: u64, chainId: u64, gas: GasEstimation, more: seq<Item>)
    ensures DecodeFields(UnsignedItems(req, nonce, chainId, gas) + more) == Some(Fields(req, nonce, chainId, gas))
  {
    IntegerFields(nonce, chainId, gas, req.value);
    RecipientRoundTrip(req.to);
    DecodeNine(UnsignedItems(req, nonce, chainId, gas) + more, Fields(req, nonce, chainId, gas));
  }

  lemma EnvelopeRoundTrip(xs: seq<Item>)
    requires |Encode(List(xs))| < Pow256(8)
    ensures EnvelopeItems([2] + Encode(List(xs))) == Some(xs)
  {
    DecodeEncode(List(xs), []);
    assert ([2] + Encode(List(xs)))[1..] == Encode(List(xs));
    assert Encode(List(xs)) + [] == Encode(List(xs));
  }

  /** The payload that is signed determines every field of the transaction. */
  lemma SigningPayloadRoundTrip(req: TransactionRequest, nonce: u64, chainId: u64, gas: GasEstimation)
    requires |SigningPayload(req, nonce, chainId, gas)| < 0x1_0000_0000_0000_0000
    ensures DecodeSigningPayload(SigningPayload(req, nonce, chainId, gas)) == Some(Fields(req, nonce, chainId, gas))
  {
    hide Encode, EnvelopeItems, DecodeFields, Fields, MinimalBE, Pow256;
    var xs := UnsignedItems(req, nonce, chainId, gas);
    Widths();
    EnvelopeRoundTrip(xs);
    FieldsRoundTrip(req, nonce, chainId, gas, []);
    assert xs + [] == xs;
  }

  /** Requests that differ in anything that is sent never share a signing payload. */
  lemma SigningPayloadInjective(req: TransactionRequest, nonce: u64, chainId: u64, gas: GasEstimation,
                                req': TransactionRequest, nonce': u64, chainId': u64, gas': GasEstimation)
    requires |SigningPayload(req, nonce, chainId, gas)| < 0x1_0000_0000_0000_0000
    requires SigningPayload(req, nonce, chainId, gas) == SigningPayload(req', nonce', chainId', gas')
    ensures req.to == req'.to && req.input == req'.input && req.value == req'.value
    ensures nonce == nonce' && chainId == chainId' && gas == gas'
  {
    SigningPayloadRoundTrip(req, nonce, chainId, gas);
    SigningPayloadRoundTrip(req', nonce', chainId', gas');
    FromBEInjective(req.value, req'.value);
  }

  /** What a strict integer decoder demands of a signature that is written with all its bytes. */
  predicate Canonical(sig: EcdsaSignature) {
    sig.recoveryId <= 1 && sig.r[0] != 0 && sig.s[0] != 0
  }

  lemma SignatureFields(sig: EcdsaSignature)
    requires sig.recoveryId < 4
    ensures UintItem(Str(MinimalBE(sig.recoveryId)), 1) == Some(sig.recoveryId)
    ensures UintItem(Str(sig.r), 32) == if sig.r[0] != 0 then Some(FromBE(sig.r)) else None
    ensures UintItem(Str(sig.s), 32) == if sig.s[0] != 0 then Some(FromBE(sig.s)) else None
  {
    OneByte(sig.recoveryId);
    FromMinimalBE(sig.recoveryId);
  }

  lemma DecodeTwelve(bytes: seq<byte>, xs: seq<Item>, tx: Eip1559)
    requires EnvelopeItems(bytes) == Some(xs) && |xs| == 12 && DecodeFields(xs) == Some(tx)
    ensures var y, r, s := UintItem(xs[9], 1), UintItem(xs[10], 32), UintItem(xs[11], 32);
            DecodeSigned(bytes) == if y.Some? && y.value <= 1 && r.Some? && s.Some?
                                   then Some(Signed(tx, y.value, r.value, s.value)) else None
  {
  }

  lemma EnvelopeItemsBack(req: TransactionRequest, nonce: u64, chainId: u64, gas: GasEstimation, sig: EcdsaSignature)
    requires |SignedEnvelope(req, nonce, chainId, gas, sig)| < 0x1_0000_0000_0000_0000
    ensures |UnsignedItems(req, nonce, chainId, gas)| == 9
    ensures EnvelopeItems(SignedEnvelope(req, nonce, chainId, gas, sig))
            == Some(UnsignedItems(req, nonce, chainId, gas) + SignatureItems(sig))
  {
    hide Encode, MinimalBE, EnvelopeItems, Pow256;
    Widths();
    EnvelopeRoundTrip(UnsignedItems(req, nonce, chainId, gas) + SignatureItems(sig));
  }

  /**
    A signed envelope is accepted exactly when the recovery id is a parity and neither `r` nor `s`
    starts with a zero byte; then every field and the signature come back.
   */
  lemma SignedRoundTrip(req: TransactionRequest, nonce: u64, chainId: u64, gas: GasEstimation, sig: EcdsaSignature)
    requires sig.recoveryId < 4
    requires |SignedEnvelope(req, nonce, chainId, gas, sig)| < 0x1_0000_0000_0000_0000
    ensures DecodeSigned(SignedEnvelope(req, nonce, chainId, gas, sig))
            == if Canonical(sig)
               then Some(Signed(Fields(req, nonce, chainId, gas), sig.recoveryId, FromBE(sig.r), FromBE(sig.s)))
               else None
  {
    hide DecodeSigned, MinimalBE, FromBE, UnsignedItems, SignedEnvelope, Fields, UintItem, DecodeFields, EnvelopeItems;
    var fields, signature := UnsignedItems(req, nonce, chainId, gas), SignatureItems(sig);
    EnvelopeItemsBack(req, nonce, chainId, gas, sig);
    FieldsRoundTrip(req, nonce, chainId, gas, signature);
    DecodeTwelve(SignedEnvelope(req, nonce, chainId, gas, sig), fields + signature, Fields(req, nonce, chainId, gas));
    SignatureFields(sig);
  }

  /** The signing payload rebuilt from decoded fields, as signer recovery does it. */
  function PayloadOf(tx: Eip1559): (s: seq<byte>)
  {
    [2] + Encode(List([Str(MinimalBE(tx.chainId)), Str(MinimalBE(tx.nonce)), Str(MinimalBE(tx.maxPriorityFee)),
                       Str(MinimalBE(tx.maxFee)), Str(MinimalBE(tx.gasLimit)), Str(ToBytes(tx.to)),
                       Str(MinimalBE(tx.value)), Str(tx.input), List(tx.accessList)]))
  }

  lemma PayloadRebuilt(req: TransactionRequest, nonce: u64, chainId: u64, gas: GasEstimation)
    ensures PayloadOf(Fields(req, nonce, chainId, gas)) == SigningPayload(req, nonce, chainId, gas)
  {
    TrimIsMinimal(req.value);
  }

  lemma UintIsMinimal(x: Item, width: nat)
    requires UintItem(x, width).Some?
    ensures x == Str(MinimalBE(UintItem(x, width).value))
  {
    MinimalFromBE(x.bytes);
  }

  lemma RecipientIsWritten(x: Item)
    requires RecipientItem(x).Some?
    ensures x == Str(ToBytes(RecipientItem(x).value))
  {
  }

  /** The fields read from a list of items write these items again, the access list included. */
  lemma FieldsRewritten(xs: seq<Item>, tx: Eip1559)
    requires |xs| >= 9 && DecodeFields(xs) == Some(tx)
    ensures PayloadOf(tx) == [2] + Encode(List(xs[..9]))
  {
    UintIsMinimal(xs[0], 8);
    UintIsMinimal(xs[1], 8);
    UintIsMinimal(xs[2], 16);
    UintIsMinimal(xs[3], 16);
    UintIsMinimal(xs[4], 8);
    RecipientIsWritten(xs[5]);
    UintIsMinimal(xs[6], 32);
    hide MinimalBE, UintItem, RecipientItem, ToBytes, Encode;
    assert xs[7] == Str(tx.input) && xs[8] == List(tx.accessList);
    assert xs[..9] == [xs[0], xs[1], xs[2], xs[3], xs[4], xs[5], xs[6], xs[7], xs[8]];
  }

  /**
    Whatever a signed envelope holds, the payload its signer is recovered from is the list of
    exactly its first nine items, access list included.
   */
  lemma RecoveryPayload(bytes: seq<byte>)
    requires DecodeSigned(bytes).Some?
    ensures EnvelopeItems(bytes).Some? && |EnvelopeItems(bytes).value| == 12
    ensures PayloadOf(DecodeSigned(bytes).value.tx) == [2] + Encode(List(EnvelopeItems(bytes).value[..9]))
  {
    hide UintItem, DecodeFields, PayloadOf, EnvelopeItems, Encode;
    var xs := EnvelopeItems(bytes).value;
    FieldsRewritten(xs, DecodeFields(xs).value);
  }
}
