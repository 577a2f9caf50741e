/**
  Tickets: the builder that bounds their fields, the 132-byte transfer encoding, the 80 bytes that
  are signed, and the words of the on-chain redemption call.
 */
module Tickets {
  import opened Abi
  import opened Bytes
  import opened Primitives
  import opened Wrappers

  /** Keccak256 over the concatenation of its inputs. */
  type Digest = seq<byte> -> word

  /** A winning probability encoded in seven bytes. */
  type winprob = w: seq<byte> | |w| == 7 witness [255, 255, 255, 255, 255, 255, 255]

  datatype Ticket = Ticket(
    counterparty: address,
    amount: u256,
    index: u64,
    encodedWinProb: winprob,
    channelEpoch: u32,
    challenge: address,
    signature: Option<signature>)

  datatype TicketError =
    | MissingAmount
    | AmbiguousAmount
    | AmountTooLarge
    | IndexTooLarge
    | EpochTooLarge
    | MissingCounterparty
    | MissingChallenge
    | WrongLength
    | MissingSignature

  const MAX_TICKET_AMOUNT: nat := MAX_FUNDING_AMOUNT
  const MAX_TICKET_INDEX: nat := 0xFFFF_FFFF_FFFF
  const MAX_CHANNEL_EPOCH: nat := 0xFF_FFFF
  const TICKET_SIZE: nat := 132

  // ----- the builder

  datatype TicketBuilder = TicketBuilder(
    counterparty: Option<address>,
    amount: Option<u256>,
    balance: Option<u256>,
    index: u64,
    channelEpoch: u32,
    winProb: winprob,
    challenge: Option<address>,
    signature: Option<signature>)
  {
    function BuildAmount(): (r: Result<u256, TicketError>)
    {
      match (amount, balance)
      case (Some(a), None) => if a < MAX_TICKET_AMOUNT then Ok(a) else Err(AmountTooLarge)
      case (None, Some(b)) => if b < MAX_TICKET_AMOUNT then Ok(b) else Err(AmountTooLarge)
      case (None, None) => Err(MissingAmount)
      case (Some(_), Some(_)) => Err(AmbiguousAmount)
    }

    function Build(): (r: Result<Ticket, TicketError>)
    {
      var a := BuildAmount();
      if a.Err? then Err(a.error)
      else if index > MAX_TICKET_INDEX then Err(IndexTooLarge)
      else if channelEpoch > MAX_CHANNEL_EPOCH then Err(EpochTooLarge)
      else if counterparty.None? then Err(MissingCounterparty)
      else if challenge.None? then Err(MissingChallenge)
      else Ok(Ticket(counterparty.value, a.value, index, winProb, channelEpoch,
                     challenge.value, signature))
    }
  }

  /** The tickets the builder lets through. */
  predicate BuilderValid(t: Ticket) {
    t.amount < MAX_TICKET_AMOUNT && t.index <= MAX_TICKET_INDEX && t.channelEpoch <= MAX_CHANNEL_EPOCH
  }

  /** `From<&Ticket> for TicketBuilder`: all the fields but the signature. */
  function FromTicket(t: Ticket): (b: TicketBuilder)
  {
    TicketBuilder(Some(t.counterparty), None, Some(t.amount), t.index, t.channelEpoch,
                  t.encodedWinProb, Some(t.challenge), None)
  }

  /** A builder names this ticket: it is complete, with one amount, and its fields are those of the ticket. */
  predicate Names(b: TicketBuilder, t: Ticket) {
    && b.counterparty == Some(t.counterparty) && b.challenge == Some(t.challenge)
    && ((b.amount == Some(t.amount) && b.balance == None) || (b.amount == None && b.balance == Some(t.amount)))
    && b.index == t.index && b.channelEpoch == t.channelEpoch && b.winProb == t.encodedWinProb
    && b.signature == t.signature
  }

  /** Whatever is put into a builder, it yields exactly the ticket it names, if that is in range. */
  lemma BuilderYields(b: TicketBuilder, t: Ticket)
    ensures b.Build() == Ok(t) <==> Names(b, t) && BuilderValid(t)
  {
    assert b.BuildAmount().Ok? <==>
      (b.amount.Some? && b.balance.None? && b.amount.value < MAX_TICKET_AMOUNT)
      || (b.amount.None? && b.balance.Some? && b.balance.value < MAX_TICKET_AMOUNT);
  }

  /**
    The tickets some builder yields are exactly those whose fields are in range, and these are the
    tickets the builder rebuilds from themselves, without the signature.
   */
  lemma BuilderRoundTrip(t: Ticket)
    ensures BuilderValid(t) <==> exists b: TicketBuilder :: b.Build() == Ok(t)
    ensures BuilderValid(t) <==> FromTicket(t).Build() == Ok(t.(signature := None))
    ensures FromTicket(t).Build().Ok? ==> BuilderValid(t)
  {
    var again := FromTicket(t).(signature := t.signature);
    assert again.BuildAmount() == FromTicket(t).BuildAmount()
        == if t.amount < MAX_TICKET_AMOUNT then Ok(t.amount) else Err(AmountTooLarge);
    assert BuilderValid(t) ==> again.Build() == Ok(t);
    if b: TicketBuilder :| b.Build() == Ok(t) {
      BuilderYields(b, t);
    }
  }

  // ----- what the encoders write

  /** Amount, index, epoch, winning probability and challenge: 48 bytes. */
  function Tail(t: Ticket): (s: seq<byte>)
    ensures |s| == 48
  {
    ToBE(t.amount, 32)[20..] + ToBE(t.index, 8)[2..] + ToBE(t.channelEpoch, 4)[1..]
    + t.encodedWinProb + t.challenge
  }

  /** What crosses the wire; a ticket without a signature cannot be serialized. */
  function Encode(t: Ticket): (s: seq<byte>)
    requires t.signature.Some?
    ensures |s| == TICKET_SIZE
  {
    t.counterparty + Tail(t) + t.signature.value
  }

  function ChannelId(keccak: Digest, source: address, destination: address): (id: word)
  {
    keccak(source + destination)
  }

  /** What the issuer signs: the channel and the ticket, without the counterparty. */
  function ForSigning(keccak: Digest, t: Ticket, issuer: address): (s: seq<byte>)
    ensures |s| == 80
  {
    ChannelId(keccak, issuer, t.counterparty) + Tail(t)
  }

  // ----- the buffers the encoders fill

  method CopyFromSlice(buf: array<byte>, offset: nat, src: seq<byte>)
    requires offset + |src| <= buf.Length
    modifies buf
    ensures buf[..offset + |src|] == old(buf[..offset]) + src
    ensures buf[offset + |src|..] == old(buf[offset + |src|..])
  {
    forall i | 0 <= i < |src| {
      buf[offset + i] := src[i];
    }
  }

  method EncodeTailWithoutSignature(t: Ticket) returns (ret: array<byte>)
    ensures fresh(ret) && ret[..] == Tail(t)
  {
    hide ToBE;
    ret := new byte[48](_ => 0);
    var offset := 0;
    var amount, index, epoch := ToBE(t.amount, 32)[20..32], ToBE(t.index, 8)[2..8], ToBE(t.channelEpoch, 4)[1..4];
    CopyFromSlice(ret, offset, amount);
    offset := offset + 12;
    assert ret[..12] == amount;
    CopyFromSlice(ret, offset, index);
    offset := offset + 6;
    assert ret[..18] == amount + index;
    CopyFromSlice(ret, offset, epoch);
    offset := offset + 3;
    assert ret[..21] == amount + index + epoch;
    CopyFromSlice(ret, offset, t.encodedWinProb);
    offset := offset + 7;
    assert ret[..28] == amount + index + epoch + t.encodedWinProb;
    CopyFromSlice(ret, offset, t.challenge);
    assert ret[..] == ret[..48];
  }

  method EncodeForTransfer(t: Ticket) returns (ret: array<byte>)
    ensures fresh(ret) && ret[..] == t.counterparty + Tail(t)
  {
    ret := new byte[68](_ => 0);
    CopyFromSlice(ret, 0, t.counterparty);
    assert ret[..20] == t.counterparty;
    var tail := EncodeTailWithoutSignature(t);
    CopyFromSlice(ret, 20, tail[..]);
    assert ret[..68] == ret[..];
  }

  method EncodeForSigning(keccak: Digest, t: Ticket, issuer: address)
    returns (channelId: word, ret: array<byte>)
    ensures channelId == ChannelId(keccak, issuer, t.counterparty)
    ensures fresh(ret) && ret[..] == ForSigning(keccak, t, issuer)
  {
    ret := new byte[80](_ => 0);
    channelId := keccak(issuer + t.counterparty);
    CopyFromSlice(ret, 0, channelId);
    assert ret[..32] == channelId;
    var tail := EncodeTailWithoutSignature(t);
    CopyFromSlice(ret, 32, tail[..]);
    assert ret[..80] == ret[..];
  }

  method IntoBytes(t: Ticket) returns (ret: array<byte>)
    requires t.signature.Some?
    ensures fresh(ret) && ret[..] == Encode(t)
  {
    ret := new byte[TICKET_SIZE](_ => 0);
    var front := EncodeForTransfer(t);
    CopyFromSlice(ret, 0, front[..]);
    assert ret[..68] == front[..];
    CopyFromSlice(ret, 68, t.signature.value);
    assert ret[..TICKET_SIZE] == ret[..];
  }

  // ----- reading a ticket

  /** A short big-endian integer copied behind zeros into a wider buffer. */
  function Widened(s: seq<byte>, n: nat): (v: nat)
    requires |s| <= n
    ensures v < Pow256(|s|) && v == FromBE(s)
  {
    FromBEPadded(n - |s|, s);
    FromBEBound(s);
    FromBE(Zeros(n - |s|) + s)
  }

  function Decode(value: seq<byte>): (r: Result<Ticket, TicketError>)
  {
    if |value| != TICKET_SIZE then Err(WrongLength)
    else
      Widths();
      TicketBuilder(
        Some(value[0..20]),
        Some(Widened(value[20..32], 32)),
        None,
        Widened(value[32..38], 8),
        Widened(value[38..41], 4),
        value[41..48],
        Some(value[48..68]),
        Some(value[68..132])).Build()
  }

  lemma TailLayout(t: Ticket)
    ensures var s := Tail(t);
            && s[0..12] == ToBE(t.amount, 32)[20..] && s[12..18] == ToBE(t.index, 8)[2..]
            && s[18..21] == ToBE(t.channelEpoch, 4)[1..] && s[21..28] == t.encodedWinProb
            && s[28..48] == t.challenge
  {
  }

  /** The pieces of an encoded ticket. */
  lemma EncodeLayout(t: Ticket)
    requires t.signature.Some?
    ensures var s := Encode(t);
            && s[0..20] == t.counterparty && s[20..32] == ToBE(t.amount, 32)[20..]
            && s[32..38] == ToBE(t.index, 8)[2..] && s[38..41] == ToBE(t.channelEpoch, 4)[1..]
            && s[41..48] == t.encodedWinProb && s[48..68] == t.challenge
            && s[68..132] == t.signature.value
  {
    TailLayout(t);
    var s := Encode(t);
    var tail := Tail(t);
    assert s[20..68] == tail;
    assert s[20..32] == tail[0..12] && s[32..38] == tail[12..18] && s[38..41] == tail[18..21];
    assert s[41..48] == tail[21..28] && s[48..68] == tail[28..48];
  }

  /** Fields in range survive the truncation to their wire width. */
  lemma FieldsSurvive(t: Ticket)
    requires BuilderValid(t)
    ensures FromBE(ToBE(t.amount, 32)[20..]) == t.amount
    ensures FromBE(ToBE(t.index, 8)[2..]) == t.index
    ensures FromBE(ToBE(t.channelEpoch, 4)[1..]) == t.channelEpoch
  {
    Widths();
    ToBESuffix(t.amount, 32, 12);
    FromToBE(t.amount, 12);
    ToBESuffix(t.index, 8, 6);
    FromToBE(t.index, 6);
    ToBESuffix(t.channelEpoch, 4, 3);
    FromToBE(t.channelEpoch, 3);
  }

  /** The decoder accepts exactly the strings of the right length with an amount in range. */
  lemma DecodeAccepts(value: seq<byte>)
    ensures Decode(value).Ok? <==> |value| == TICKET_SIZE && FromBE(value[20..32]) < MAX_TICKET_AMOUNT
    ensures Decode(value).Ok? ==> BuilderValid(Decode(value).value) && Decode(value).value.signature.Some?
  {
    Widths();
  }

  /** A signed ticket comes back from its wire form exactly when its fields are in range. */
  lemma DecodeEncode(t: Ticket)
    requires t.signature.Some?
    ensures Decode(Encode(t)) == Ok(t) <==> BuilderValid(t)
  {
    DecodeAccepts(Encode(t));
    if BuilderValid(t) {
      EncodeLayout(t);
      FieldsSurvive(t);
    }
  }

  /** A short integer read from the wire is written back as the same bytes. */
  lemma WrittenBack(s: seq<byte>, n: nat)
    requires |s| <= n
    ensures ToBE(FromBE(s), n)[n - |s|..] == s
  {
    ToBESuffix(FromBE(s), n, |s|);
    ToFromBE(s);
  }

  /** Every accepted byte string is the wire form of the ticket read from it. */
  lemma EncodeDecode(value: seq<byte>)
    requires Decode(value).Ok?
    ensures Encode(Decode(value).value) == value
  {
    hide FromBE, ToBE;
    var t := Decode(value).value;
    WrittenBack(value[20..32], 32);
    WrittenBack(value[32..38], 8);
    WrittenBack(value[38..41], 4);
    assert Tail(t) == value[20..68] by {
      assert value[20..68] == value[20..32] + value[32..38] + value[38..41] + value[41..48] + value[48..68];
    }
    assert value == value[0..20] + value[20..68] + value[68..132];
  }

  // ----- the redemption call

  /** `TicketData`, `CompactSignature` and `porSecret`, one word each. */
  function RedeemableTicketWords(channelId: word, t: Ticket, response: word): (r: Result<seq<word>, TicketError>)
    ensures r.Ok? ==> |r.value| == 8
  {
    match t.signature
    case None => Err(MissingSignature)
    case Some(sig) =>
      Ok([channelId,
          TruncatedWord(ToBE(t.amount, 32), 12),
          TruncatedWord(ToBE(t.index, 8), 6),
          TruncatedWord(ToBE(t.channelEpoch, 4), 3),
          RightAlign32(t.encodedWinProb),
          RightAlign32(sig[0..32]),
          RightAlign32(sig[32..64]),
          RightAlign32(response)])
  }

  /**
    The five `TicketData` words of the redemption carry exactly the first 60 of the signed bytes,
    each right-aligned behind zeros, whatever the fields of the ticket are.
   */
  lemma RedeemCarriesSignedBytes(keccak: Digest, t: Ticket, issuer: address, response: word)
    requires t.signature.Some?
    ensures var w := RedeemableTicketWords(ChannelId(keccak, issuer, t.counterparty), t, response).value;
            && w[0] + w[1][20..] + w[2][26..] + w[3][29..] + w[4][25..] == ForSigning(keccak, t, issuer)[..60]
            && w[1][..20] == Zeros(20) && w[2][..26] == Zeros(26)
            && w[3][..29] == Zeros(29) && w[4][..25] == Zeros(25)
  {
    hide RightAlign32, ToBE;
    RightAlignPads(ToBE(t.amount, 32)[20..]);
    RightAlignPads(ToBE(t.index, 8)[2..]);
    RightAlignPads(ToBE(t.channelEpoch, 4)[1..]);
    RightAlignPads(t.encodedWinProb);
  }

  /** The contract reads back every field of a ticket in range. */
  lemma RedeemWordsValues(channelId: word, t: Ticket, response: word)
    requires t.signature.Some? && BuilderValid(t)
    ensures var w := RedeemableTicketWords(channelId, t, response).value;
            && w[0] == channelId && UintOf(w[1], 12) == t.amount && UintOf(w[2], 6) == t.index
            && UintOf(w[3], 3) == t.channelEpoch && w[4][25..] == t.encodedWinProb
            && w[5] == t.signature.value[..32] && w[6] == t.signature.value[32..] && w[7] == response
  {
    FieldsSurvive(t);
    RightAlignPads(ToBE(t.amount, 32)[20..]);
    RightAlignPads(ToBE(t.index, 8)[2..]);
    RightAlignPads(ToBE(t.channelEpoch, 4)[1..]);
    RightAlignPads(t.encodedWinProb);
    RightAlignWhole(t.signature.value[0..32]);
    RightAlignWhole(t.signature.value[32..64]);
    RightAlignWhole(response);
  }

  lemma RightAlignWhole(w: word)
    ensures RightAlign32(w) == w
  {
    RightAlignPads(w);
  }
}
