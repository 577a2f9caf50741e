/**
  The parser that reads a node action back from a transaction: by its target, by whether it went
  through the Safe module, and by the selector of its call data.
 */
module Parser {
  import opened Abi
  import opened Bytes
  import opened Payload
  import opened Primitives
  import opened Tickets
  import opened Wrappers

  /** The account a transfer debits or an approval speaks for. */
  datatype Payer = Eoa | SafePays

  datatype ParsedAction =
    | RegisterSafeAddress(safe: address)
    | AnnouncePacketKey(packetKey: word, multiaddress: Option<seq<byte>>)
    | WithdrawNative(destination: address, amount: nat, payer: Payer)
    | WithdrawToken(recipient: address, amount: nat, payer: Payer)
    | ApproveSpender(spender: address, amount: nat, payer: Payer)
    | FundPaymentChannel(account: address, amount: nat)
    | InitializeChannelClosure(channel: word)
    | FinalizeClosure(channel: word)
    | IncomingChannelClosure(channel: word)
    | RedeemTicketOf(channel: word, ticketIndex: nat, ticketAmount: nat)

  datatype ParseError =
    | NoRecipient
    | NotAModuleCall
    | UndeterminedType
    | NotARegistration
    | InvalidChannelCall
    | InvalidAnnouncement
    | NotATransfer
    | UnknownContract
    | MalformedEnvelope
    | NoSigner

  /** The fields of a transaction the parser looks at. */
  datatype Transaction = Transaction(to: Option<address>, value: nat, input: seq<byte>)

  /** The arguments of a call with at least `n` head slots. */
  function Call(sel: selector, input: seq<byte>, n: nat): (args: Option<seq<byte>>)
    ensures args.Some? ==> 32 * n <= |args.value|
  {
    match Args(sel, input)
    case None => None
    case Some(args) => if |args| < 32 * n then None else Some(args)
  }

  function SlotAddress(args: seq<byte>, i: nat): (a: address)
    requires 32 * (i + 1) <= |args|
  {
    AddressOf(Slot(args, i))
  }

  function SlotUint(args: seq<byte>, i: nat, k: nat): (v: nat)
    requires 32 * (i + 1) <= |args| && k <= 32
  {
    UintOf(Slot(args, i), k)
  }

  function ParseRegistry(input: seq<byte>): (r: Result<ParsedAction, ParseError>)
  {
    match Call(REGISTER_SAFE_BY_NODE, input, 1)
    case None => Err(NotARegistration)
    case Some(args) => Ok(RegisterSafeAddress(SlotAddress(args, 0)))
  }

  /** The call a node made on the channels contract; a Safe call names the node in its first slot. */
  function ParseChannels(keccak: Digest, input: seq<byte>, viaModule: bool, signer: address)
    : (r: Result<ParsedAction, ParseError>)
  {
    var skip := if viaModule then 1 else 0;
    var fund := Call(if viaModule then FUND_CHANNEL_SAFE else FUND_CHANNEL, input, 2 + skip);
    if fund.Some? then
      Ok(FundPaymentChannel(SlotAddress(fund.value, skip), SlotUint(fund.value, skip + 1, 12)))
    else
    var initiate := Call(if viaModule then INITIATE_OUTGOING_CHANNEL_CLOSURE_SAFE
                         else INITIATE_OUTGOING_CHANNEL_CLOSURE, input, 1 + skip);
    if initiate.Some? then
      Ok(InitializeChannelClosure(ChannelId(keccak, signer, SlotAddress(initiate.value, skip))))
    else
    var finalize := Call(if viaModule then FINALIZE_OUTGOING_CHANNEL_CLOSURE_SAFE
                         else FINALIZE_OUTGOING_CHANNEL_CLOSURE, input, 1 + skip);
    if finalize.Some? then
      Ok(FinalizeClosure(ChannelId(keccak, signer, SlotAddress(finalize.value, skip))))
    else
    var incoming := Call(if viaModule then CLOSE_INCOMING_CHANNEL_SAFE
                         else CLOSE_INCOMING_CHANNEL, input, 1 + skip);
    if incoming.Some? then
      Ok(IncomingChannelClosure(ChannelId(keccak, SlotAddress(incoming.value, skip), signer)))
    else
    var redeem := Call(if viaModule then REDEEM_TICKET_SAFE else REDEEM_TICKET, input, 22 + skip);
    if redeem.Some? then
      Ok(RedeemTicketOf(Slot(redeem.value, skip),
                        SlotUint(redeem.value, skip + 2, 6),
                        SlotUint(redeem.value, skip + 1, 12)))
    else Err(InvalidChannelCall)
  }

  /** `KeyBindAndAnnouncePayload` behind the offset word the parser puts in front of the send data. */
  function ParseAnnouncement(data: seq<byte>): (r: Result<ParsedAction, ParseError>)
  {
    var buffer := Zeros(31) + [32] + data;
    var offset := FromBE(buffer[..32]);
    if |buffer| < offset + 160 then Err(InvalidAnnouncement)
    else
      var body := buffer[offset..];
      match BytesOf(body, 4)
      case None => Err(InvalidAnnouncement)
      case Some(text) => Ok(AnnouncePacketKey(Slot(body, 3), if text == [] then None else Some(text)))
  }

  function ParseToken(addrs: ContractAddresses, input: seq<byte>, payer: Payer): (r: Result<ParsedAction, ParseError>)
  {
    var send := Call(SEND, input, 3);
    if send.Some? && BytesOf(send.value, 2).Some? then
      var recipient := SlotAddress(send.value, 0);
      if recipient == addrs.announcements then ParseAnnouncement(BytesOf(send.value, 2).value)
      else Ok(WithdrawToken(recipient, SlotUint(send.value, 1, 32), payer))
    else
    var approve := Call(APPROVE, input, 2);
    if approve.Some? then
      Ok(ApproveSpender(SlotAddress(approve.value, 0), SlotUint(approve.value, 1, 32), payer))
    else
    match Call(TRANSFER, input, 2)
    case None => Err(NotATransfer)
    case Some(args) => Ok(WithdrawToken(SlotAddress(args, 0), SlotUint(args, 1, 32), payer))
  }

  /** Dispatch over the contract that is finally called. */
  function ParseCall(keccak: Digest, addrs: ContractAddresses, target: address, input: seq<byte>,
                     viaModule: bool, signer: address): (r: Result<ParsedAction, ParseError>)
  {
    if target == addrs.nodeSafeRegistry then ParseRegistry(input)
    else if target == addrs.channels then ParseChannels(keccak, input, viaModule, signer)
    else if target == addrs.token then ParseToken(addrs, input, if viaModule then SafePays else Eoa)
    else Err(UnknownContract)
  }

  /** The action a signed transaction stands for, and who signed it. */
  function Parse(keccak: Digest, tx: Transaction, signer: address, safeModule: address, addrs: ContractAddresses)
    : (r: Result<ParsedAction, ParseError>)
  {
    match tx.to
    case None => Err(NoRecipient)
    case Some(target) =>
      if target == safeModule then
        match DecodeExec(tx.input)
        case None => Err(NotAModuleCall)
        case Some(exec) =>
          if exec.value != 0 && exec.data == [] then Ok(WithdrawNative(exec.to, exec.value, SafePays))
          else ParseCall(keccak, addrs, exec.to, exec.data, true, signer)
      else if addrs.Lists(target) then ParseCall(keccak, addrs, target, tx.input, false, signer)
      else if tx.value > 0 then Ok(WithdrawNative(target, tx.value, Eoa))
      else Err(UndeterminedType)
  }

  // ----- what an action means, and when it is read back

  function PayerOf(g: Generator): (p: Payer)
  {
    if g.Safe? then SafePays else Eoa
  }

  /** The parsed form of an action, for the actions that have one. */
  function Meaning(keccak: Digest, g: Generator, a: Action): (r: Option<ParsedAction>)
  {
    match a
    case Approve(spender, amount) => Some(ApproveSpender(spender, amount, PayerOf(g)))
    case Transfer(currency, destination, amount) =>
      (match currency
       case XDai => Some(WithdrawNative(destination, amount, PayerOf(g)))
       case _ => Some(WithdrawToken(destination, amount, PayerOf(g))))
    case SendErc777(recipient, amount, _) => Some(WithdrawToken(recipient, amount, PayerOf(g)))
    case Announce(announcement, _) =>
      Some(AnnouncePacketKey(announcement.packetKey, announcement.multiaddress))
    case FundChannel(destination, amount) => Some(FundPaymentChannel(destination, amount))
    case CloseIncomingChannel(source) => Some(IncomingChannelClosure(ChannelId(keccak, source, g.me)))
    case InitiateChannelClosure(destination) =>
      Some(InitializeChannelClosure(ChannelId(keccak, g.me, destination)))
    case FinalizeChannelClosure(destination) => Some(FinalizeClosure(ChannelId(keccak, g.me, destination)))
    case RedeemTicket(acked) => Some(RedeemTicketOf(acked.channelId, acked.ticket.index, acked.ticket.amount))
    case RegisterSafe(safe) => Some(RegisterSafeAddress(safe))
    case _ => None
  }

  /** No contract the parser looks at earlier shadows the token contract. */
  predicate TokenReached(g: Generator, safeModule: address) {
    && (g.Basic? ==> g.addrs.token != safeModule)
    && g.addrs.token != g.addrs.nodeSafeRegistry && g.addrs.token != g.addrs.channels
  }

  /** No contract the parser looks at earlier shadows the channels contract. */
  predicate ChannelsReached(g: Generator, safeModule: address) {
    (g.Basic? ==> g.addrs.channels != safeModule) && g.addrs.channels != g.addrs.nodeSafeRegistry
  }

  const TWO_POW_96: nat := 0x1_0000_0000_0000_0000_0000_0000
  const TWO_POW_48: nat := 0x1_0000_0000_0000

  /** What a caller can check in advance to know that the parser will recover the action. */
  predicate ReadBack(g: Generator, safeModule: address, a: Action) {
    match a
    case Approve(_, _) => TokenReached(g, safeModule)
    case Transfer(currency, destination, amount) =>
      (match currency
       case XDai => amount > 0 && (g.Basic? ==> destination != safeModule && !g.addrs.Lists(destination))
       case _ => TokenReached(g, safeModule))
    case SendErc777(recipient, _, _) =>
      TokenReached(g, safeModule) && recipient != g.addrs.announcements
    case Announce(announcement, _) =>
      TokenReached(g, safeModule) && announcement.multiaddress != Some([])
    case FundChannel(_, amount) => ChannelsReached(g, safeModule) && amount < TWO_POW_96
    case RedeemTicket(acked) =>
      ChannelsReached(g, safeModule) && acked.ticket.amount < TWO_POW_96 && acked.ticket.index < TWO_POW_48
    case RegisterSafe(_) => g.addrs.nodeSafeRegistry != safeModule
    case _ => ChannelsReached(g, safeModule)
  }
}
