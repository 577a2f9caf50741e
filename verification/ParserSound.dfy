/**
  What a parsed action says about any transaction, generated or not: the parser reports an action
  exactly for the transactions that make the call the action stands for.
 */
module ParserSound {
  import opened Abi
  import opened Bytes
  import opened Contracts
  import opened Parser
  import opened Payload
  import opened Primitives
  import opened Tickets
  import opened Wrappers

  /**
    The call a transaction makes: directly, or through the module of the node's Safe. The parser looks
    neither at the operation of a module call nor at the node a call by the Safe names.
   */
  datatype Made = Made(bySafe: bool, to: address, value: nat, data: seq<byte>)

  function CallMade(tx: Transaction, safeModule: address): (m: Option<Made>)
  {
    match tx.to
    case None => None
    case Some(to) =>
      if to != safeModule then Some(Made(false, to, tx.value, tx.input))
      else
        match DecodeExec(tx.input)
        case None => None
        case Some(exec) => Some(Made(true, exec.to, exec.value, exec.data))
  }

  /** Native value is moved: by the Safe with an empty call, or by the node to an account that is no contract. */
  predicate MovesNative(m: Made, addrs: ContractAddresses) {
    m.value > 0 && if m.bySafe then m.data == [] else !addrs.Lists(m.to)
  }

  predicate IsSafeRegistry(m: Made, addrs: ContractAddresses) {
    m.to == addrs.nodeSafeRegistry
  }

  predicate IsChannels(m: Made, addrs: ContractAddresses) {
    m.to == addrs.channels && !IsSafeRegistry(m, addrs)
  }

  predicate IsToken(m: Made, addrs: ContractAddresses) {
    m.to == addrs.token && !IsSafeRegistry(m, addrs) && !IsChannels(m, addrs)
  }

  function PaidBy(m: Made): (p: Payer) {
    if m.bySafe then SafePays else Eoa
  }

  /** The announcements contract binds this key and emits this text, empty if there is no address. */
  predicate Announces(hook: seq<byte>, key: word, text: Option<seq<byte>>) {
    && |hook| >= 160 && Slot(hook, 3) == key && text != Some([])
    && BytesOf(hook, 4) == Some(if text.Some? then text.value else [])
  }

  /** The call that is no native transfer is one its contract reads as the action. */
  predicate Reads(keccak: Digest, m: Made, signer: address, addrs: ContractAddresses, a: ParsedAction) {
    match a
    case WithdrawNative(_, _, _) => false
    case RegisterSafeAddress(safe) =>
      IsSafeRegistry(m, addrs) && ReadSafeRegistry(m.data) == Some(RegistersSafe(safe))
    case ApproveSpender(spender, amount, payer) =>
      IsToken(m, addrs) && payer == PaidBy(m) && ReadToken(m.data) == Some(Approves(spender, amount))
    case WithdrawToken(recipient, amount, payer) =>
      && IsToken(m, addrs) && payer == PaidBy(m)
      && (match ReadToken(m.data)
          case Some(Transfers(to, v)) => to == recipient && v == amount
          case Some(Sends(to, v, _)) => to == recipient != addrs.announcements && v == amount
          case _ => false)
    case AnnouncePacketKey(key, text) =>
      && IsToken(m, addrs)
      && (match ReadToken(m.data)
          case Some(Sends(to, _, hook)) => to == addrs.announcements && Announces(hook, key, text)
          case _ => false)
    case FundPaymentChannel(account, amount) =>
      && IsChannels(m, addrs)
      && (match ReadChannels(m.bySafe, m.data)
          case Some(Funds(_, to, v)) => to == account && v == amount
          case _ => false)
    case InitializeChannelClosure(channel) =>
      && IsChannels(m, addrs)
      && (match ReadChannels(m.bySafe, m.data)
          case Some(InitiatesClosure(_, to)) => channel == ChannelId(keccak, signer, to)
          case _ => false)
    case FinalizeClosure(channel) =>
      && IsChannels(m, addrs)
      && (match ReadChannels(m.bySafe, m.data)
          case Some(FinalizesClosure(_, to)) => channel == ChannelId(keccak, signer, to)
          case _ => false)
    case IncomingChannelClosure(channel) =>
      && IsChannels(m, addrs)
      && (match ReadChannels(m.bySafe, m.data)
          case Some(ClosesIncoming(_, source)) => channel == ChannelId(keccak, source, signer)
          case _ => false)
    case RedeemTicketOf(channel, index, amount) =>
      && IsChannels(m, addrs)
      && (match ReadChannels(m.bySafe, m.data)
          case Some(Redeems(_, words)) =>
            |words| == 22 && channel == words[0] && index == UintOf(words[2], 6) && amount == UintOf(words[1], 12)
          case _ => false)
  }

  /** A transaction stands for an action. */
  predicate StandsFor(keccak: Digest, m: Made, signer: address, addrs: ContractAddresses, a: ParsedAction) {
    if MovesNative(m, addrs) then a == WithdrawNative(m.to, m.value, PaidBy(m))
    else Reads(keccak, m, signer, addrs, a)
  }

  // ----- one contract at a time

  lemma RegistryReads(input: seq<byte>, a: ParsedAction)
    ensures ParseRegistry(input) == Ok(a) <==>
            a.RegisterSafeAddress? && ReadSafeRegistry(input) == Some(RegistersSafe(a.safe))
  {
  }

  lemma AnnouncementReads(hook: seq<byte>, a: ParsedAction)
    ensures ParseAnnouncement(hook) == Ok(a) <==>
            a.AnnouncePacketKey? && Announces(hook, a.packetKey, a.multiaddress)
  {
    var prefix: seq<byte> := Zeros(31) + [32];
    FromBEPadded(31, [32]);
    assert FromBE([32]) == 32 by {
      assert [32][..0] == [];
    }
    hide FromBE;
    var buffer := prefix + hook;
    assert buffer[..32] == prefix && buffer[32..] == hook;
  }

  lemma SelectorOf(sel: selector, input: seq<byte>, n: nat)
    ensures Call(sel, input, n) == if |input| >= 4 + 32 * n && input[..4] == sel then Some(input[4..]) else None
  {}

  lemma TokenReads(addrs: ContractAddresses, input: seq<byte>, payer: Payer)
    ensures match ReadToken(input)
            case None => ParseToken(addrs, input, payer) == Err(NotATransfer)
            case Some(Approves(s, v)) => ParseToken(addrs, input, payer) == Ok(ApproveSpender(s, v, payer))
            case Some(Transfers(r, v)) => ParseToken(addrs, input, payer) == Ok(WithdrawToken(r, v, payer))
            case Some(Sends(r, v, hook)) =>
              ParseToken(addrs, input, payer) ==
              if r == addrs.announcements then ParseAnnouncement(hook) else Ok(WithdrawToken(r, v, payer))
            case _ => false
  {
    SelectorOf(SEND, input, 3);
    SelectorOf(APPROVE, input, 2);
    SelectorOf(TRANSFER, input, 2);
    hide Call, ParseAnnouncement, BytesOf, FromBE;
    assert SEND[0] != APPROVE[0] && SEND[0] != TRANSFER[0] && APPROVE[0] != TRANSFER[0];
    if |input| >= 68 {
      assert Slot(input[4..], 1)[0..] == Slot(input[4..], 1);
    }
  }

  lemma ChannelsRead(keccak: Digest, input: seq<byte>, bySafe: bool, signer: address)
    ensures var r := ParseChannels(keccak, input, bySafe, signer);
            match ReadChannels(bySafe, input)
            case None => r == Err(InvalidChannelCall)
            case Some(Funds(_, to, v)) => r == Ok(FundPaymentChannel(to, v))
            case Some(InitiatesClosure(_, to)) => r == Ok(InitializeChannelClosure(ChannelId(keccak, signer, to)))
            case Some(FinalizesClosure(_, to)) => r == Ok(FinalizeClosure(ChannelId(keccak, signer, to)))
            case Some(ClosesIncoming(_, from)) => r == Ok(IncomingChannelClosure(ChannelId(keccak, from, signer)))
            case Some(Redeems(_, words)) =>
              |words| == 22 && r == Ok(RedeemTicketOf(words[0], UintOf(words[2], 6), UintOf(words[1], 12)))
            case _ => false
  {
    var skip := if bySafe then 1 else 0;
    var fund := if bySafe then FUND_CHANNEL_SAFE else FUND_CHANNEL;
    var initiate := if bySafe then INITIATE_OUTGOING_CHANNEL_CLOSURE_SAFE else INITIATE_OUTGOING_CHANNEL_CLOSURE;
    var finalize := if bySafe then FINALIZE_OUTGOING_CHANNEL_CLOSURE_SAFE else FINALIZE_OUTGOING_CHANNEL_CLOSURE;
    var close := if bySafe then CLOSE_INCOMING_CHANNEL_SAFE else CLOSE_INCOMING_CHANNEL;
    var redeem := if bySafe then REDEEM_TICKET_SAFE else REDEEM_TICKET;
    SelectorOf(fund, input, 2 + skip);
    SelectorOf(initiate, input, 1 + skip);
    SelectorOf(finalize, input, 1 + skip);
    SelectorOf(close, input, 1 + skip);
    SelectorOf(redeem, input, 22 + skip);
    hide Call, ChannelId, UintOf;
    assert fund[0] !in {initiate[0], finalize[0], close[0], redeem[0]};
    assert initiate[0] !in {finalize[0], close[0], redeem[0]} && finalize[0] !in {close[0], redeem[0]};
    assert close[0] != redeem[0];
  }

  lemma AtToken(keccak: Digest, m: Made, signer: address, addrs: ContractAddresses, a: ParsedAction)
    requires IsToken(m, addrs)
    ensures ParseToken(addrs, m.data, PaidBy(m)) == Ok(a) <==> Reads(keccak, m, signer, addrs, a)
  {
    TokenReads(addrs, m.data, PaidBy(m));
    if ReadToken(m.data).Some? && ReadToken(m.data).value.Sends? {
      AnnouncementReads(ReadToken(m.data).value.data, a);
    }
    hide ReadToken, ParseToken, ParseAnnouncement, Announces, ReadChannels, ReadSafeRegistry, ChannelId, UintOf;
  }

  lemma AtChannels(keccak: Digest, m: Made, signer: address, addrs: ContractAddresses, a: ParsedAction)
    requires IsChannels(m, addrs)
    ensures ParseChannels(keccak, m.data, m.bySafe, signer) == Ok(a) <==> Reads(keccak, m, signer, addrs, a)
  {
    ChannelsRead(keccak, m.data, m.bySafe, signer);
    hide ReadToken, ParseChannels, Announces, ReadChannels, ReadSafeRegistry, ChannelId, UintOf;
  }

  lemma AtSafeRegistry(keccak: Digest, m: Made, signer: address, addrs: ContractAddresses, a: ParsedAction)
    requires IsSafeRegistry(m, addrs)
    ensures ParseRegistry(m.data) == Ok(a) <==> Reads(keccak, m, signer, addrs, a)
  {
    RegistryReads(m.data, a);
    hide ReadToken, ParseRegistry, Announces, ReadChannels, ReadSafeRegistry, ChannelId, UintOf;
  }

  /** Every contract is read by its own reader, and calls of any other contract stand for nothing. */
  lemma CallReads(keccak: Digest, m: Made, signer: address, addrs: ContractAddresses, a: ParsedAction)
    ensures ParseCall(keccak, addrs, m.to, m.data, m.bySafe, signer) == Ok(a) <==> Reads(keccak, m, signer, addrs, a)
  {
    if IsSafeRegistry(m, addrs) {
      hide ParseRegistry, Reads;
      AtSafeRegistry(keccak, m, signer, addrs, a);
    } else if IsChannels(m, addrs) {
      hide ParseChannels, Reads;
      AtChannels(keccak, m, signer, addrs, a);
    } else if IsToken(m, addrs) {
      hide ParseToken, Reads;
      AtToken(keccak, m, signer, addrs, a);
    } else {
      hide ReadToken, ReadChannels, ReadSafeRegistry, Announces, ChannelId, UintOf;
    }
  }

  lemma Dispatch(keccak: Digest, tx: Transaction, signer: address, safeModule: address, addrs: ContractAddresses)
    ensures var r := Parse(keccak, tx, signer, safeModule, addrs);
            match CallMade(tx, safeModule)
            case None => r.Err?
            case Some(m) =>
              if MovesNative(m, addrs) then r == Ok(WithdrawNative(m.to, m.value, PaidBy(m)))
              else if m.bySafe || addrs.Lists(m.to)
              then r == ParseCall(keccak, addrs, m.to, m.data, m.bySafe, signer)
              else r.Err?
  {
    hide DecodeExec, ParseCall;
  }

  // ----- the main result

  /** The parser reports an action exactly for the transactions that make a call standing for it. */
  lemma ParseReads(keccak: Digest, tx: Transaction, signer: address, safeModule: address, addrs: ContractAddresses,
                   a: ParsedAction)
    ensures Parse(keccak, tx, signer, safeModule, addrs) == Ok(a) <==>
            match CallMade(tx, safeModule)
            case None => false
            case Some(m) => StandsFor(keccak, m, signer, addrs, a)
  {
    hide CallMade, MovesNative, ParseCall, Parse, Reads;
    Dispatch(keccak, tx, signer, safeModule, addrs);
    match CallMade(tx, safeModule)
    case None =>
    case Some(m) =>
      CallReads(keccak, m, signer, addrs, a);
      if !addrs.Lists(m.to) {
        UnlistedReads(keccak, m, signer, addrs, a);
      }
  }

  lemma UnlistedReads(keccak: Digest, m: Made, signer: address, addrs: ContractAddresses, a: ParsedAction)
    requires !addrs.Lists(m.to)
    ensures !Reads(keccak, m, signer, addrs, a)
  {
    hide ReadToken, ReadChannels, ReadSafeRegistry, Announces, ChannelId, UintOf;
  }
}
